/**
 The session object: each method updates the fields in place, in the source's order,
 and ends where the corresponding function of Session says.
 */
module LiveSession {
  import opened Bytes
  import opened JournalPayload
  import opened Transcript
  import S = Session

  class LiveSession {
    var phase: S.Phase
    var offer: S.Offer
    var choice: S.Choice
    var flags: S.Flags
    const transcript: RunningHash?
    var authBase: Option<Digest>
    var archiveBase: Option<Digest>
    var received: u64
    var maxAccept: u64

    ghost predicate Valid()
      reads this, transcript
    {
      transcript != null ==> transcript.Valid()
    }

    function Fed(): Option<Bytes>
      reads transcript
    {
      if transcript == null then None else Some(transcript.fed)
    }

    function View(): S.Session
      reads this, transcript
    {
      S.Session(phase, offer, choice, flags, S.Bound(Fed(), authBase, archiveBase), received, maxAccept)
    }

    /** What every operation promises: the session is safe and only advances, and steps once bound stay bound. */
    twostate predicate Kept()
      reads this, transcript
    {
      && Valid() && S.Safe(old(View()), View())
      && (transcript != null ==> old(transcript.fields) <= transcript.fields)
    }

    /** New, or NewWithSuites with its own transcript. */
    constructor (offer: S.Offer, bound: bool)
      ensures View() == S.Opened(offer, if bound then Some([]) else None)
      ensures Valid() && S.Inv(View()) && (transcript != null ==> fresh(transcript))
    {
      this.phase, this.offer, choice, flags := S.New, offer, S.Choice(0, []), S.NO_FLAGS;
      authBase, archiveBase, received, maxAccept := None, None, 0, 0;
      if bound {
        var t := new RunningHash();
        transcript := t;
      } else {
        transcript := null;
      }
    }

    /** bind: a field Append refuses is ignored. */
    method Record(name: Bytes, data: Bytes)
      requires Valid()
      modifies transcript
      ensures Valid() && Fed() == Bind(old(Fed()), name, data)
      ensures transcript != null ==> old(transcript.fields) <= transcript.fields
    {
      if transcript != null {
        var _ := transcript.Append(name, data);
      }
    }

    /** freezeAuthBase */
    method FreezeAuthBase(H: Hash)
      modifies this`authBase
      ensures S.Bound(Fed(), authBase, archiveBase) == S.FreezeAuth(H, S.Bound(Fed(), old(authBase), archiveBase))
    {
      if transcript != null { authBase := Some(H(transcript.fed)); }
    }

    /** freezeArchiveBase */
    method FreezeArchiveBase(H: Hash)
      modifies this`archiveBase
      ensures S.Bound(Fed(), authBase, archiveBase) == S.FreezeArchive(H, S.Bound(Fed(), authBase, old(archiveBase)))
    {
      if transcript != null { archiveBase := Some(H(transcript.fed)); }
    }

    method Negotiate(H: Hash) returns (e: S.Error)
      requires Valid()
      modifies this, transcript
      ensures S.Step(View(), e) == S.Negotiate(H, old(View()))
      ensures Kept()
    {
      hide S.Highest, S.FirstCommon, Bind, SuiteAead, S.Safe;
      S.NegotiateSafe(H, View());
      if phase != S.New { return S.BadState; }
      var h := S.HighestOffered(offer.versions);
      if h.None? {
        phase := S.Failed;
        return S.NoVersion;
      }
      choice := S.Choice(h.value, choice.suite);
      phase := S.Negotiated;
      Record(S.L_NEGOTIATE, [h.value]);
      Record(S.L_OFFERED, offer.versions);
      Record(S.L_ALLOWED, S.LOCAL_ALLOWED);
      if offer.requireSuite || |offer.suites| > 0 {
        var suite := S.SelectSuite(S.LocalSuites(), offer.suites);
        if suite.None? {
          phase := S.Failed;
          return S.NoSuite;
        }
        choice := S.Choice(h.value, suite.value);
        Record(S.L_SUITE, suite.value);
      }
      FreezeAuthBase(H);
      return S.NoError;
    }

    method ConfirmAccept(version: byte, suite: Bytes) returns (e: S.Error)
      requires Valid()
      modifies this`phase
      ensures S.Step(View(), e) == S.ConfirmAccept(old(View()), version, suite)
      ensures Kept()
    {
      hide S.Safe;
      S.ConfirmSafe(View(), version, suite);
      if phase != S.Negotiated { return S.BadState; }
      if choice.version != version {
        phase := S.Failed;
        return S.NoVersion;
      }
      if suite == [] {
        if choice.suite != [] {
          phase := S.Failed;
          return S.NoSuite;
        }
        return S.NoError;
      }
      if choice.suite != suite {
        phase := S.Failed;
        return S.NoSuite;
      }
      return S.NoError;
    }

    method Authenticate(H: Hash) returns (e: S.Error)
      requires Valid()
      modifies this, transcript
      ensures S.Step(View(), e) == S.Authenticate(H, old(View()))
      ensures Kept()
    {
      hide S.Highest, Bind, S.Safe;
      S.AuthenticateSafe(H, View());
      if phase != S.Negotiated { return S.BadState; }
      var h := S.HighestOffered(offer.versions);
      if h != Some(choice.version) {
        phase := S.Failed;
        return S.Downgrade;
      }
      flags := flags.(i2r := true, r2i := true);
      flags := flags.(peer := true);
      phase := S.PeerAuthenticated;
      Record(S.L_PEER_AUTH, [1]);
      FreezeArchiveBase(H);
      return S.NoError;
    }

    method AuthenticateProof(C: Crypto, key: Bytes, id: SessionId, dir: Bytes, proof: Bytes) returns (e: S.Error)
      requires Valid()
      modifies this, transcript
      ensures S.Step(View(), e) == S.AuthenticateProof(C, old(View()), key, id, dir, proof)
      ensures Kept()
    {
      hide S.Highest, Bind, PeerAuthProof, S.Safe;
      S.AuthenticateProofSafe(C, View(), key, id, dir, proof);
      if phase != S.Negotiated { return S.BadState; }
      if authBase.None? { return S.NoBase; }
      var h := S.HighestOffered(offer.versions);
      if h != Some(choice.version) {
        phase := S.Failed;
        return S.Downgrade;
      }
      if dir == I2R {
        if flags.i2r {
          phase := S.Failed;
          return S.BadProof;
        }
      } else if dir == R2I {
        if flags.r2i {
          phase := S.Failed;
          return S.BadProof;
        }
      } else {
        return S.BadDirection;
      }
      if PeerAuthProof(C.hmac, key, authBase.value, id, dir) != Some(proof) {
        phase := S.Failed;
        return S.BadProof;
      }
      Record(S.L_PEER_AUTH, C.hmac(key, S.PROOF_TAG + proof));
      Record(S.L_PEER_AUTH_DIR, dir);
      if dir == I2R { flags := flags.(i2r := true); } else { flags := flags.(r2i := true); }
      if flags.i2r && flags.r2i {
        flags := flags.(peer := true);
        phase := S.PeerAuthenticated;
        FreezeArchiveBase(C.hash);
      }
      return S.NoError;
    }

    method AuthorizeArchive() returns (e: S.Error)
      requires Valid()
      modifies this, transcript
      ensures S.Step(View(), e) == S.AuthorizeArchive(old(View()))
      ensures Kept()
    {
      hide S.Safe;
      S.AuthorizeArchiveSafe(View());
      if phase != S.PeerAuthenticated || !flags.peer { return S.BadState; }
      flags := flags.(archive := true);
      phase := S.ArchiveAuthorized;
      Record(S.L_ARCHIVE_AUTH, [1]);
      return S.NoError;
    }

    method AuthorizeArchiveProof(C: Crypto, key: Bytes, id: SessionId, proof: Bytes) returns (e: S.Error)
      requires Valid()
      modifies this, transcript
      ensures S.Step(View(), e) == S.AuthorizeArchiveProof(C, old(View()), key, id, proof)
      ensures Kept()
    {
      hide Bind, ArchiveAuthProof, S.Safe;
      S.AuthorizeSafe(C, View(), key, id, proof);
      if phase != S.PeerAuthenticated || !flags.peer { return S.BadState; }
      if archiveBase.None? { return S.NoBase; }
      if ArchiveAuthProof(C.hmac, key, archiveBase.value, id) != Some(proof) {
        phase := S.Failed;
        return S.BadProof;
      }
      Record(S.L_ARCHIVE_AUTH, C.hmac(key, S.ARCHIVE_TAG + proof));
      flags := flags.(archive := true);
      phase := S.ArchiveAuthorized;
      return S.NoError;
    }

    method Activate() returns (e: S.Error)
      requires Valid()
      modifies this, transcript
      ensures S.Step(View(), e) == S.Activate(old(View()))
      ensures Kept()
    {
      hide S.Highest, Bind, S.Safe;
      S.ActivateSafe(View());
      if phase != S.ArchiveAuthorized { return S.BadState; }
      if !flags.peer || !flags.archive {
        phase := S.Failed;
        return S.BadProof;
      }
      var h := S.HighestOffered(offer.versions);
      if h != Some(choice.version) {
        phase := S.Failed;
        return S.Downgrade;
      }
      phase := S.Active;
      Record(S.L_ACTIVATE, [choice.version]);
      if choice.suite != [] {
        Record(S.L_SUITE_ACTIVE, choice.suite);
      }
      return S.NoError;
    }

    method AcceptNext() returns (e: S.Error)
      requires Valid()
      modifies this`received, this`flags
      ensures S.Step(View(), e) == S.AcceptNext(old(View()))
      ensures Kept()
    {
      hide S.Safe;
      S.ClosingSafe(View());
      if phase != S.Active { return S.BadState; }
      var limit := maxAccept;
      if limit == 0 { limit := S.DEFAULT_MAX_ACCEPT; }
      if received >= limit { return S.AtLimit; }
      received := received + 1;
      flags := flags.(mutation := true);
      return S.NoError;
    }

    method Close() returns (e: S.Error)
      requires Valid()
      modifies this`phase
      ensures S.Step(View(), e) == S.Close(old(View()))
      ensures Kept()
    {
      hide S.Safe;
      S.ClosingSafe(View());
      if phase != S.Active { return S.BadState; }
      phase := S.Closed;
      return S.NoError;
    }
  }
}
