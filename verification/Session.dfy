/**
 The authenticated session state machine (internal/session): negotiation, mutual peer
 authentication, archive authorization, activation, accepted data.

 Each operation is a function from the session before to the session after and the
 error it returns; `LiveSession` is the object whose methods perform them in place.
 */
module Session {
  import opened Bytes
  import opened JournalPayload
  import opened Transcript

  datatype Phase = New | Negotiated | PeerAuthenticated | ArchiveAuthorized | Active | Closed | Failed

  datatype Offer = Offer(versions: seq<byte>, suites: seq<Bytes>, requireSuite: bool)

  datatype Choice = Choice(version: byte, suite: Bytes)

  datatype Flags = Flags(i2r: bool, r2i: bool, peer: bool, archive: bool, replay: bool, mutation: bool)

  /** The transcript, and the digests frozen for the proofs. */
  datatype Bound = Bound(transcript: Option<Bytes>, authBase: Option<Digest>, archiveBase: Option<Digest>)

  datatype Session = Session(
    phase: Phase, offer: Offer, choice: Choice, flags: Flags, bound: Bound, received: u64, maxAccept: u64)

  datatype Error =
    | NoError | BadState | NoVersion | NoSuite | Downgrade | BadProof | NoBase | BadDirection | AtLimit
    | WrongSession | WrongSequence | UnknownType | BadBody | BadChunk | Unopened | PeerFailed | NoKey

  datatype Step = Step(s: Session, error: Error)

  const LOCAL_ALLOWED: seq<byte> := [2, 3]
  const DEFAULT_MAX_ACCEPT: u64 := 0x10_0000

  // "negotiate", "offered", "local_allowed", "suite", "peer_auth", "peer_auth_dir", "archive_auth", "activate",
  // "suite_active"
  const L_NEGOTIATE: Bytes := [110, 101, 103, 111, 116, 105, 97, 116, 101]
  const L_OFFERED: Bytes := [111, 102, 102, 101, 114, 101, 100]
  const L_ALLOWED: Bytes := [108, 111, 99, 97, 108, 95, 97, 108, 108, 111, 119, 101, 100]
  const L_SUITE: Bytes := [115, 117, 105, 116, 101]
  const L_PEER_AUTH: Bytes := [112, 101, 101, 114, 95, 97, 117, 116, 104]
  const L_PEER_AUTH_DIR: Bytes := [112, 101, 101, 114, 95, 97, 117, 116, 104, 95, 100, 105, 114]
  const L_ARCHIVE_AUTH: Bytes := [97, 114, 99, 104, 105, 118, 101, 95, 97, 117, 116, 104]
  const L_ACTIVATE: Bytes := [97, 99, 116, 105, 118, 97, 116, 101]
  const L_SUITE_ACTIVE: Bytes := [115, 117, 105, 116, 101, 95, 97, 99, 116, 105, 118, 101]

  // "proof-tag:" and "archive-tag:"
  const PROOF_TAG: Bytes := [112, 114, 111, 111, 102, 45, 116, 97, 103, 58]
  const ARCHIVE_TAG: Bytes := [97, 114, 99, 104, 105, 118, 101, 45, 116, 97, 103, 58]

  const NO_FLAGS := Flags(false, false, false, false, false, false)

  /** A session as its constructors make it. */
  function Opened(offer: Offer, transcript: Option<Bytes>): Session
  {
    Session(New, offer, Choice(0, []), NO_FLAGS, Bound(transcript, None, None), 0, 0)
  }

  // ---------- versions and suites ----------

  function Candidates(offered: seq<byte>): seq<byte>
  {
    if offered == [] then []
    else
      var rest := Candidates(offered[..|offered| - 1]);
      if offered[|offered| - 1] in LOCAL_ALLOWED then rest + [offered[|offered| - 1]] else rest
  }

  function Max(cands: seq<byte>): byte
    requires cands != []
  {
    var last := cands[|cands| - 1];
    if |cands| == 1 then last
    else
      var m := Max(cands[..|cands| - 1]);
      if last > m then last else m
  }

  /** The highest version both sides allow. */
  function Highest(offered: seq<byte>): Option<byte>
  {
    if Candidates(offered) == [] then None else Some(Max(Candidates(offered)))
  }

  lemma {:induction false} CandidatesAreCommon(offered: seq<byte>, v: byte)
    ensures v in Candidates(offered) <==> v in offered && v in LOCAL_ALLOWED
  {
    if offered != [] {
      CandidatesAreCommon(offered[..|offered| - 1], v);
      assert offered == offered[..|offered| - 1] + [offered[|offered| - 1]];
    }
  }

  lemma {:induction false} MaxIsGreatest(cands: seq<byte>)
    requires cands != []
    ensures Max(cands) in cands && forall v | v in cands :: v <= Max(cands)
  {
    if |cands| > 1 {
      MaxIsGreatest(cands[..|cands| - 1]);
      assert cands == cands[..|cands| - 1] + [cands[|cands| - 1]];
    }
  }

  /** No downgrade: the choice is common to both sides and nothing common is higher. */
  lemma HighestIsGreatest(offered: seq<byte>)
    ensures Highest(offered).Some? <==> exists v | v in LOCAL_ALLOWED :: v in offered
    ensures Highest(offered).Some? ==>
              && Highest(offered).value in offered && Highest(offered).value in LOCAL_ALLOWED
              && forall v | v in offered && v in LOCAL_ALLOWED :: v <= Highest(offered).value
  {
    forall v: byte
      ensures v in Candidates(offered) <==> v in offered && v in LOCAL_ALLOWED
    {
      CandidatesAreCommon(offered, v);
    }
    if Candidates(offered) != [] {
      MaxIsGreatest(Candidates(offered));
    }
  }

  /** candidates and highest, as their loops compute them. */
  method HighestOffered(offered: seq<byte>) returns (r: Option<byte>)
    ensures r == Highest(offered)
  {
    var cands: seq<byte> := [];
    assert offered[..0] == [];
    for i := 0 to |offered|
      invariant cands == Candidates(offered[..i])
    {
      assert offered[..i + 1][..i] == offered[..i];
      if offered[i] in LOCAL_ALLOWED { cands := cands + [offered[i]]; }
    }
    assert offered[..|offered|] == offered;
    if |cands| == 0 { return None; }
    var h := cands[0];
    assert cands[..1] == [h];
    for i := 1 to |cands|
      invariant h == Max(cands[..i])
    {
      assert cands[..i + 1][..i] == cands[..i];
      if cands[i] > h { h := cands[i]; }
    }
    assert cands[..|cands|] == cands;
    return Some(h);
  }

  /** The first local suite the peer also offers. */
  function FirstCommon(local: seq<Bytes>, offered: seq<Bytes>): Option<Bytes>
  {
    if local == [] then None
    else if local[0] != [] && local[0] in offered then Some(local[0])
    else FirstCommon(local[1..], offered)
  }

  method SelectSuite(local: seq<Bytes>, offered: seq<Bytes>) returns (r: Option<Bytes>)
    ensures r == FirstCommon(local, offered)
  {
    if |local| == 0 || |offered| == 0 {
      NothingInCommon(local, offered);
      return None;
    }
    var peer: set<Bytes> := {};
    for i := 0 to |offered|
      invariant forall s: Bytes | s != [] :: s in peer <==> s in offered[..i]
    {
      assert offered[..i + 1] == offered[..i] + [offered[i]];
      if offered[i] != [] { peer := peer + {offered[i]}; }
    }
    assert offered[..|offered|] == offered;
    assert local[0..] == local;
    for i := 0 to |local|
      invariant FirstCommon(local[i..], offered) == FirstCommon(local, offered)
    {
      assert local[i..][1..] == local[i + 1..];
      if local[i] == [] { continue; }
      if local[i] in peer { return Some(local[i]); }
    }
    return None;
  }

  lemma {:induction false} NothingInCommon(local: seq<Bytes>, offered: seq<Bytes>)
    requires local == [] || offered == []
    ensures FirstCommon(local, offered) == None
  {
    if local != [] {
      NothingInCommon(local[1..], offered);
    }
  }

  function LocalSuites(): seq<Bytes>
  {
    [SuiteAead()]
  }

  // ---------- the operations ----------

  function Fail(s: Session, e: Error): Step
  {
    Step(s.(phase := Failed), e)
  }

  predicate NotDowngraded(s: Session)
  {
    Highest(s.offer.versions) == Some(s.choice.version)
  }

  predicate WantsSuite(o: Offer)
  {
    o.requireSuite || o.suites != []
  }

  function BoundVersion(t: Option<Bytes>, h: byte, offered: seq<byte>): Option<Bytes>
  {
    Bind(Bind(Bind(t, L_NEGOTIATE, [h]), L_OFFERED, offered), L_ALLOWED, LOCAL_ALLOWED)
  }

  function FreezeAuth(H: Hash, b: Bound): Bound
  {
    if b.transcript.Some? then b.(authBase := DigestOf(H, b.transcript)) else b
  }

  function FreezeArchive(H: Hash, b: Bound): Bound
  {
    if b.transcript.Some? then b.(archiveBase := DigestOf(H, b.transcript)) else b
  }

  function Negotiate(H: Hash, s: Session): Step
  {
    if s.phase != New then Step(s, BadState)
    else if Highest(s.offer.versions).None? then Fail(s, NoVersion)
    else
      var h := Highest(s.offer.versions).value;
      var t := BoundVersion(s.bound.transcript, h, s.offer.versions);
      var named := s.(phase := Negotiated, choice := Choice(h, s.choice.suite), bound := s.bound.(transcript := t));
      if !WantsSuite(s.offer) then Step(named.(bound := FreezeAuth(H, named.bound)), NoError)
      else
        var suite := FirstCommon(LocalSuites(), s.offer.suites);
        if suite.None? then Fail(named, NoSuite)
        else
          var b := named.bound.(transcript := Bind(t, L_SUITE, suite.value));
          Step(named.(choice := Choice(h, suite.value), bound := FreezeAuth(H, b)), NoError)
  }

  function ConfirmAccept(s: Session, version: byte, suite: Bytes): Step
  {
    if s.phase != Negotiated then Step(s, BadState)
    else if s.choice.version != version then Fail(s, NoVersion)
    else if suite == [] then if s.choice.suite != [] then Fail(s, NoSuite) else Step(s, NoError)
    else if s.choice.suite != suite then Fail(s, NoSuite)
    else Step(s, NoError)
  }

  function EnterPeerAuthenticated(H: Hash, s: Session): Session
  {
    s.(phase := PeerAuthenticated, flags := s.flags.(peer := true), bound := FreezeArchive(H, s.bound))
  }

  /** Without proofs: both directions at once. */
  function Authenticate(H: Hash, s: Session): Step
  {
    if s.phase != Negotiated then Step(s, BadState)
    else if !NotDowngraded(s) then Fail(s, Downgrade)
    else
      var t := Bind(s.bound.transcript, L_PEER_AUTH, [1]);
      var both := s.(flags := s.flags.(i2r := true, r2i := true), bound := s.bound.(transcript := t));
      Step(EnterPeerAuthenticated(H, both), NoError)
  }

  predicate Proved(f: Flags, dir: Bytes)
  {
    if dir == I2R then f.i2r else f.r2i
  }

  function Prove(f: Flags, dir: Bytes): Flags
  {
    if dir == I2R then f.(i2r := true) else f.(r2i := true)
  }

  function BoundProof(hmac: Mac, t: Option<Bytes>, key: Bytes, dir: Bytes, proof: Bytes): Option<Bytes>
  {
    Bind(Bind(t, L_PEER_AUTH, hmac(key, PROOF_TAG + proof)), L_PEER_AUTH_DIR, dir)
  }

  /** One direction's proof, checked against the digest frozen at negotiation. */
  function AuthenticateProof(C: Crypto, s: Session, key: Bytes, id: SessionId, dir: Bytes, proof: Bytes): Step
  {
    if s.phase != Negotiated then Step(s, BadState)
    else if s.bound.authBase.None? then Step(s, NoBase)
    else if !NotDowngraded(s) then Fail(s, Downgrade)
    else if dir != I2R && dir != R2I then Step(s, BadDirection)
    else if Proved(s.flags, dir) then Fail(s, BadProof)
    else if PeerAuthProof(C.hmac, key, s.bound.authBase.value, id, dir) != Some(proof) then Fail(s, BadProof)
    else
      var t := BoundProof(C.hmac, s.bound.transcript, key, dir, proof);
      var one := s.(flags := Prove(s.flags, dir), bound := s.bound.(transcript := t));
      Step(if one.flags.i2r && one.flags.r2i then EnterPeerAuthenticated(C.hash, one) else one, NoError)
  }

  function MakeAuthProof(C: Crypto, s: Session, key: Bytes, id: SessionId, dir: Bytes): Option<Bytes>
  {
    if s.phase != Negotiated || s.bound.authBase.None? || !NotDowngraded(s) then None
    else PeerAuthProof(C.hmac, key, s.bound.authBase.value, id, dir)
  }

  function EnterArchiveAuthorized(s: Session, tag: Bytes): Session
  {
    s.(phase := ArchiveAuthorized, flags := s.flags.(archive := true),
       bound := s.bound.(transcript := Bind(s.bound.transcript, L_ARCHIVE_AUTH, tag)))
  }

  function AuthorizeArchive(s: Session): Step
  {
    if s.phase != PeerAuthenticated || !s.flags.peer then Step(s, BadState)
    else Step(EnterArchiveAuthorized(s, [1]), NoError)
  }

  function AuthorizeArchiveProof(C: Crypto, s: Session, key: Bytes, id: SessionId, proof: Bytes): Step
  {
    if s.phase != PeerAuthenticated || !s.flags.peer then Step(s, BadState)
    else if s.bound.archiveBase.None? then Step(s, NoBase)
    else if ArchiveAuthProof(C.hmac, key, s.bound.archiveBase.value, id) != Some(proof) then Fail(s, BadProof)
    else Step(EnterArchiveAuthorized(s, C.hmac(key, ARCHIVE_TAG + proof)), NoError)
  }

  function MakeArchiveProof(C: Crypto, s: Session, key: Bytes, id: SessionId): Option<Bytes>
  {
    if s.phase != PeerAuthenticated || !s.flags.peer || s.bound.archiveBase.None? then None
    else ArchiveAuthProof(C.hmac, key, s.bound.archiveBase.value, id)
  }

  function BoundActive(t: Option<Bytes>, c: Choice): Option<Bytes>
  {
    var v := Bind(t, L_ACTIVATE, [c.version]);
    if c.suite != [] then Bind(v, L_SUITE_ACTIVE, c.suite) else v
  }

  function Activate(s: Session): Step
  {
    if s.phase != ArchiveAuthorized then Step(s, BadState)
    else if !s.flags.peer || !s.flags.archive then Fail(s, BadProof)
    else if !NotDowngraded(s) then Fail(s, Downgrade)
    else Step(s.(phase := Active, bound := s.bound.(transcript := BoundActive(s.bound.transcript, s.choice))), NoError)
  }

  function AcceptLimit(s: Session): u64
  {
    if s.maxAccept == 0 then DEFAULT_MAX_ACCEPT else s.maxAccept
  }

  function AcceptNext(s: Session): Step
  {
    if s.phase != Active then Step(s, BadState)
    else if s.received >= AcceptLimit(s) then Step(s, AtLimit)
    else Step(s.(received := s.received + 1, flags := s.flags.(mutation := true)), NoError)
  }

  function RejectReplay(s: Session): Step
  {
    if s.phase != Active then Step(s, BadState) else Fail(s.(flags := s.flags.(replay := false)), NoError)
  }

  function Close(s: Session): Step
  {
    if s.phase != Active then Step(s, BadState) else Step(s.(phase := Closed), NoError)
  }

  // ---------- safety of one operation ----------

  function Rank(p: Phase): nat
  {
    match p
    case New => 0
    case Negotiated => 1
    case PeerAuthenticated => 2
    case ArchiveAuthorized => 3
    case Active => 4
    case Closed => 5
    case Failed => 6
  }

  /** What the source's Invariants checks. */
  predicate Invariants(s: Session)
  {
    && (s.phase == Active ==> s.flags.peer && s.flags.archive && NotDowngraded(s))
    && !s.flags.replay
    && (s.flags.mutation ==> s.flags.peer && s.flags.archive)
    && (s.phase == PeerAuthenticated || s.flags.peer ==> s.flags.i2r && s.flags.r2i)
  }

  /** What every reachable session satisfies; it implies Invariants. */
  predicate Inv(s: Session)
  {
    && Invariants(s)
    && (1 <= Rank(s.phase) <= 5 ==> NotDowngraded(s))
    && (2 <= Rank(s.phase) <= 5 <==> s.flags.peer && s.phase != Failed)
    && (3 <= Rank(s.phase) <= 5 <==> s.flags.archive && s.phase != Failed)
    && (s.flags.archive ==> s.flags.peer)
    && (s.phase == New ==> !s.flags.i2r && !s.flags.r2i)
    && (s.flags.mutation <==> s.received > 0)
    && (s.flags.mutation ==> Rank(s.phase) >= 4)
    && s.received <= AcceptLimit(s)
  }

  /** What one operation may do: forward or to FAILED, and nothing already settled is unsettled. */
  predicate Advances(s: Session, t: Session)
  {
    && Rank(s.phase) <= Rank(t.phase)
    && (s.flags.i2r ==> t.flags.i2r) && (s.flags.r2i ==> t.flags.r2i)
    && (s.flags.peer ==> t.flags.peer) && (s.flags.archive ==> t.flags.archive)
    && (s.phase != New ==> t.offer == s.offer && t.choice == s.choice && t.bound.authBase == s.bound.authBase)
    && (s.flags.peer ==> t.bound.archiveBase == s.bound.archiveBase)
    && t.maxAccept == s.maxAccept
    && (t.received != s.received ==>
        t.received == s.received + 1 && s.phase == Active && s.flags.peer && s.flags.archive)
  }

  predicate Safe(s: Session, t: Session)
  {
    Inv(s) ==> Inv(t) && Advances(s, t)
  }

  /** Advancing steps compose. */
  predicate Progressed(s: Session, t: Session)
  {
    && Rank(s.phase) <= Rank(t.phase)
    && (s.flags.peer ==> t.flags.peer) && (s.flags.archive ==> t.flags.archive)
    && (s.phase != New ==> t.choice == s.choice && t.bound.authBase == s.bound.authBase)
    && (s.flags.peer ==> t.bound.archiveBase == s.bound.archiveBase)
    && s.received <= t.received && t.maxAccept == s.maxAccept
  }

  lemma NegotiateSafe(H: Hash, s: Session)
    ensures Safe(s, Negotiate(H, s).s)
  {
    hide Highest, FirstCommon, LocalSuites, BoundVersion, Bind;
  }

  lemma ConfirmSafe(s: Session, version: byte, suite: Bytes)
    ensures Safe(s, ConfirmAccept(s, version, suite).s)
  {
    hide Highest;
  }

  lemma AuthenticateSafe(H: Hash, s: Session)
    ensures Safe(s, Authenticate(H, s).s)
  {
    hide Highest, Bind;
  }

  lemma AuthenticateProofSafe(C: Crypto, s: Session, key: Bytes, id: SessionId, dir: Bytes, proof: Bytes)
    ensures Safe(s, AuthenticateProof(C, s, key, id, dir, proof).s)
  {
    hide Highest, BoundProof, PeerAuthProof;
  }

  lemma AuthorizeArchiveSafe(s: Session)
    ensures Safe(s, AuthorizeArchive(s).s)
  {
    hide Highest, Bind;
  }

  lemma AuthorizeSafe(C: Crypto, s: Session, key: Bytes, id: SessionId, proof: Bytes)
    ensures Safe(s, AuthorizeArchiveProof(C, s, key, id, proof).s)
  {
    hide Highest, Bind, ArchiveAuthProof;
  }

  lemma ActivateSafe(s: Session)
    ensures Safe(s, Activate(s).s)
  {
    hide Highest, BoundActive;
  }

  lemma ClosingSafe(s: Session)
    ensures Safe(s, AcceptNext(s).s)
    ensures Safe(s, Close(s).s)
    ensures Safe(s, RejectReplay(s).s)
    ensures Safe(s, s.(phase := Failed))
  {
    hide Highest;
  }

  // ---------- what each operation leaves alone ----------

  predicate SamePeerMarks(s: Session, t: Session)
  {
    t.flags.i2r == s.flags.i2r && t.flags.r2i == s.flags.r2i
  }

  predicate SameArchiveMark(s: Session, t: Session)
  {
    t.flags.archive == s.flags.archive
  }

  predicate SameMarks(s: Session, t: Session)
  {
    SamePeerMarks(s, t) && SameArchiveMark(s, t) && t.received == s.received
  }

  lemma NegotiateMarks(H: Hash, s: Session, version: byte, suite: Bytes)
    ensures SameMarks(s, Negotiate(H, s).s) && SameMarks(s, ConfirmAccept(s, version, suite).s)
  {
    hide Highest, FirstCommon, LocalSuites, BoundVersion, Bind;
  }

  lemma ClosingMarks(s: Session)
    ensures SameMarks(s, Activate(s).s) && SameMarks(s, Close(s).s) && SameMarks(s, s.(phase := Failed))
    ensures SamePeerMarks(s, AcceptNext(s).s) && SameArchiveMark(s, AcceptNext(s).s)
    ensures AcceptNext(s).s.received == s.received + if AcceptNext(s).error == NoError then 1 else 0
  {
    hide Highest, BoundActive;
  }

  lemma AuthMarks(C: Crypto, s: Session, key: Bytes, id: SessionId, dir: Bytes, proof: Bytes)
    ensures var t := Authenticate(C.hash, s).s; SameArchiveMark(s, t) && t.received == s.received
    ensures var t := AuthenticateProof(C, s, key, id, dir, proof).s; SameArchiveMark(s, t) && t.received == s.received
    ensures var t := AuthorizeArchive(s).s; SamePeerMarks(s, t) && t.received == s.received
    ensures var t := AuthorizeArchiveProof(C, s, key, id, proof).s; SamePeerMarks(s, t) && t.received == s.received
  {
    hide Highest, BoundProof, Bind, PeerAuthProof, ArchiveAuthProof, FreezeArchive;
  }
}
