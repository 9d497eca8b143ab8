/**
 What a completed handshake bound into its transcript, field by field, and what equal
 transcript digests therefore say about two handshakes.
 */
module HandshakeTranscript {
  import opened Bytes
  import opened JournalPayload
  import opened Transcript
  import opened S = Session
  import opened FrameBodies
  import opened D = Driver
  import opened H = Handshake

  // ---------- the fields ----------

  function NegotiationFields(vers: seq<byte>, version: byte): seq<Field>
  {
    [Field(L_NEGOTIATE, [version]), Field(L_OFFERED, vers), Field(L_ALLOWED, LOCAL_ALLOWED),
      Field(L_SUITE, SuiteAead())]
  }

  function ProofFields(hmac: Mac, key: Bytes, proof: Bytes, dir: Bytes): seq<Field>
  {
    [Field(L_PEER_AUTH, hmac(key, PROOF_TAG + proof)), Field(L_PEER_AUTH_DIR, dir)]
  }

  function ActivationFields(version: byte): seq<Field>
  {
    [Field(L_ACTIVATE, [version]), Field(L_SUITE_ACTIVE, SuiteAead())]
  }

  predicate AllAppendable(fs: seq<Field>)
  {
    forall i | 0 <= i < |fs| :: Appendable(fs[i])
  }

  lemma BothAppendable(fs: seq<Field>, gs: seq<Field>)
    requires AllAppendable(fs) && AllAppendable(gs)
    ensures AllAppendable(fs + gs)
  {
    hide Appendable;
  }

  lemma FieldsFit(hmac: Mac, key: Bytes, proof: Bytes, vers: seq<byte>, version: byte)
    requires |vers| <= MAX_VERSIONS
    ensures AllAppendable(NegotiationFields(vers, version)) && AllAppendable(ActivationFields(version))
    ensures AllAppendable(ProofFields(hmac, key, proof, I2R)) && AllAppendable(ProofFields(hmac, key, proof, R2I))
    ensures Appendable(Field(L_ARCHIVE_AUTH, hmac(key, proof)))
  {
    hide SuiteAead;
  }

  /** Negotiation, then each side's proof over the digest of what came before. */
  function AuthenticatedFields(C: Crypto, key: Bytes, id: SessionId, vers: seq<byte>, version: byte): (fs: seq<Field>)
    requires |vers| <= MAX_VERSIONS
    ensures AllAppendable(fs)
  {
    FieldsFit(C.hmac, key, [], vers, version);
    var n := NegotiationFields(vers, version);
    var base := C.hash(Written(n));
    var p, q := C.hmac(key, PeerMessage(id, base, I2R)), C.hmac(key, PeerMessage(id, base, R2I));
    FieldsFit(C.hmac, key, p, vers, version);
    FieldsFit(C.hmac, key, q, vers, version);
    BothAppendable(n, ProofFields(C.hmac, key, p, I2R));
    BothAppendable(n + ProofFields(C.hmac, key, p, I2R), ProofFields(C.hmac, key, q, R2I));
    n + ProofFields(C.hmac, key, p, I2R) + ProofFields(C.hmac, key, q, R2I)
  }

  /** Then the archive proof over the digest of all that, and activation. */
  function HandshakeFields(C: Crypto, root: Bytes, id: SessionId, vers: seq<byte>, version: byte): (fs: seq<Field>)
    requires |vers| <= MAX_VERSIONS
    ensures AllAppendable(fs)
  {
    var auth, archive := PeerAuthKey(C.hmac, root, id), ArchiveAuthKey(C.hmac, root, id);
    var m := AuthenticatedFields(C, auth, id, vers, version);
    var a := C.hmac(archive, ArchiveMessage(id, C.hash(Written(m))));
    FieldsFit(C.hmac, archive, ARCHIVE_TAG + a, vers, version);
    var tag := [Field(L_ARCHIVE_AUTH, C.hmac(archive, ARCHIVE_TAG + a))];
    BothAppendable(m, tag);
    BothAppendable(m + tag, ActivationFields(version));
    m + tag + ActivationFields(version)
  }

  // ---------- the transcript ----------

  /** s has bound exactly fs. */
  predicate Recorded(t: Option<Bytes>, fs: seq<Field>)
  {
    AllAppendable(fs) && t == Some(Written(fs))
  }

  lemma BindRecords(t: Option<Bytes>, fs: seq<Field>, f: Field)
    requires Recorded(t, fs) && Appendable(f)
    ensures Recorded(Bind(t, f.name, f.data), fs + [f])
  {
    hide Written, FieldBytes;
    WrittenSnoc(fs, f);
  }

  lemma TwoRecords(t: Option<Bytes>, fs: seq<Field>, f: Field, g: Field)
    requires Recorded(t, fs) && Appendable(f) && Appendable(g)
    ensures Recorded(Bind(Bind(t, f.name, f.data), g.name, g.data), fs + [f, g])
  {
    hide Bind, Appendable, Recorded;
    BindRecords(t, fs, f);
    BindRecords(Bind(t, f.name, f.data), fs + [f], g);
    assert fs + [f] + [g] == fs + [f, g];
  }

  lemma OpeningRecords(C: Crypto, id: SessionId, vers: seq<byte>, suites: seq<Bytes>)
    requires Agreeable(vers, suites)
    ensures var s := Opening(C, id, vers, suites); var n := NegotiationFields(vers, s.choice.version);
            && Chosen(s, vers, suites) && Recorded(s.bound.transcript, n) &&
                s.bound.authBase == Some(C.hash(Written(n)))
  {
    hide SuiteAead, Highest, Written, Appendable, FirstCommon, LocalSuites;
    NegotiateDialer(C, [], id, vers, suites);
    LocalSuiteFound(suites);
    var s := Opening(C, id, vers, suites);
    var n := NegotiationFields(vers, s.choice.version);
    FieldsFit(C.hmac, [], [], vers, s.choice.version);
    assert Appendable(n[0]) && Appendable(n[1]) && Appendable(n[2]) && Appendable(n[3]);
    EmptyRecorded();
    TwoRecords(Some([]), [], n[0], n[1]);
    var t := Bind(Bind(Some([]), n[0].name, n[0].data), n[1].name, n[1].data);
    TwoRecords(t, [] + [n[0], n[1]], n[2], n[3]);
    assert [] + [n[0], n[1]] + [n[2], n[3]] == n;
    OpeningShape(C, id, vers, suites);
  }

  lemma EmptyRecorded()
    ensures Recorded(Some([]), [])
  {
  }

  lemma OpeningShape(C: Crypto, id: SessionId, vers: seq<byte>, suites: seq<Bytes>)
    requires Agreeable(vers, suites)
    ensures var b := Opening(C, id, vers, suites).bound;
      var n := NegotiationFields(vers, Opening(C, id, vers, suites).choice.version);
            var t := Bind(Bind(Bind(Bind(Some([]), n[0].name, n[0].data), n[1].name, n[1].data), n[2].name,
              n[2].data), n[3].name, n[3].data);
            b.transcript == t && t.Some? && b.authBase == Some(C.hash(t.value))
  {
    hide SuiteAead, Highest, Bind, FirstCommon, LocalSuites;
    CommonIsHighest(vers);
    LocalSuiteFound(suites);
    var h := Highest(vers).value;
    BindKeeps(Some([]), L_NEGOTIATE, [h]);
    BindKeeps(Bind(Some([]), L_NEGOTIATE, [h]), L_OFFERED, vers);
    BindKeeps(BoundVersion(Some([]), h, vers), L_SUITE, SuiteAead());
    BindKeeps(Bind(Bind(Some([]), L_NEGOTIATE, [h]), L_OFFERED, vers), L_ALLOWED, LOCAL_ALLOWED);
  }

  /** A proof of one's own adds its two fields and nothing else. */
  lemma ProofRecords(C: Crypto, d: Driver, dir: Bytes, fs: seq<Field>)
    requires CanProve(d.session, dir) && |d.keys.auth| >= MIN_KEY && Recorded(d.session.bound.transcript, fs)
    ensures var s := AfterProof(C, d, dir).s; var gs := fs + ProofFields(C.hmac, d.keys.auth, OwnProof(C, d, dir), dir);
            && Recorded(s.bound.transcript, gs) && s.bound.authBase == d.session.bound.authBase
            && (s.phase == PeerAuthenticated ==> s.bound.archiveBase == Some(C.hash(Written(gs))))
  {
    hide NotDowngraded, Written, Bind, OwnProof;
    OwnProofHolds(C, d, dir);
    var proof := OwnProof(C, d, dir);
    FieldsFit(C.hmac, d.keys.auth, proof, [], 0);
    var ps := ProofFields(C.hmac, d.keys.auth, proof, dir);
    assert Appendable(ps[0]) && Appendable(ps[1]);
    TwoRecords(d.session.bound.transcript, fs, ps[0], ps[1]);
    assert ps == [ps[0], ps[1]];
  }

  lemma ProofsRecord(C: Crypto, d: Driver, fs: seq<Field>)
    requires CanProve(d.session, I2R) && d.session.flags == NO_FLAGS && |d.keys.auth| >= MIN_KEY &&
      Recorded(d.session.bound.transcript, fs)
    ensures var s := AfterProofs(C, d);
            var gs := fs + ProofFields(C.hmac, d.keys.auth, OwnProof(C, d, I2R), I2R) +
              ProofFields(C.hmac, d.keys.auth, OwnProof(C, d, R2I), R2I);
            Mutual(d.session, s) && Recorded(s.bound.transcript, gs) && s.bound.archiveBase == Some(C.hash(Written(gs)))
  {
    hide CanProve, AfterProof, ProofFields, Written;
    FirstProof(C, d);
    ProofRecords(C, d, I2R, fs);
    var e := d.(session := AfterProof(C, d, I2R).s);
    SecondProof(C, e);
    ProofRecords(C, e, R2I, fs + ProofFields(C.hmac, d.keys.auth, OwnProof(C, d, I2R), I2R));
  }

  lemma ArchiveRecords(C: Crypto, d: Driver, s: Session, fs: seq<Field>)
    requires Mutual(s, d.session) && |d.keys.archive| >= MIN_KEY && Recorded(d.session.bound.transcript, fs)
    ensures Authorized(s, AfterArchive(C, d))
    ensures Recorded(AfterArchive(C, d).bound.transcript,
      fs + [Field(L_ARCHIVE_AUTH, C.hmac(d.keys.archive, ARCHIVE_TAG + OwnArchiveProof(C, d)))])
  {
    hide Written, Bind, OwnArchiveProof, FieldBytes;
    OwnArchiveProofHolds(C, d, s);
    FieldsFit(C.hmac, d.keys.archive, ARCHIVE_TAG + OwnArchiveProof(C, d), [], 0);
    BindRecords(d.session.bound.transcript, fs, Field(L_ARCHIVE_AUTH,
      C.hmac(d.keys.archive, ARCHIVE_TAG + OwnArchiveProof(C, d))));
  }

  lemma ActivateRecords(s: Session, t: Session, fs: seq<Field>)
    requires Authorized(s, t) && NotDowngraded(s) && s.choice.suite == SuiteAead() && Recorded(t.bound.transcript, fs)
    ensures Recorded(Activate(t).s.bound.transcript, fs + ActivationFields(s.choice.version))
  {
    hide Highest, Written, Bind, SuiteAead;
    ActivateRuns(s, t);
    FieldsFit((k, m) => GENESIS, [], [], [], s.choice.version);
    var a := ActivationFields(s.choice.version);
    assert Appendable(a[0]) && Appendable(a[1]);
    TwoRecords(t.bound.transcript, fs, a[0], a[1]);
    assert a == [a[0], a[1]];
  }

  /** A keyed driver fresh from negotiation. */
  function Start(C: Crypto, root: Bytes, id: SessionId, vers: seq<byte>, suites: seq<Bytes>): Driver
  {
    WithKeys(C, Dialer(C, [], id, vers, suites).(session := Opening(C, id, vers, suites)), root, I2R)
  }

  lemma StartReady(C: Crypto, root: Bytes, id: SessionId, vers: seq<byte>, suites: seq<Bytes>)
    requires Chosen(Opening(C, id, vers, suites), vers, suites)
    ensures var d := Start(C, root, id, vers, suites);
            && CanProve(d.session, I2R) && d.session.flags == NO_FLAGS && |d.keys.auth| >= MIN_KEY &&
                |d.keys.archive| >= MIN_KEY
            && d.session == Opening(C, id, vers, suites) && d.id == id
            && d.keys.auth == PeerAuthKey(C.hmac, root, id) && d.keys.archive == ArchiveAuthKey(C.hmac, root, id)
  {
    hide Highest, Opening, Hkdf32;
  }

  /** A completed handshake has bound exactly these fields, in this order. */
  lemma TranscriptIs(C: Crypto, root: Bytes, peer: Bytes, id: SessionId, vers: seq<byte>, suites: seq<Bytes>)
    requires Shake(C, root, peer, id, vers, suites).Some?
    ensures var p := Shake(C, root, peer, id, vers, suites).value;
            && |vers| <= MAX_VERSIONS
            && p.a.session.bound.transcript == p.b.session.bound.transcript
                == Some(Written(HandshakeFields(C, root, id, vers, p.a.session.choice.version)))
  {
    hide Shake, Opening, NegotiationFields, ProofFields, ActivationFields, AfterProofs, AfterArchive, Activate,
      Written, CanProve, NotDowngraded, Appendable;
    HandshakeAgrees(C, root, peer, id, vers, suites);
    OpeningRecords(C, id, vers, suites);
    StartReady(C, root, id, vers, suites);
    var d := Start(C, root, id, vers, suites);
    var version := d.session.choice.version;
    var n := NegotiationFields(vers, version);
    ProofsRecord(C, d, n);
    var m := AuthenticatedFields(C, d.keys.auth, id, vers, version);
    var e := d.(session := AfterProofs(C, d));
    assert Recorded(e.session.bound.transcript, m);
    ArchiveRecords(C, e, d.session, m);
    ChosenVersion(d.session, vers, suites);
    var tag := Field(L_ARCHIVE_AUTH, C.hmac(d.keys.archive, ARCHIVE_TAG + OwnArchiveProof(C, e)));
    ActivateRecords(d.session, AfterArchive(C, e), m + [tag]);
    ActivateRuns(d.session, AfterArchive(C, e));
  }

  // ---------- what it binds ----------

  /** The digest frozen after negotiation. */
  function NegotiationBase(C: Crypto, vers: seq<byte>, version: byte): Digest
    requires |vers| <= MAX_VERSIONS
  {
    FieldsFit(C.hmac, [], [], vers, version);
    C.hash(Written(NegotiationFields(vers, version)))
  }

  /** The initiator's proof over a negotiation. */
  function FirstProofOf(C: Crypto, root: Bytes, id: SessionId, vers: seq<byte>, version: byte): Digest
    requires |vers| <= MAX_VERSIONS
  {
    C.hmac(PeerAuthKey(C.hmac, root, id), PeerMessage(id, NegotiationBase(C, vers, version), I2R))
  }

  lemma FieldsTell(C: Crypto, root: Bytes, id: SessionId, vers: seq<byte>, version: byte)
    requires |vers| <= MAX_VERSIONS
    ensures var fs := HandshakeFields(C, root, id, vers, version);
            && |fs| == 11 && fs[0].data == [version] && fs[1].data == vers
            && fs[4].data == C.hmac(PeerAuthKey(C.hmac, root, id), PROOF_TAG + FirstProofOf(C, root, id, vers, version))
  {
    hide Written, Appendable, SuiteAead, Hkdf32;
  }

  /** Two different keyed messages with the same HMAC. */
  predicate MacCollision(hmac: Mac, k: Bytes, m: Bytes, k2: Bytes, m2: Bytes)
  {
    (k != k2 || m != m2) && hmac(k, m) == hmac(k2, m2)
  }

  lemma MessageTells(id: SessionId, base: Digest, id2: SessionId, base2: Digest)
    requires PeerMessage(id, base, I2R) == PeerMessage(id2, base2, I2R)
    ensures id == id2
  {
    var n := |PEER_AUTH|;
    assert PeerMessage(id, base, I2R)[n..n + 16] == id && PeerMessage(id2, base2, I2R)[n..n + 16] == id2;
  }

  lemma TagTells(proof: Digest, proof2: Digest)
    requires PROOF_TAG + proof == PROOF_TAG + proof2
    ensures proof == proof2
  {
    assert (PROOF_TAG + proof)[|PROOF_TAG|..] == proof && (PROOF_TAG + proof2)[|PROOF_TAG|..] == proof2;
  }

  /** Equal proof tags: the same session id, or two named keyed messages share an HMAC. */
  lemma TagsBindIds(
    C: Crypto, root: Bytes, id: SessionId, root2: Bytes, id2: SessionId, vers: seq<byte>, version: byte)
    requires |vers| <= MAX_VERSIONS
    requires HandshakeFields(C, root, id, vers, version) == HandshakeFields(C, root2, id2, vers, version)
    ensures
      var k, k2 := PeerAuthKey(C.hmac, root, id), PeerAuthKey(C.hmac, root2, id2);
      var p, p2 := FirstProofOf(C, root, id, vers, version), FirstProofOf(C, root2, id2, vers, version);
      var base := NegotiationBase(C, vers, version);
      || id == id2
      || MacCollision(C.hmac, k, PROOF_TAG + p, k2, PROOF_TAG + p2)
      || MacCollision(C.hmac, k, PeerMessage(id, base, I2R), k2, PeerMessage(id2, base, I2R))
  {
    hide HandshakeFields, PeerAuthKey, PeerMessage, NegotiationBase;
    FieldsTell(C, root, id, vers, version);
    FieldsTell(C, root2, id2, vers, version);
    var base := NegotiationBase(C, vers, version);
    var p, p2 := FirstProofOf(C, root, id, vers, version), FirstProofOf(C, root2, id2, vers, version);
    if PROOF_TAG + p == PROOF_TAG + p2 {
      TagTells(p, p2);
    }
    if PeerMessage(id, base, I2R) == PeerMessage(id2, base, I2R) {
      MessageTells(id, base, id2, base);
    }
  }

  /**
   Equal transcript digests: both handshakes offered the same versions, chose the same one and
   bound the same fields, or the two transcripts collide.
   */
  lemma TranscriptBinds(
    C: Crypto, root: Bytes, peer: Bytes, id: SessionId, vers: seq<byte>, suites: seq<Bytes>,
    root2: Bytes, peer2: Bytes, id2: SessionId, vers2: seq<byte>, suites2: seq<Bytes>)
    requires Shake(C, root, peer, id, vers, suites).Some? && Shake(C, root2, peer2, id2, vers2, suites2).Some?
    ensures
      var s := Shake(C, root, peer, id, vers, suites).value.a.session;
      var t := Shake(C, root2, peer2, id2, vers2, suites2).value.a.session;
      && s.bound.transcript.Some? && t.bound.transcript.Some? && |vers| <= MAX_VERSIONS && |vers2| <= MAX_VERSIONS
      && (C.hash(s.bound.transcript.value) == C.hash(t.bound.transcript.value) ==>
            || IsCollision(C.hash, s.bound.transcript.value, t.bound.transcript.value)
            || (&& vers == vers2 && s.choice == t.choice
                && HandshakeFields(C, root, id, vers, s.choice.version)
                   == HandshakeFields(C, root2, id2, vers2, t.choice.version)))
  {
    hide Shake, Written, HandshakeFields, Appendable, SuiteAead;
    TranscriptIs(C, root, peer, id, vers, suites);
    TranscriptIs(C, root2, peer2, id2, vers2, suites2);
    HandshakeAgrees(C, root, peer, id, vers, suites);
    HandshakeAgrees(C, root2, peer2, id2, vers2, suites2);
    var s := Shake(C, root, peer, id, vers, suites).value.a.session;
    var t := Shake(C, root2, peer2, id2, vers2, suites2).value.a.session;
    var fs := HandshakeFields(C, root, id, vers, s.choice.version);
    var gs := HandshakeFields(C, root2, id2, vers2, t.choice.version);
    if C.hash(s.bound.transcript.value) == C.hash(t.bound.transcript.value) {
      DigestBinds(C.hash, fs, gs);
      FieldsTell(C, root, id, vers, s.choice.version);
      FieldsTell(C, root2, id2, vers2, t.choice.version);
    }
  }
}
