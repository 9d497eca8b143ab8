/**
 The two-party handshake (internal/remotesync/handshake.go): DialHandshake and
 acceptHandshake exchanging frames over one connection, and traffic afterwards.

 The initiator's version and suite lists are parameters; the source offers [3, 2] and
 its one suite.
 */
module Handshake {
  import opened Bytes
  import opened JournalPayload
  import opened Transcript
  import opened S = Session
  import opened ProtocolFrame
  import opened FrameBodies
  import opened D = Driver

  const ROOT_KEY := 32

  const OFFERED_VERSIONS: seq<byte> := [3, 2]

  // "integris-ipc-mac-v1", "push" and "serve", each followed by a zero byte but the last
  const CHANNEL: Bytes := [105, 110, 116, 101, 103, 114, 105, 115, 45, 105, 112, 99, 45, 109, 97, 99, 45, 118, 49, 0,
                           112, 117, 115, 104, 0, 115, 101, 114, 118, 101]

  // "integris-peer-id|"
  const PEER_ID: Bytes := [105, 110, 116, 101, 103, 114, 105, 115, 45, 112, 101, 101, 114, 45, 105, 100, 124]

  /** deriveMACKey */
  function MacKey(hmac: Mac, root: Bytes, peer: Bytes): Digest
  {
    var base := Hkdf32(hmac, root, CHANNEL);
    if peer == [] then base else Hkdf32(hmac, base, PEER_ID + peer)
  }

  /** The initiator's and the responder's drivers. */
  datatype Pair = Pair(a: Driver, b: Driver)

  // ---------- the exchange ----------

  /** One frame from p.a to p.b: sent by `sent`, decoded and handled at the other end. */
  function Land(C: Crypto, sent: Sent, b: Driver): Option<Pair>
  {
    if sent.raw.None? then None
    else
      var h := DecodeAndHandle(C, b, sent.raw.value);
      if h.error == NoError then Some(Pair(sent.d, h.d)) else None
  }

  function Swap(p: Option<Pair>): Option<Pair>
  {
    if p.Some? then Some(Pair(p.value.b, p.value.a)) else None
  }

  function Dialer(C: Crypto, mac: Bytes, id: SessionId, vers: seq<byte>, suites: seq<Bytes>): Driver
  {
    Fresh(Offer(vers, suites, true), Some([]), id, mac, true)
  }

  function Server(mac: Bytes, id: SessionId): Driver
  {
    Fresh(Offer(OFFERED_VERSIONS, LocalSuites(), true), Some([]), id, mac, true)
  }

  /** The offer: the responder takes the session id from the first frame. */
  function OfferStage(C: Crypto, mac: Bytes, id: SessionId, vers: seq<byte>, suites: seq<Bytes>): Option<Pair>
  {
    var a := Dialer(C, mac, id, vers, suites);
    var n := Negotiate(C.hash, a.session);
    if n.error != NoError then None
    else
      var sent := TransmitOffer(C, a.(session := n.s), vers);
      if sent.raw.None? then None
      else
        var f := DecodeFrame(C.hmac, sent.raw.value, mac, true);
        if f.None? then None
        else
          var h := Handle(C, Server(mac, f.value.session), f.value);
          if h.error == NoError then Some(Pair(sent.d, h.d)) else None
  }

  function AcceptStage(C: Crypto, p: Pair): Option<Pair>
  {
    Swap(Land(C, TransmitAccept(C, p.b), p.a))
  }

  function WithKeys(C: Crypto, d: Driver, root: Bytes, dir: Bytes): Driver
  {
    SetKeys(d, PeerAuthKey(C.hmac, root, d.id), dir, ArchiveAuthKey(C.hmac, root, d.id))
  }

  function Keyed(C: Crypto, p: Pair, root: Bytes): Pair
  {
    Pair(WithKeys(C, p.a, root, I2R), WithKeys(C, p.b, root, R2I))
  }

  function ProofStage(C: Crypto, p: Pair): Option<Pair>
  {
    var q := Land(C, TransmitPeerAuth(C, p.a), p.b);
    if q.None? then None else Swap(Land(C, TransmitPeerAuth(C, q.value.b), q.value.a))
  }

  function ArchiveStage(C: Crypto, p: Pair): Option<Pair>
  {
    Land(C, TransmitArchiveAuth(C, p.a), p.b)
  }

  function ActivateStage(C: Crypto, p: Pair): Option<Pair>
  {
    var n := Activate(p.a.session);
    if n.error != NoError then None else Land(C, Transmit(C, p.a.(session := n.s), FRAME_ACTIVATE, []), p.b)
  }

  function TrafficStage(C: Crypto, p: Pair, root: Bytes): Option<Pair>
  {
    var x, y := InstallTrafficKey(C, p.a, root), InstallTrafficKey(C, p.b, root);
    if x.error == NoError && y.error == NoError then Some(Pair(x.d, y.d)) else None
  }

  function Negotiation(C: Crypto, root: Bytes, peer: Bytes, id: SessionId, vers: seq<byte>,
    suites: seq<Bytes>): Option<Pair>
  {
    var p := OfferStage(C, MacKey(C.hmac, root, peer), id, vers, suites);
    if p.None? then None else AcceptStage(C, p.value)
  }

  function Authentication(C: Crypto, p: Pair): Option<Pair>
  {
    var q := ProofStage(C, p);
    if q.None? then None else ArchiveStage(C, q.value)
  }

  function Activation(C: Crypto, p: Pair, root: Bytes): Option<Pair>
  {
    var q := ActivateStage(C, p);
    if q.None? then None else TrafficStage(C, q.value, root)
  }

  /** DialHandshake against acceptHandshake; None when either side gives up. */
  function Shake(C: Crypto, root: Bytes, peer: Bytes, id: SessionId, vers: seq<byte>, suites: seq<Bytes>): Option<Pair>
  {
    if |root| != ROOT_KEY then None
    else
      var p := Negotiation(C, root, peer, id, vers, suites);
      if p.None? then None
      else
        var q := Authentication(C, Keyed(C, p.value, root));
        if q.None? then None else Activation(C, q.value, root)
  }

  // ---------- one frame across ----------

  /** a's next frame is the one b expects. */
  predicate Linked(a: Driver, b: Driver)
  {
    && a.id == b.id && a.keys.mac == b.keys.mac && |a.keys.mac| >= MIN_KEY
    && a.requireMac && b.requireMac
    && a.send == b.recv
  }

  function Arriving(a: Driver, ftype: u16, body: Bytes): Frame
  {
    Frame(ftype, REQUIRES_MAC, a.id, a.send, body)
  }

  function Landed(C: Crypto, b: Driver, f: Frame): Handled
  {
    var h := Dispatch(C, b, f);
    if h.error == NoError then Handled(h.d.(recv := Next(b.recv)), NoError) else h
  }

  /** Between linked drivers a frame is made, decoded, and reaches the switch in Handle. */
  lemma FrameLands(C: Crypto, a: Driver, b: Driver, ftype: u16, body: Bytes)
    requires Linked(a, b) && Known(ftype) && SealBody(C, a, ftype, body).Some? &&
      |SealBody(C, a, ftype, body).value| <= MAX_BODY
    ensures var sent := Transmit(C, a, ftype, body);
            && sent.raw.Some? && sent.d == a.(send := Next(a.send))
            && DecodeAndHandle(C, b, sent.raw.value) ==
                Landed(C, b, Arriving(a, ftype, SealBody(C, a, ftype, body).value))
  {
    hide Dispatch, SealBody, Clear, DecodeFrame;
    var f := Outgoing(a, ftype, SealBody(C, a, ftype, body).value);
    FrameRoundTrip(C.hmac, f, a.keys.mac, b.requireMac);
  }

  // ---------- twins ----------

  /** Both sides hold the same session, keys and mirrored sequences, and no traffic key yet. */
  predicate Twins(p: Pair)
  {
    && Linked(p.a, p.b) && Linked(p.b, p.a)
    && p.a.session == p.b.session
    && p.a.keys.auth == p.b.keys.auth && p.a.keys.archive == p.b.keys.archive
    && p.a.keys.aead == [] && p.b.keys.aead == []
    && !p.a.chunks.track && !p.b.chunks.track
  }

  lemma SwapTwins(p: Pair)
    ensures Twins(Pair(p.b, p.a)) == Twins(p)
  {
  }

  /** Nothing but the session and the sequences moved. */
  predicate SameKeys(p: Pair, q: Pair)
  {
    q.a.keys == p.a.keys && q.b.keys == p.b.keys && q.a.id == p.a.id
  }

  /** A control frame that both ends apply alike keeps them twins. */
  lemma TwinsStep(C: Crypto, a: Driver, b: Driver, ftype: u16, body: Bytes, t: Session)
    requires Twins(Pair(a, b)) && Known(ftype) && ftype != FRAME_DATA && |body| <= MAX_BODY
    requires Dispatch(C, b, Arriving(a, ftype, body)) == Handled(b.(session := t), NoError)
    ensures var sent := Transmit(C, a, ftype, body);
            var q := Land(C, Sent(sent.d.(session := t), sent.raw), b);
            && sent.raw.Some? && q.Some? && Twins(q.value) && q.value.a.session == t
            && q.value.a == a.(send := Next(a.send), session := t) && SameKeys(Pair(a, b), q.value)
  {
    hide Dispatch, DecodeAndHandle, Transmit;
    FrameLands(C, a, b, ftype, body);
  }

  // ---------- negotiation ----------

  predicate CommonVersion(vers: seq<byte>)
  {
    2 in vers || 3 in vers
  }

  /** What an initiator must offer. */
  predicate Agreeable(vers: seq<byte>, suites: seq<Bytes>)
  {
    CommonVersion(vers) && SuiteAead() in suites && OfferFits(vers, suites)
  }

  lemma CommonIsHighest(vers: seq<byte>)
    ensures CommonVersion(vers) <==> Highest(vers).Some?
  {
    hide Highest;
    HighestIsGreatest(vers);
    assert 2 in LOCAL_ALLOWED && 3 in LOCAL_ALLOWED;
    assert forall v | v in LOCAL_ALLOWED :: v == 2 || v == 3;
  }

  lemma LocalSuiteFound(suites: seq<Bytes>)
    ensures FirstCommon(LocalSuites(), suites) == if SuiteAead() in suites then Some(SuiteAead()) else None
  {
    hide SuiteAead;
    assert LocalSuites()[1..] == [];
    assert FirstCommon([], suites) == None;
  }

  /** Negotiating a dialer's offer: exactly when it has a common version and suite. */
  lemma NegotiateDialer(C: Crypto, mac: Bytes, id: SessionId, vers: seq<byte>, suites: seq<Bytes>)
    ensures var n := Negotiate(C.hash, Dialer(C, mac, id, vers, suites).session);
            && (n.error == NoError <==> CommonVersion(vers) && SuiteAead() in suites)
            && (n.error == NoError ==> Chosen(n.s, vers, suites))
  {
    hide Highest, FirstCommon, LocalSuites, SuiteAead, FieldBytes;
    CommonIsHighest(vers);
    LocalSuiteFound(suites);
    BindKeeps(Some([]), L_NEGOTIATE, if Highest(vers).Some? then [Highest(vers).value] else []);
  }

  lemma BindKeeps(t: Option<Bytes>, name: Bytes, data: Bytes)
    ensures Bind(t, name, data).Some? == t.Some?
  {
  }

  /** The session right after negotiation. */
  predicate Chosen(s: Session, vers: seq<byte>, suites: seq<Bytes>)
  {
    && s.phase == Negotiated
    && s.offer == Offer(vers, suites, true)
    && Highest(vers) == Some(s.choice.version)
    && s.choice.suite == SuiteAead()
    && s.flags == NO_FLAGS && s.received == 0 && s.maxAccept == 0
    && s.bound.transcript.Some? && s.bound.authBase.Some?
  }

  lemma {:induction false} SuitesAreShort(suites: seq<Bytes>)
    requires forall i | 0 <= i < |suites| :: SuiteFits(suites[i])
    ensures |SuitesBytes(suites)| <= 97 * |suites|
  {
    if suites != [] {
      assert SuiteFits(suites[0]);
      SuitesAreShort(suites[1..]);
    }
  }

  lemma OfferIsShort(vers: seq<byte>, suites: seq<Bytes>)
    requires OfferFits(vers, suites)
    ensures 0 < |EncodeOffer(vers, suites).value| <= MAX_BODY
  {
    hide SuitesBytes;
    SuitesAreShort(suites);
  }

  /** The responder, given the offer, negotiates to the initiator's own session. */
  lemma ServerMirrors(C: Crypto, mac: Bytes, id: SessionId, vers: seq<byte>, suites: seq<Bytes>, f: Frame)
    requires OfferFits(vers, suites) && suites != []
    requires f.ftype == FRAME_OFFER && f.body == EncodeOffer(vers, suites).value
    ensures Dispatch(C, Server(mac, id), f) == On(Server(mac, id),
      Negotiate(C.hash, Dialer(C, mac, id, vers, suites).session))
  {
    hide Negotiate, ParseOffer, EncodeOffer;
    OfferIsShort(vers, suites);
    OfferRoundTrip(vers, suites);
  }

  /** The session negotiation leads to, at either end. */
  function Opening(C: Crypto, id: SessionId, vers: seq<byte>, suites: seq<Bytes>): Session
  {
    Negotiate(C.hash, Dialer(C, [], id, vers, suites).session).s
  }

  function Offering(C: Crypto, mac: Bytes, id: SessionId, vers: seq<byte>, suites: seq<Bytes>): Driver
  {
    var a := Dialer(C, mac, id, vers, suites);
    a.(session := Negotiate(C.hash, a.session).s)
  }

  /** The offer crosses. */
  lemma OfferLands(C: Crypto, mac: Digest, id: SessionId, vers: seq<byte>, suites: seq<Bytes>)
    requires Agreeable(vers, suites)
    ensures var p := OfferStage(C, mac, id, vers, suites);
            && p.Some? && Twins(p.value) && Chosen(p.value.a.session, vers, suites)
            && p.value.a.keys == p.value.b.keys == Keys(mac, [], [], [], []) && p.value.a.id == id
            && p.value.a.session == Opening(C, id, vers, suites)
  {
    hide Negotiate, CommonVersion, SuiteAead, EncodeOffer, Dispatch, DecodeFrame, EncodeFrame, Highest, FirstCommon;
    NegotiateDialer(C, mac, id, vers, suites);
    OfferIsShort(vers, suites);
    EncodesOffer(vers, suites);
    var a, b, body := Offering(C, mac, id, vers, suites), Server(mac, id), EncodeOffer(vers, suites).value;
    FrameLands(C, a, b, FRAME_OFFER, body);
    FrameRoundTrip(C.hmac, Outgoing(a, FRAME_OFFER, body), mac, true);
    ServerMirrors(C, mac, id, vers, suites, Arriving(a, FRAME_OFFER, body));
  }

  lemma EncodesOffer(vers: seq<byte>, suites: seq<Bytes>)
    ensures EncodeOffer(vers, suites).Some? <==> OfferFits(vers, suites)
  {
  }

  /** Nothing but an agreeable offer gets past the first frame. */
  lemma OfferNeeds(C: Crypto, mac: Digest, id: SessionId, vers: seq<byte>, suites: seq<Bytes>)
    requires OfferStage(C, mac, id, vers, suites).Some?
    ensures Agreeable(vers, suites)
  {
    hide Negotiate, CommonVersion, SuiteAead, EncodeOffer, Handle, DecodeFrame, Highest, Transmit, LocalSuites;
    NegotiateDialer(C, mac, id, vers, suites);
    EncodesOffer(vers, suites);
  }

  /** The accept crosses back and confirms what the initiator chose. */
  lemma AcceptLands(C: Crypto, p: Pair, vers: seq<byte>, suites: seq<Bytes>)
    requires Twins(p) && Chosen(p.a.session, vers, suites)
    ensures var q := AcceptStage(C, p);
            q.Some? && Twins(q.value) && q.value.a.session == p.a.session && SameKeys(p, q.value)
  {
    hide SuiteAead, Highest, EncodeAccept, ParseAccept, Transmit, DecodeAndHandle;
    var s := p.b.session;
    ChosenVersion(s, vers, suites);
    var body := EncodeAccept(s.choice.version, s.choice.suite).value;
    AcceptConfirms(C, p.b, p.a, body);
    AcceptIsShort(s.choice);
    SwapTwins(p);
    TwinsStep(C, p.b, p.a, FRAME_ACCEPT, body, s);
    assert Transmit(C, p.b, FRAME_ACCEPT, body).d.session == s by { FrameLandsShape(C, p.b, p.a, FRAME_ACCEPT, body); }
  }

  lemma FrameLandsShape(C: Crypto, a: Driver, b: Driver, ftype: u16, body: Bytes)
    requires Linked(a, b) && a.keys.aead == [] && Known(ftype) && |body| <= MAX_BODY
    ensures Transmit(C, a, ftype, body).raw.Some? && Transmit(C, a, ftype, body).d == a.(send := Next(a.send))
  {
    hide Transmit, DecodeAndHandle, Dispatch;
    FrameLands(C, a, b, ftype, body);
  }

  lemma ChosenVersion(s: Session, vers: seq<byte>, suites: seq<Bytes>)
    requires Chosen(s, vers, suites)
    ensures s.choice.version != 0 && |s.choice.suite| == 41 && NotDowngraded(s)
    ensures EncodeAccept(s.choice.version, s.choice.suite).Some?
  {
    hide Highest;
    HighestIsGreatest(vers);
  }

  lemma AcceptIsShort(c: Choice)
    requires EncodeAccept(c.version, c.suite).Some?
    ensures 0 < |EncodeAccept(c.version, c.suite).value| <= MAX_BODY
  {
  }

  lemma AcceptConfirms(C: Crypto, b: Driver, a: Driver, body: Bytes)
    requires a.session.phase == Negotiated && a.session.choice.suite != []
    requires EncodeAccept(a.session.choice.version, a.session.choice.suite) == Some(body)
    ensures Dispatch(C, a, Arriving(b, FRAME_ACCEPT, body)) == Handled(a, NoError)
  {
    AcceptRoundTrip(a.session.choice.version, a.session.choice.suite, body);
  }

  lemma NegotiationAgrees(C: Crypto, root: Bytes, peer: Bytes, id: SessionId, vers: seq<byte>, suites: seq<Bytes>)
    ensures var q := Negotiation(C, root, peer, id, vers, suites);
            && (q.Some? <==> Agreeable(vers, suites))
            && (q.Some? ==> Twins(q.value) && Chosen(q.value.a.session, vers, suites) && q.value.a.id == id
                            && q.value.a.session == Opening(C, id, vers, suites)
                            && q.value.a.keys == q.value.b.keys == Keys(MacKey(C.hmac, root, peer), [], [], [], []))
  {
    hide OfferStage, AcceptStage, Twins, Chosen, Agreeable, MacKey, Opening;
    var mac := MacKey(C.hmac, root, peer);
    if Agreeable(vers, suites) {
      OfferLands(C, mac, id, vers, suites);
      AcceptLands(C, OfferStage(C, mac, id, vers, suites).value, vers, suites);
    } else if OfferStage(C, mac, id, vers, suites).Some? {
      OfferNeeds(C, mac, id, vers, suites);
    }
  }

  // ---------- authentication ----------

  predicate CanProve(s: Session, dir: Bytes)
  {
    && s.phase == Negotiated && s.bound.authBase.Some? && NotDowngraded(s)
    && (dir == I2R || dir == R2I) && !Proved(s.flags, dir)
  }

  function Base(b: Option<Digest>): Digest
  {
    if b.Some? then b.value else GENESIS
  }

  function OwnProof(C: Crypto, d: Driver, dir: Bytes): Digest
  {
    C.hmac(d.keys.auth, PeerMessage(d.id, Base(d.session.bound.authBase), dir))
  }

  function AfterProof(C: Crypto, d: Driver, dir: Bytes): Step
  {
    AuthenticateProof(C, d.session, d.keys.auth, d.id, dir, OwnProof(C, d, dir))
  }

  lemma OwnProofHolds(C: Crypto, d: Driver, dir: Bytes)
    requires CanProve(d.session, dir) && |d.keys.auth| >= MIN_KEY
    ensures MakeAuthProof(C, d.session, d.keys.auth, d.id, dir) == Some(OwnProof(C, d, dir))
    ensures AfterProof(C, d, dir).error == NoError
  {
    hide Highest, BoundProof;
  }

  /** One side's proof crosses, and both sides end in the same session. */
  lemma ProofLands(C: Crypto, p: Pair, dir: Bytes)
    requires Twins(p) && CanProve(p.a.session, dir) && Direction(p.a) == dir && |p.a.keys.auth| >= MIN_KEY
    ensures var q := Land(C, TransmitPeerAuth(C, p.a), p.b);
            q.Some? && Twins(q.value) && q.value.a.session == AfterProof(C, p.a, dir).s && SameKeys(p, q.value)
  {
    hide NotDowngraded, AuthenticateProof, MakeAuthProof, Transmit, DecodeAndHandle, OwnProof;
    OwnProofHolds(C, p.a, dir);
    var proof := OwnProof(C, p.a, dir);
    var body := EncodePeerAuth(dir, proof);
    ProofArrives(C, p, dir, proof);
    TwinsStep(C, p.a, p.b, FRAME_PEER_AUTH, body, AfterProof(C, p.a, dir).s);
  }

  lemma SameProof(C: Crypto, p: Pair, dir: Bytes)
    requires Twins(p) && p.a.session.bound.authBase.Some?
    ensures p.b.session.bound.authBase.Some? && AfterProof(C, p.b, dir) == AfterProof(C, p.a, dir) &&
      OwnProof(C, p.b, dir) == OwnProof(C, p.a, dir)
  {
    hide AuthenticateProof;
  }

  lemma ProofArrives(C: Crypto, p: Pair, dir: Bytes, proof: Digest)
    requires Twins(p) && CanProve(p.a.session, dir) && p.a.keys.auth != []
    requires proof == OwnProof(C, p.a, dir) && AfterProof(C, p.a, dir).error == NoError
    ensures Dispatch(C, p.b, Arriving(p.a, FRAME_PEER_AUTH, EncodePeerAuth(dir, proof)))
         == Handled(p.b.(session := AfterProof(C, p.a, dir).s), NoError)
    ensures |EncodePeerAuth(dir, proof)| <= MAX_BODY
  {
    hide AuthenticateProof, ParsePeerAuth, Dispatch, OwnProof, NotDowngraded, Linked;
    PeerAuthRoundTrip(dir, proof);
    DispatchCases(C, p.b, Arriving(p.a, FRAME_PEER_AUTH, EncodePeerAuth(dir, proof)));
    SameProof(C, p, dir);
  }

  /** Both proofs in: mutual, and the archive digest frozen. */
  predicate Mutual(s: Session, t: Session)
  {
    && t.phase == PeerAuthenticated && t.flags == Flags(true, true, true, false, false, false)
    && t.offer == s.offer && t.choice == s.choice && t.received == s.received && t.maxAccept == s.maxAccept
    && t.bound.transcript.Some? && t.bound.archiveBase.Some?
  }

  lemma FirstProof(C: Crypto, d: Driver)
    requires CanProve(d.session, I2R) && d.session.flags == NO_FLAGS && |d.keys.auth| >= MIN_KEY &&
      d.session.bound.transcript.Some?
    ensures var t := AfterProof(C, d, I2R).s;
            && CanProve(t, R2I) && t.flags == Flags(true, false, false, false, false, false) && t.bound.transcript.Some?
            && t.offer == d.session.offer && t.choice == d.session.choice && t.received == d.session.received &&
                t.maxAccept == d.session.maxAccept
  {
    hide Highest, FieldBytes;
  }

  lemma SecondProof(C: Crypto, d: Driver)
    requires CanProve(d.session, R2I) && d.session.flags == Flags(true, false, false, false, false, false)
    requires |d.keys.auth| >= MIN_KEY && d.session.bound.transcript.Some?
    ensures Mutual(d.session, AfterProof(C, d, R2I).s)
  {
    hide Highest, FieldBytes;
  }

  /** The session after the initiator's proof and then the responder's. */
  function AfterProofs(C: Crypto, d: Driver): Session
  {
    AfterProof(C, d.(session := AfterProof(C, d, I2R).s), R2I).s
  }

  lemma SameAfterProof(C: Crypto, d: Driver, e: Driver, dir: Bytes)
    requires d.session == e.session && d.id == e.id && d.keys.auth == e.keys.auth
    ensures AfterProof(C, d, dir) == AfterProof(C, e, dir)
  {
    hide AuthenticateProof;
  }

  lemma ProofsAgree(C: Crypto, p: Pair)
    requires Twins(p) && CanProve(p.a.session, I2R) && p.a.session.flags == NO_FLAGS &&
      p.a.session.bound.transcript.Some?
    requires |p.a.keys.auth| >= MIN_KEY && p.a.keys.dir == I2R && p.b.keys.dir == R2I
    ensures var q := ProofStage(C, p);
            && q.Some? && Twins(q.value) && Mutual(p.a.session, q.value.a.session) && SameKeys(p, q.value)
            && q.value.a.session == AfterProofs(C, p.a)
  {
    hide CanProve, AfterProof, TransmitPeerAuth, Land;
    ProofLands(C, p, I2R);
    FirstProof(C, p.a);
    var q := Land(C, TransmitPeerAuth(C, p.a), p.b).value;
    SwapTwins(q);
    var r := Pair(q.b, q.a);
    ProofLands(C, r, R2I);
    SecondProof(C, q.b);
    SameAfterProof(C, q.b, p.a.(session := AfterProof(C, p.a, I2R).s), R2I);
    SwapTwins(Land(C, TransmitPeerAuth(C, q.b), q.a).value);
  }

  // ---------- authorization and activation ----------

  function OwnArchiveProof(C: Crypto, d: Driver): Digest
  {
    C.hmac(d.keys.archive, ArchiveMessage(d.id, Base(d.session.bound.archiveBase)))
  }

  function AfterArchive(C: Crypto, d: Driver): Session
  {
    AuthorizeArchiveProof(C, d.session, d.keys.archive, d.id, OwnArchiveProof(C, d)).s
  }

  predicate Authorized(s: Session, t: Session)
  {
    && t.phase == ArchiveAuthorized && t.flags == Flags(true, true, true, true, false, false)
    && t.offer == s.offer && t.choice == s.choice && t.received == s.received && t.maxAccept == s.maxAccept
    && t.bound.transcript.Some?
  }

  lemma OwnArchiveProofHolds(C: Crypto, d: Driver, s: Session)
    requires Mutual(s, d.session) && |d.keys.archive| >= MIN_KEY
    ensures var proof := OwnArchiveProof(C, d);
      var a := AuthorizeArchiveProof(C, d.session, d.keys.archive, d.id, proof);
            MakeArchiveProof(C, d.session, d.keys.archive, d.id) == Some(proof) && a.error == NoError &&
              Authorized(s, a.s)
  {
    hide FieldBytes;
  }

  lemma TwinsKeys(p: Pair)
    requires Twins(p)
    ensures p.a.session == p.b.session && p.a.keys.archive == p.b.keys.archive
  {
  }

  lemma ArchiveAgrees(C: Crypto, p: Pair, s: Session)
    requires Twins(p) && Mutual(s, p.a.session) && |p.a.keys.archive| >= MIN_KEY
    ensures var q := ArchiveStage(C, p);
            && q.Some? && Twins(q.value) && Authorized(s, q.value.a.session) && SameKeys(p, q.value)
            && q.value.a.session == AfterArchive(C, p.a)
  {
    hide AuthorizeArchiveProof, MakeArchiveProof, Transmit, TransmitArchiveAuth, Land, Dispatch, OwnArchiveProof, Twins;
    TwinsKeys(p);
    OwnArchiveProofHolds(C, p.a, s);
    var proof := OwnArchiveProof(C, p.a);
    var t := AuthorizeArchiveProof(C, p.a.session, p.a.keys.archive, p.a.id, proof).s;
    ArchiveProofArrives(C, p, proof);
    TwinsStep(C, p.a, p.b, FRAME_ARCHIVE_AUTH, proof, t);
    ArchiveAuthSent(C, p.a, proof);
  }

  lemma ArchiveProofArrives(C: Crypto, p: Pair, proof: Digest)
    requires Twins(p) && p.a.keys.archive != []
    requires AuthorizeArchiveProof(C, p.a.session, p.a.keys.archive, p.a.id, proof).error == NoError
    ensures Dispatch(C, p.b, Arriving(p.a, FRAME_ARCHIVE_AUTH, proof))
         == Handled(p.b.(session := AuthorizeArchiveProof(C, p.a.session, p.a.keys.archive, p.a.id, proof).s), NoError)
  {
    hide AuthorizeArchiveProof, Dispatch, Linked;
    DispatchCases(C, p.b, Arriving(p.a, FRAME_ARCHIVE_AUTH, proof));
    TwinsIds(p);
  }

  lemma TwinsIds(p: Pair)
    requires Twins(p)
    ensures p.a.id == p.b.id
  {
  }

  lemma ArchiveAuthSent(C: Crypto, a: Driver, proof: Digest)
    requires a.keys.archive != [] && MakeArchiveProof(C, a.session, a.keys.archive, a.id) == Some(proof)
    requires Transmit(C, a, FRAME_ARCHIVE_AUTH, proof).raw.Some?
    requires AuthorizeArchiveProof(C, a.session, a.keys.archive, a.id, proof).error == NoError
    ensures var sent := Transmit(C, a, FRAME_ARCHIVE_AUTH, proof);
            TransmitArchiveAuth(C, a) == Sent(sent.d.(session := AuthorizeArchiveProof(C, a.session, a.keys.archive,
              a.id, proof).s), sent.raw)
  {
    hide AuthorizeArchiveProof, MakeArchiveProof, Transmit;
  }

  /** ACTIVE, with everything proved. */
  predicate Running(s: Session, t: Session)
  {
    && t.phase == Active && t.flags == Flags(true, true, true, true, false, false)
    && t.offer == s.offer && t.choice == s.choice && t.received == s.received && t.maxAccept == s.maxAccept
    && t.bound.transcript.Some?
  }

  lemma ActivateRuns(s: Session, t: Session)
    requires Authorized(s, t) && NotDowngraded(s)
    ensures Activate(t).error == NoError && Running(s, Activate(t).s)
  {
    hide Highest, FieldBytes;
  }

  lemma ActivateAgrees(C: Crypto, p: Pair, s: Session)
    requires Twins(p) && Authorized(s, p.a.session) && NotDowngraded(s)
    ensures var q := ActivateStage(C, p);
            && q.Some? && Twins(q.value) && Running(s, q.value.a.session) && SameKeys(p, q.value)
            && q.value.a.session == Activate(p.a.session).s
  {
    hide Activate, Transmit, DecodeAndHandle, NotDowngraded, Authorized;
    ActivateRuns(s, p.a.session);
    var t := Activate(p.a.session).s;
    TwinsStep(C, p.a, p.b, FRAME_ACTIVATE, [], t);
    ActivateFrame(C, p, t);
  }

  /** Activating before sending makes the same frame as sending and then activating. */
  lemma ActivateFrame(C: Crypto, p: Pair, t: Session)
    ensures var sent := Transmit(C, p.a, FRAME_ACTIVATE, []);
            Transmit(C, p.a.(session := t), FRAME_ACTIVATE, []) == Sent(sent.d.(session := t), sent.raw)
  {
    hide EncodeFrame;
  }

  /** Ready for traffic: same session, same 32-byte key, mirrored sequences. */
  predicate Agreed(p: Pair, vers: seq<byte>, suites: seq<Bytes>)
  {
    && Linked(p.a, p.b) && Linked(p.b, p.a)
    && p.a.session == p.b.session
    && p.a.session.phase == Active && p.a.session.flags == Flags(true, true, true, true, false, false)
    && p.a.session.offer == Offer(vers, suites, true)
    && Highest(vers) == Some(p.a.session.choice.version)
    && p.a.session.choice.suite == SuiteAead()
    && p.a.session.bound.transcript.Some? && p.a.session.received == 0
    && p.a.keys.aead == p.b.keys.aead && |p.a.keys.aead| == AEAD_KEY
    && !p.a.chunks.track && !p.b.chunks.track
  }

  lemma TrafficAgrees(C: Crypto, p: Pair, root: Bytes, s: Session, vers: seq<byte>, suites: seq<Bytes>)
    requires Twins(p) && Running(s, p.a.session) && Chosen(s, vers, suites) && |root| == ROOT_KEY
    ensures var q := TrafficStage(C, p, root);
      q.Some? && Agreed(q.value, vers, suites) && q.value.a.id == p.a.id && q.value.a.session == p.a.session
    ensures TrafficKey(C.hmac, root, C.hash(p.a.session.bound.transcript.value), p.a.id, SuiteAead()) ==
      Some(TrafficStage(C, p, root).value.a.keys.aead)
  {
    hide SuiteAead, Highest, Hkdf32;
  }

  /** The session a keyed driver reaches: both proofs, the archive proof, activation. */
  function EndOf(C: Crypto, d: Driver): Session
  {
    Activate(AfterArchive(C, d.(session := AfterProofs(C, d)))).s
  }

  /** The session both ends hold after a handshake. */
  function Ending(C: Crypto, root: Bytes, id: SessionId, vers: seq<byte>, suites: seq<Bytes>): Session
  {
    EndOf(C, WithKeys(C, Dialer(C, [], id, vers, suites).(session := Opening(C, id, vers, suites)), root, I2R))
  }

  lemma SameAfterArchive(C: Crypto, d: Driver, e: Driver)
    requires d.session == e.session && d.id == e.id && d.keys.archive == e.keys.archive
    ensures AfterArchive(C, d) == AfterArchive(C, e)
  {
    hide AuthorizeArchiveProof;
  }

  lemma SameEnd(C: Crypto, d: Driver, e: Driver)
    requires d.session == e.session && d.id == e.id && d.keys.auth == e.keys.auth && d.keys.archive == e.keys.archive
    ensures EndOf(C, d) == EndOf(C, e)
  {
    hide AfterProof, AfterArchive, Activate;
    SameAfterProof(C, d, e, I2R);
    SameAfterProof(C, d.(session := AfterProof(C, d, I2R).s), e.(session := AfterProof(C, e, I2R).s), R2I);
    SameAfterArchive(C, d.(session := AfterProofs(C, d)), e.(session := AfterProofs(C, e)));
  }

  lemma EndingFrom(C: Crypto, p: Pair, root: Bytes, id: SessionId, vers: seq<byte>, suites: seq<Bytes>)
    requires p.a.session == Opening(C, id, vers, suites) && p.a.id == id
    ensures EndOf(C, WithKeys(C, p.a, root, I2R)) == Ending(C, root, id, vers, suites)
  {
    hide EndOf, Opening;
    SameEnd(C, WithKeys(C, p.a, root, I2R),
            WithKeys(C, Dialer(C, [], id, vers, suites).(session := Opening(C, id, vers, suites)), root, I2R));
  }

  /** The handshake completes exactly for an agreeable offer and a 32-byte root, and then both ends agree. */
  lemma HandshakeAgrees(C: Crypto, root: Bytes, peer: Bytes, id: SessionId, vers: seq<byte>, suites: seq<Bytes>)
    ensures var p := Shake(C, root, peer, id, vers, suites);
            && (p.Some? <==> |root| == ROOT_KEY && Agreeable(vers, suites))
            && (p.Some? ==>
                Agreed(p.value, vers, suites) && p.value.a.id == id &&
                  p.value.a.session == Ending(C, root, id, vers, suites))
  {
    hide Negotiation, Authentication, Activation, Keyed, Agreeable, Agreed, Ending;
    if |root| == ROOT_KEY {
      NegotiationAgrees(C, root, peer, id, vers, suites);
      var n := Negotiation(C, root, peer, id, vers, suites);
      if n.Some? {
        AfterNegotiation(C, n.value, root, vers, suites);
        EndingFrom(C, n.value, root, id, vers, suites);
      }
    }
  }

  lemma AfterNegotiation(C: Crypto, p: Pair, root: Bytes, vers: seq<byte>, suites: seq<Bytes>)
    requires Twins(p) && Chosen(p.a.session, vers, suites) && |root| == ROOT_KEY &&
      p.a.keys == p.b.keys == Keys(p.a.keys.mac, [], [], [], [])
    ensures Authentication(C, Keyed(C, p, root)).Some?
    ensures var r := Activation(C, Authentication(C, Keyed(C, p, root)).value, root);
            && r.Some? && Agreed(r.value, vers, suites) && r.value.a.id == p.a.id
            && r.value.a.session == EndOf(C, WithKeys(C, p.a, root, I2R))
  {
    hide ProofStage, ArchiveStage, ActivateStage, TrafficStage, Chosen, Agreed, Mutual, Authorized, Running,
      NotDowngraded, CanProve;
    hide AfterProofs, AfterArchive, Activate, WithKeys;
    var k := Keyed(C, p, root);
    KeyedTwins(C, p, root, vers, suites);
    ProofsAgree(C, k);
    var q := ProofStage(C, k).value;
    ArchiveAgrees(C, q, k.a.session);
    var r := ArchiveStage(C, q).value;
    SameAfterArchive(C, q.a, k.a.(session := q.a.session));
    ChosenVersion(p.a.session, vers, suites);
    ActivateAgrees(C, r, k.a.session);
    TrafficAgrees(C, ActivateStage(C, r).value, root, k.a.session, vers, suites);
  }

  lemma KeyedTwins(C: Crypto, p: Pair, root: Bytes, vers: seq<byte>, suites: seq<Bytes>)
    requires Twins(p) && Chosen(p.a.session, vers, suites) && p.a.keys == p.b.keys == Keys(p.a.keys.mac, [], [], [], [])
    ensures var k := Keyed(C, p, root);
            && Twins(k) && k.a.session == p.a.session && k.a.id == p.a.id && CanProve(k.a.session, I2R)
            && k.a.session.flags == NO_FLAGS && k.a.session.bound.transcript.Some?
            && |k.a.keys.auth| >= MIN_KEY && |k.a.keys.archive| >= MIN_KEY && k.a.keys.dir == I2R && k.b.keys.dir == R2I
  {
    hide Highest, Hkdf32, SuiteAead;
  }

  // ---------- traffic ----------

  /** The AEAD opens what it seals, with a 16-byte tag. */
  ghost predicate AeadWorks(C: Crypto)
  {
    forall k, n, x, m | |k| == AEAD_KEY ::
      C.open(k, n, x, C.seal(k, n, x, m)) == Some(m) && |C.seal(k, n, x, m)| == |m| + 16
  }

  /** a can send data to b. */
  predicate Flowing(a: Driver, b: Driver)
  {
    Linked(a, b) && a.keys.aead == b.keys.aead && |a.keys.aead| == AEAD_KEY && b.session.phase == Active &&
      !b.chunks.track
  }

  /** After a handshake traffic can flow both ways. */
  lemma AgreedFlows(p: Pair, vers: seq<byte>, suites: seq<Bytes>)
    requires Agreed(p, vers, suites)
    ensures Flowing(p.a, p.b) && Flowing(p.b, p.a)
  {
  }

  function SendOne(C: Crypto, p: Pair, m: Bytes): Option<Pair>
  {
    Land(C, Transmit(C, p.a, FRAME_DATA, m), p.b)
  }

  /** Send ms in order; what the other end read, or None if a message is lost. */
  function SendAll(C: Crypto, p: Pair, ms: seq<Bytes>): Option<seq<Bytes>>
    decreases |ms|
  {
    if ms == [] then Some([])
    else
      var q := SendOne(C, p, ms[0]);
      if q.None? then None
      else
        var rest := SendAll(C, q.value, ms[1..]);
        if rest.None? then None else Some([q.value.b.last] + rest.value)
  }

  lemma OneArrives(C: Crypto, p: Pair, m: Bytes)
    requires AeadWorks(C) && Flowing(p.a, p.b) && |m| + 16 <= MAX_BODY &&
      p.b.session.received < AcceptLimit(p.b.session)
    ensures var q := SendOne(C, p, m);
            && q.Some? && Flowing(q.value.a, q.value.b) && q.value.b.last == m
            && q.value.b.session.received == p.b.session.received + 1 &&
                q.value.b.session.maxAccept == p.b.session.maxAccept
  {
    hide AeadWorks, Transmit, DecodeAndHandle, Dispatch, DataAad;
    SealOpens(C, p.a.keys.aead, p.a.send, DataAad(p.a.id, p.a.send), m);
    FrameLands(C, p.a, p.b, FRAME_DATA, m);
    DataArrives(C, p, m);
  }

  lemma DataArrives(C: Crypto, p: Pair, m: Bytes)
    requires AeadWorks(C) && Flowing(p.a, p.b) && |m| <= MAX_PLAINTEXT &&
      p.b.session.received < AcceptLimit(p.b.session)
    ensures SealBody(C, p.a, FRAME_DATA, m).Some?
    ensures Dispatch(C, p.b, Arriving(p.a, FRAME_DATA, SealBody(C, p.a, FRAME_DATA, m).value))
         == Handled(p.b.(last := m, session := AcceptNext(p.b.session).s), NoError)
  {
    hide AeadWorks, Dispatch, DataAad;
    SealOpens(C, p.a.keys.aead, p.a.send, DataAad(p.a.id, p.a.send), m);
    DispatchCases(C, p.b, Arriving(p.a, FRAME_DATA, SealBody(C, p.a, FRAME_DATA, m).value));
  }

  lemma SealOpens(C: Crypto, k: Bytes, n: u64, x: Bytes, m: Bytes)
    requires AeadWorks(C) && |k| == AEAD_KEY
    ensures C.open(k, n, x, C.seal(k, n, x, m)) == Some(m) && |C.seal(k, n, x, m)| == |m| + 16
  {
  }

  /** Within the receiver's limit every message arrives, once, in order and unchanged. */
  lemma {:induction false} AllArrive(C: Crypto, p: Pair, ms: seq<Bytes>)
    requires AeadWorks(C) && Flowing(p.a, p.b) && forall i | 0 <= i < |ms| :: |ms[i]| + 16 <= MAX_BODY
    requires p.b.session.received + |ms| <= AcceptLimit(p.b.session)
    ensures SendAll(C, p, ms) == Some(ms)
    decreases |ms|
  {
    hide AeadWorks, SendOne, Flowing;
    if ms != [] {
      OneArrives(C, p, ms[0]);
      AllArrive(C, SendOne(C, p, ms[0]).value, ms[1..]);
      assert ms == [ms[0]] + ms[1..];
    }
  }
}
