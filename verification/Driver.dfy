/**
 The protocol driver (internal/protocol/driver.go): inbound frames onto the session,
 outbound frames with their own sequence, and the safety of every run.
 */
module Driver {
  import opened Bytes
  import opened JournalPayload
  import opened Transcript
  import opened S = Session
  import opened ProtocolFrame
  import opened FrameBodies

  datatype Keys = Keys(mac: Bytes, aead: Bytes, auth: Bytes, dir: Bytes, archive: Bytes)

  datatype Chunks = Chunks(track: bool, nextData: u64, nextSend: u64)

  datatype Driver = Driver(
    session: Session, id: SessionId, send: u64, recv: u64, keys: Keys, requireMac: bool, last: Bytes, chunks: Chunks)

  datatype Handled = Handled(d: Driver, error: Error)

  datatype Sent = Sent(d: Driver, raw: Option<Bytes>)

  const AEAD_KEY := 32
  const MAX_PLAINTEXT := 0x10_0000

  function Next(n: u64): u64
  {
    if n == 0xFFFF_FFFF_FFFF_FFFF then 0 else n + 1
  }

  /** NewDriver and NewDriverWithSuites. */
  function Fresh(offer: Offer, transcript: Option<Bytes>, id: SessionId, mac: Bytes, requireMac: bool): Driver
  {
    Driver(Opened(offer, transcript), id, 1, 1,
           Keys(mac, [], [], [], []), requireMac, [], Chunks(false, 0, 0))
  }

  function On(d: Driver, s: Step): Handled
  {
    Handled(d.(session := s.s), s.error)
  }

  // ---------- inbound ----------

  function Offered(o: Offer, vers: seq<byte>, suites: seq<Bytes>): Offer
  {
    Offer(vers, if |suites| > 0 then suites else o.suites, o.requireSuite)
  }

  function HandleOffer(C: Crypto, d: Driver, body: Bytes): Handled
  {
    if d.session.phase != New then Handled(d, NoError)
    else if body == [] then On(d, Negotiate(C.hash, d.session))
    else
      var o := ParseOffer(body);
      if o.None? then Handled(d, BadBody)
      else On(d, Negotiate(C.hash, d.session.(offer := Offered(d.session.offer, o.value.0, o.value.1))))
  }

  function HandleAccept(C: Crypto, d: Driver, body: Bytes): Handled
  {
    if body != [] && ParseAccept(body).None? then Handled(d, BadBody)
    else
      var n := if d.session.phase == New then Negotiate(C.hash, d.session) else Step(d.session, NoError);
      if n.error != NoError || body == [] then On(d, n)
      else On(d, ConfirmAccept(n.s, ParseAccept(body).value.0, ParseAccept(body).value.1))
  }

  function HandlePeerAuth(C: Crypto, d: Driver, body: Bytes): Handled
  {
    if d.keys.auth == [] then On(d, Authenticate(C.hash, d.session))
    else
      var p := ParsePeerAuth(body);
      if p.None? then Handled(d, BadBody)
      else On(d, AuthenticateProof(C, d.session, d.keys.auth, d.id, p.value.0, p.value.1))
  }

  function HandleArchiveAuth(C: Crypto, d: Driver, body: Bytes): Handled
  {
    if d.keys.archive == [] then On(d, AuthorizeArchive(d.session))
    else On(d, AuthorizeArchiveProof(C, d.session, d.keys.archive, d.id, body))
  }

  function DataAad(id: SessionId, sequence: u64): Bytes
  {
    FRAME_MAGIC + LE16(FRAME_DATA) + id + LE64(sequence)
  }

  function OpenBody(C: Crypto, d: Driver, f: Frame): Option<Bytes>
  {
    if d.keys.aead == [] then Some(f.body)
    else if |d.keys.aead| != AEAD_KEY then None
    else C.open(d.keys.aead, f.sequence, DataAad(d.id, f.sequence), f.body)
  }

  /** The payload is taken, and the offset advanced, before the session accepts it. */
  function HandleData(C: Crypto, d: Driver, f: Frame): Handled
  {
    var body := OpenBody(C, d, f);
    if body.None? then Handled(d, Unopened)
    else if !d.chunks.track then On(d.(last := body.value), AcceptNext(d.session))
    else
      var c := ParseChunk(body.value);
      if c.None? then Handled(d, BadBody)
      else if c.value.0 != d.chunks.nextData then Handled(d, BadChunk)
      else
        assert ChunkFits(c.value.0, c.value.1);
        On(d.(last := c.value.1, chunks := d.chunks.(nextData := c.value.0 + |c.value.1|)), AcceptNext(d.session))
  }

  function Dispatch(C: Crypto, d: Driver, f: Frame): Handled
  {
    if f.ftype == FRAME_OFFER then HandleOffer(C, d, f.body)
    else if f.ftype == FRAME_ACCEPT then HandleAccept(C, d, f.body)
    else if f.ftype == FRAME_PEER_AUTH then HandlePeerAuth(C, d, f.body)
    else if f.ftype == FRAME_ARCHIVE_AUTH then HandleArchiveAuth(C, d, f.body)
    else if f.ftype == FRAME_ACTIVATE then On(d, Activate(d.session))
    else if f.ftype == FRAME_DATA then HandleData(C, d, f)
    else if f.ftype == FRAME_CLOSE then On(d, Close(d.session))
    else if f.ftype == FRAME_FAILURE then On(d, Fail(d.session, PeerFailed))
    else Handled(d, UnknownType)
  }

  lemma DispatchCases(C: Crypto, d: Driver, f: Frame)
    ensures f.ftype == FRAME_PEER_AUTH ==> Dispatch(C, d, f) == HandlePeerAuth(C, d, f.body)
    ensures f.ftype == FRAME_ARCHIVE_AUTH ==> Dispatch(C, d, f) == HandleArchiveAuth(C, d, f.body)
    ensures f.ftype == FRAME_DATA ==> Dispatch(C, d, f) == HandleData(C, d, f)
  {
    hide HandlePeerAuth, HandleArchiveAuth, HandleData;
  }

  /** Handle: the receive sequence advances exactly when the frame is accepted. */
  function Handle(C: Crypto, d: Driver, f: Frame): Handled
  {
    if f.session != d.id then Handled(d, WrongSession)
    else if f.sequence != d.recv then Handled(d, WrongSequence)
    else
      var h := Dispatch(C, d, f);
      if h.error == NoError then Handled(h.d.(recv := Next(d.recv)), NoError) else h
  }

  function DecodeAndHandle(C: Crypto, d: Driver, raw: Bytes): Handled
  {
    var f := DecodeFrame(C.hmac, raw, d.keys.mac, d.requireMac);
    if f.None? then Handled(d, BadBody) else Handle(C, d, f.value)
  }

  // ---------- outbound ----------

  function SealBody(C: Crypto, d: Driver, ftype: u16, body: Bytes): Option<Bytes>
  {
    if ftype != FRAME_DATA || d.keys.aead == [] then Some(body)
    else if |d.keys.aead| != AEAD_KEY || |body| > MAX_PLAINTEXT then None
    else Some(C.seal(d.keys.aead, d.send, DataAad(d.id, d.send), body))
  }

  function Outgoing(d: Driver, ftype: u16, body: Bytes): Frame
  {
    Frame(ftype, if d.requireMac || |d.keys.mac| > 0 then REQUIRES_MAC else 0, d.id, d.send, body)
  }

  /** Driver.EncodeFrame: the send sequence advances exactly when a frame is made. */
  function Transmit(C: Crypto, d: Driver, ftype: u16, body: Bytes): Sent
  {
    var sealed := SealBody(C, d, ftype, body);
    if sealed.None? then Sent(d, None)
    else
      var raw := EncodeFrame(C.hmac, Outgoing(d, ftype, sealed.value), d.keys.mac);
      if raw.None? then Sent(d, None) else Sent(d.(send := Next(d.send)), raw)
  }

  function TransmitOffer(C: Crypto, d: Driver, vers: seq<byte>): Sent
  {
    var suites := if d.session.offer.suites == [] then LocalSuites() else d.session.offer.suites;
    var body := EncodeOffer(vers, suites);
    if body.None? then Sent(d, None) else Transmit(C, d, FRAME_OFFER, body.value)
  }

  function TransmitAccept(C: Crypto, d: Driver): Sent
  {
    var n := if d.session.phase == New then Negotiate(C.hash, d.session) else Step(d.session, NoError);
    var e := d.(session := n.s);
    if n.error != NoError || n.s.phase != Negotiated then Sent(e, None)
    else
      var body := EncodeAccept(n.s.choice.version, n.s.choice.suite);
      if body.None? then Sent(e, None) else Transmit(C, e, FRAME_ACCEPT, body.value)
  }

  function Direction(d: Driver): Bytes
  {
    if d.keys.dir == [] then I2R else d.keys.dir
  }

  /** EncodePeerAuth: the proof is sent, then applied to the sender's own session. */
  function TransmitPeerAuth(C: Crypto, d: Driver): Sent
  {
    var proof := MakeAuthProof(C, d.session, d.keys.auth, d.id, Direction(d));
    if d.keys.auth == [] || proof.None? then Sent(d, None)
    else
      var sent := Transmit(C, d, FRAME_PEER_AUTH, EncodePeerAuth(Direction(d), proof.value));
      if sent.raw.None? then sent
      else
        var a := AuthenticateProof(C, d.session, d.keys.auth, d.id, Direction(d), proof.value);
        Sent(sent.d.(session := a.s), if a.error == NoError then sent.raw else None)
  }

  function TransmitArchiveAuth(C: Crypto, d: Driver): Sent
  {
    var proof := MakeArchiveProof(C, d.session, d.keys.archive, d.id);
    if d.keys.archive == [] || proof.None? then Sent(d, None)
    else
      var sent := Transmit(C, d, FRAME_ARCHIVE_AUTH, proof.value);
      if sent.raw.None? then sent
      else
        var a := AuthorizeArchiveProof(C, d.session, d.keys.archive, d.id, proof.value);
        Sent(sent.d.(session := a.s), if a.error == NoError then sent.raw else None)
  }

  function TransmitChunk(C: Crypto, d: Driver, data: Bytes): Sent
  {
    var body := EncodeChunk(d.chunks.nextSend, data);
    if body.None? then Sent(d, None)
    else
      var sent := Transmit(C, d, FRAME_DATA, body.value);
      if sent.raw.None? then sent
      else
        assert ChunkFits(d.chunks.nextSend, data);
        Sent(sent.d.(chunks := sent.d.chunks.(nextSend := d.chunks.nextSend + |data|)), sent.raw)
  }

  function InstallTrafficKey(C: Crypto, d: Driver, root: Bytes): Handled
  {
    var s := d.session;
    if s.phase != Active then Handled(d, BadState)
    else if s.bound.transcript.None? then Handled(d, NoBase)
    else if s.choice.suite == [] then Handled(d, NoSuite)
    else
      var key := TrafficKey(C.hmac, root, C.hash(s.bound.transcript.value), d.id, s.choice.suite);
      if key.None? then Handled(d, NoKey) else Handled(d.(keys := d.keys.(aead := key.value)), NoError)
  }

  /** The handshake code assigns the proof keys between frames. */
  function SetKeys(d: Driver, auth: Bytes, dir: Bytes, archive: Bytes): Driver
  {
    d.(keys := Keys(d.keys.mac, d.keys.aead, auth, dir, archive))
  }

  // ---------- runs ----------

  /** What the network, the application and the handshake code may do to a driver. */
  datatype Event =
    | Arrives(raw: Bytes) | Delivered(f: Frame)
    | Sends(ftype: u16, body: Bytes) | SendsOffer(vers: seq<byte>) | SendsAccept | SendsPeerAuth | SendsArchiveAuth
    | SendsChunk(data: Bytes) | Negotiates | Activates | Installs(root: Bytes)
    | SetsKeys(auth: Bytes, dir: Bytes, archive: Bytes)

  function After(C: Crypto, d: Driver, e: Event): Driver
  {
    match e
    case Arrives(raw) => DecodeAndHandle(C, d, raw).d
    case Delivered(f) => Handle(C, d, f).d
    case Sends(ftype, body) => Transmit(C, d, ftype, body).d
    case SendsOffer(vers) => TransmitOffer(C, d, vers).d
    case SendsAccept => TransmitAccept(C, d).d
    case SendsPeerAuth => TransmitPeerAuth(C, d).d
    case SendsArchiveAuth => TransmitArchiveAuth(C, d).d
    case SendsChunk(data) => TransmitChunk(C, d, data).d
    case Negotiates => d.(session := Negotiate(C.hash, d.session).s)
    case Activates => d.(session := Activate(d.session).s)
    case Installs(root) => InstallTrafficKey(C, d, root).d
    case SetsKeys(auth, dir, archive) => SetKeys(d, auth, dir, archive)
  }

  function Run(C: Crypto, d: Driver, es: seq<Event>): Driver
    decreases |es|
  {
    if es == [] then d else Run(C, After(C, d, es[0]), es[1..])
  }

  // ---------- safety ----------

  lemma AdvancesTwice(s: Session, t: Session, u: Session)
    requires Safe(s, t) && Safe(t, u) && u.received == t.received == s.received
    ensures Safe(s, u)
  {
    hide NotDowngraded;
  }

  lemma OfferSafe(H: Hash, s: Session, o: Offer)
    requires s.phase == New
    ensures Safe(s, Negotiate(H, s.(offer := o)).s)
  {
    hide Highest, Negotiate;
    NegotiateSafe(H, s.(offer := o));
  }

  lemma NegotiateKeepsCount(H: Hash, s: Session, version: byte, suite: Bytes)
    ensures Negotiate(H, s).s.received == s.received
    ensures ConfirmAccept(s, version, suite).s.received == s.received
  {
    hide Highest, FirstCommon, LocalSuites, BoundVersion;
  }

  lemma StaysSafe(s: Session)
    ensures Safe(s, s)
  {
    hide NotDowngraded;
  }

  lemma AcceptSafe(C: Crypto, d: Driver, body: Bytes)
    ensures Safe(d.session, HandleAccept(C, d, body).d.session)
  {
    hide Negotiate, ConfirmAccept, Safe, ParseAccept;
    StaysSafe(d.session);
    var n := if d.session.phase == New then Negotiate(C.hash, d.session) else Step(d.session, NoError);
    NegotiateSafe(C.hash, d.session);
    NegotiateKeepsCount(C.hash, d.session, 0, []);
    if ParseAccept(body).Some? {
      NegotiateKeepsCount(C.hash, n.s, ParseAccept(body).value.0, ParseAccept(body).value.1);
      ConfirmSafe(n.s, ParseAccept(body).value.0, ParseAccept(body).value.1);
      AdvancesTwice(d.session, n.s, ConfirmAccept(n.s, ParseAccept(body).value.0, ParseAccept(body).value.1).s);
    }
  }

  lemma AuthSafe(C: Crypto, d: Driver, body: Bytes)
    ensures Safe(d.session, HandlePeerAuth(C, d, body).d.session)
    ensures Safe(d.session, HandleArchiveAuth(C, d, body).d.session)
  {
    hide Authenticate, AuthenticateProof, AuthorizeArchive, AuthorizeArchiveProof, Safe, ParsePeerAuth;
    StaysSafe(d.session);
    AuthenticateSafe(C.hash, d.session);
    AuthorizeArchiveSafe(d.session);
    AuthorizeSafe(C, d.session, d.keys.archive, d.id, body);
    if ParsePeerAuth(body).Some? {
      AuthenticateProofSafe(C, d.session, d.keys.auth, d.id, ParsePeerAuth(body).value.0, ParsePeerAuth(body).value.1);
    }
  }

  lemma HandleSafe(C: Crypto, d: Driver, f: Frame)
    ensures Safe(d.session, Handle(C, d, f).d.session)
  {
    hide HandleAccept, HandlePeerAuth, HandleArchiveAuth, Negotiate, Activate, AcceptNext, Close, Safe, ParseOffer,
      ParseChunk, OpenBody;
    StaysSafe(d.session);
    NegotiateSafe(C.hash, d.session);
    AcceptSafe(C, d, f.body);
    AuthSafe(C, d, f.body);
    ActivateSafe(d.session);
    ClosingSafe(d.session);
    if d.session.phase == New && ParseOffer(f.body).Some? {
      OfferSafe(C.hash, d.session, Offered(d.session.offer, ParseOffer(f.body).value.0, ParseOffer(f.body).value.1));
    }
  }

  lemma SendSafe(C: Crypto, d: Driver, e: Event)
    requires !e.Arrives? && !e.Delivered?
    ensures Safe(d.session, After(C, d, e).session)
  {
    hide Negotiate, Activate, AuthenticateProof, AuthorizeArchiveProof, MakeAuthProof, MakeArchiveProof, Safe;
    hide SealBody, EncodeFrame, EncodeOffer, EncodeAccept, EncodeChunk, TrafficKey;
    StaysSafe(d.session);
    NegotiateSafe(C.hash, d.session);
    ActivateSafe(d.session);
    var p, q := MakeAuthProof(C, d.session, d.keys.auth, d.id, Direction(d)),
      MakeArchiveProof(C, d.session, d.keys.archive, d.id);
    if p.Some? { AuthenticateProofSafe(C, d.session, d.keys.auth, d.id, Direction(d), p.value); }
    if q.Some? { AuthorizeSafe(C, d.session, d.keys.archive, d.id, q.value); }
  }

  /** One event: forward or to FAILED, never back, and no mutation without both authorizations. */
  lemma AfterSafe(C: Crypto, d: Driver, e: Event)
    ensures Safe(d.session, After(C, d, e).session)
  {
    hide Safe, Handle;
    if e.Arrives? {
      StaysSafe(d.session);
      var f := DecodeFrame(C.hmac, e.raw, d.keys.mac, d.requireMac);
      if f.Some? { HandleSafe(C, d, f.value); }
    } else if e.Delivered? {
      HandleSafe(C, d, e.f);
    } else {
      SendSafe(C, d, e);
    }
  }

  lemma FreshInv(offer: Offer, transcript: Option<Bytes>, id: SessionId, mac: Bytes, requireMac: bool)
    ensures Inv(Fresh(offer, transcript, id, mac, requireMac).session)
  {
  }

  /** Over every run: Invariants hold, the phase only moves forward or to FAILED and FAILED stays. */
  lemma {:induction false} RunIsSafe(C: Crypto, d: Driver, es: seq<Event>)
    requires Inv(d.session)
    ensures Inv(Run(C, d, es).session) && Invariants(Run(C, d, es).session)
    ensures Progressed(d.session, Run(C, d, es).session)
    decreases |es|
  {
    hide After, NotDowngraded;
    if es != [] {
      AfterSafe(C, d, es[0]);
      RunIsSafe(C, After(C, d, es[0]), es[1..]);
    }
  }

  /** A run from a constructor: data is accepted only after both authorizations and within the limit. */
  lemma MutationIsAuthorized(C: Crypto, offer: Offer, transcript: Option<Bytes>, id: SessionId, mac: Bytes,
    requireMac: bool, es: seq<Event>)
    ensures var s := Run(C, Fresh(offer, transcript, id, mac, requireMac), es).session;
            && Invariants(s)
            && s.received <= DEFAULT_MAX_ACCEPT
            && (s.received > 0 ==> s.flags.i2r && s.flags.r2i && s.flags.archive && Rank(s.phase) >= 4)
            && (s.phase == Active || s.phase == Closed ==> Highest(s.offer.versions) == Some(s.choice.version))
  {
    hide Run, Highest;
    FreshInv(offer, transcript, id, mac, requireMac);
    RunIsSafe(C, Fresh(offer, transcript, id, mac, requireMac), es);
  }
}
