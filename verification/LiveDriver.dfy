/**
 The driver object and the two handshake routines, updating fields in place and
 exchanging frames in the source's order.
 */
module LiveDriver {
  import opened Bytes
  import opened JournalPayload
  import opened Transcript
  import opened ProtocolFrame
  import opened FrameBodies
  import opened L = LiveSession
  import S = Session
  import D = Driver
  import H = Handshake

  class LiveDriver {
    const session: LiveSession
    const id: SessionId
    const requireMac: bool
    var send: u64
    var recv: u64
    var keys: D.Keys
    var last: Bytes
    var chunks: D.Chunks

    ghost predicate Valid()
      reads this, session, session.transcript
    {
      session.Valid()
    }

    /** What every operation promises of the session. */
    twostate predicate Kept()
      reads this, session, session.transcript
    {
      Valid() && S.Safe(old(View()).session, View().session)
    }

    function View(): D.Driver
      reads this, session, session.transcript
    {
      D.Driver(session.View(), id, send, recv, keys, requireMac, last, chunks)
    }

    /** NewDriverWithSuites when the session is to have a transcript, NewDriver otherwise. */
    constructor (offer: S.Offer, bound: bool, id: SessionId, mac: Bytes, requireMac: bool)
      ensures View() == D.Fresh(offer, if bound then Some([]) else None, id, mac, requireMac)
      ensures Valid() && fresh(session) && (session.transcript != null ==> fresh(session.transcript))
    {
      session := new LiveSession(offer, bound);
      this.id, this.requireMac, send, recv := id, requireMac, 1, 1;
      keys, last, chunks := D.Keys(mac, [], [], [], []), [], D.Chunks(false, 0, 0);
    }

    method HandleOffer(C: Crypto, body: Bytes) returns (e: S.Error)
      requires Valid()
      modifies session, session.transcript
      ensures D.Handled(View(), e) == D.HandleOffer(C, old(View()), body)
      ensures Valid()
    {
      hide S.Negotiate, ParseOffer;
      if session.phase != S.New { return S.NoError; }
      if |body| > 0 {
        var offer := ParseNegotiateOfferBody(body);
        if offer.None? { return S.BadBody; }
        session.offer := D.Offered(session.offer, offer.value.0, offer.value.1);
      }
      e := session.Negotiate(C.hash);
    }

    method HandleAccept(C: Crypto, body: Bytes) returns (e: S.Error)
      requires Valid()
      modifies session, session.transcript
      ensures D.Handled(View(), e) == D.HandleAccept(C, old(View()), body)
      ensures Valid()
    {
      hide S.Negotiate, S.ConfirmAccept, ParseAccept;
      var accept := ParseAccept(body);
      if |body| > 0 && accept.None? { return S.BadBody; }
      if session.phase == S.New {
        e := session.Negotiate(C.hash);
        if e != S.NoError { return; }
      }
      if |body| > 0 {
        e := session.ConfirmAccept(accept.value.0, accept.value.1);
        return;
      }
      return S.NoError;
    }

    method HandleAuth(C: Crypto, ftype: u16, body: Bytes) returns (e: S.Error)
      requires ftype == FRAME_PEER_AUTH || ftype == FRAME_ARCHIVE_AUTH
      requires Valid()
      modifies session, session.transcript
      ensures ftype == FRAME_PEER_AUTH ==> D.Handled(View(), e) == D.HandlePeerAuth(C, old(View()), body)
      ensures ftype == FRAME_ARCHIVE_AUTH ==> D.Handled(View(), e) == D.HandleArchiveAuth(C, old(View()), body)
      ensures Valid()
    {
      hide S.Authenticate, S.AuthenticateProof, S.AuthorizeArchive, S.AuthorizeArchiveProof, ParsePeerAuth;
      if ftype == FRAME_PEER_AUTH {
        if |keys.auth| > 0 {
          var p := ParsePeerAuth(body);
          if p.None? { return S.BadBody; }
          e := session.AuthenticateProof(C, keys.auth, id, p.value.0, p.value.1);
        } else {
          e := session.Authenticate(C.hash);
        }
      } else if |keys.archive| > 0 {
        e := session.AuthorizeArchiveProof(C, keys.archive, id, body);
      } else {
        e := session.AuthorizeArchive();
      }
    }

    method HandleData(C: Crypto, f: Frame) returns (e: S.Error)
      requires Valid()
      modifies this`last, this`chunks, session, session.transcript
      ensures D.Handled(View(), e) == D.HandleData(C, old(View()), f)
      ensures Valid()
    {
      hide ParseChunk, D.DataAad, S.AcceptNext;
      var body := f.body;
      if |keys.aead| > 0 {
        if |keys.aead| != D.AEAD_KEY { return S.Unopened; }
        var plain := C.open(keys.aead, f.sequence, D.DataAad(id, f.sequence), f.body);
        if plain.None? { return S.Unopened; }
        body := plain.value;
      }
      if chunks.track {
        var c := ParseChunk(body);
        if c.None? { return S.BadBody; }
        if c.value.0 != chunks.nextData { return S.BadChunk; }
        ChunkInRange(body);
        last := c.value.1;
        chunks := chunks.(nextData := c.value.0 + |c.value.1|);
      } else {
        last := body;
      }
      e := session.AcceptNext();
    }

    static lemma ChunkInRange(body: Bytes)
      requires ParseChunk(body).Some?
      ensures ChunkFits(ParseChunk(body).value.0, ParseChunk(body).value.1)
    {
    }

    /** Handle: the checks, the switch, and the receive sequence. */
    method Handle(C: Crypto, f: Frame) returns (e: S.Error)
      requires Valid()
      modifies this`recv, this`last, this`chunks, session, session.transcript
      ensures D.Handled(View(), e) == D.Handle(C, old(View()), f)
      ensures Kept()
    {
      hide D.HandleOffer, D.HandleAccept, D.HandlePeerAuth, D.HandleArchiveAuth, D.HandleData, S.Activate, S.Close,
        S.Safe;
      D.HandleSafe(C, View(), f);
      if f.session != id { return S.WrongSession; }
      if f.sequence != recv { return S.WrongSequence; }
      if !Known(f.ftype) { return S.UnknownType; }
      if f.ftype == FRAME_OFFER { e := HandleOffer(C, f.body); }
      else if f.ftype == FRAME_ACCEPT { e := HandleAccept(C, f.body); }
      else if f.ftype == FRAME_PEER_AUTH || f.ftype == FRAME_ARCHIVE_AUTH { e := HandleAuth(C, f.ftype, f.body); }
      else if f.ftype == FRAME_ACTIVATE { e := session.Activate(); }
      else if f.ftype == FRAME_DATA { e := HandleData(C, f); }
      else if f.ftype == FRAME_CLOSE { e := session.Close(); }
      else {
        session.phase := S.Failed;
        return S.PeerFailed;
      }
      if e != S.NoError { return; }
      recv := D.Next(recv);
    }

    method DecodeAndHandle(C: Crypto, raw: Bytes) returns (e: S.Error)
      requires Valid()
      modifies this`recv, this`last, this`chunks, session, session.transcript
      ensures D.Handled(View(), e) == D.DecodeAndHandle(C, old(View()), raw)
      ensures Kept()
    {
      hide D.Handle, DecodeFrame, S.Safe;
      D.AfterSafe(C, View(), D.Arrives(raw));
      var f := DecodeFrame(C.hmac, raw, keys.mac, requireMac);
      if f.None? { return S.BadBody; }
      e := Handle(C, f.value);
    }

    /** EncodeFrame: the send sequence advances on success. */
    method Transmit(C: Crypto, ftype: u16, body: Bytes) returns (raw: Option<Bytes>)
      modifies this`send
      ensures D.Sent(View(), raw) == D.Transmit(C, old(View()), ftype, body)
    {
      hide EncodeFrame, D.DataAad;
      var b := body;
      if ftype == FRAME_DATA && |keys.aead| > 0 {
        if |keys.aead| != D.AEAD_KEY || |body| > D.MAX_PLAINTEXT { return None; }
        b := C.seal(keys.aead, send, D.DataAad(id, send), body);
      }
      var flags: u16 := 0;
      if requireMac || |keys.mac| > 0 { flags := REQUIRES_MAC; }
      raw := EncodeFrame(C.hmac, Frame(ftype, flags, id, send, b), keys.mac);
      if raw.Some? { send := D.Next(send); }
    }

    method EncodeNegotiateOffer(C: Crypto, vers: seq<byte>) returns (raw: Option<Bytes>)
      modifies this`send
      ensures D.Sent(View(), raw) == D.TransmitOffer(C, old(View()), vers)
    {
      hide D.Transmit, EncodeOffer, SuiteAead;
      var suites := session.offer.suites;
      if |suites| == 0 { suites := S.LocalSuites(); }
      var body := EncodeNegotiateOfferBody(vers, suites);
      if body.None? { return None; }
      raw := Transmit(C, FRAME_OFFER, body.value);
    }

    method EncodeNegotiateAccept(C: Crypto) returns (raw: Option<Bytes>)
      requires Valid()
      modifies this`send, session, session.transcript
      ensures D.Sent(View(), raw) == D.TransmitAccept(C, old(View()))
      ensures Kept()
    {
      hide D.Transmit, EncodeAccept, S.Negotiate, S.Safe;
      D.AfterSafe(C, View(), D.SendsAccept);
      if session.phase == S.New {
        var e := session.Negotiate(C.hash);
        if e != S.NoError { return None; }
      }
      if session.phase != S.Negotiated { return None; }
      var body := EncodeAccept(session.choice.version, session.choice.suite);
      if body.None? { return None; }
      raw := Transmit(C, FRAME_ACCEPT, body.value);
    }

    /** EncodePeerAuth: send the proof, then apply it here too. */
    method SendPeerAuth(C: Crypto) returns (raw: Option<Bytes>)
      requires Valid()
      modifies this`send, session, session.transcript
      ensures D.Sent(View(), raw) == D.TransmitPeerAuth(C, old(View()))
      ensures Kept()
    {
      hide D.Transmit, S.MakeAuthProof, S.AuthenticateProof, S.Safe;
      D.AfterSafe(C, View(), D.SendsPeerAuth);
      if |keys.auth| == 0 { return None; }
      var dir := keys.dir;
      if dir == [] { dir := I2R; }
      var proof := S.MakeAuthProof(C, session.View(), keys.auth, id, dir);
      if proof.None? { return None; }
      raw := Transmit(C, FRAME_PEER_AUTH, EncodePeerAuth(dir, proof.value));
      if raw.None? { return None; }
      var e := session.AuthenticateProof(C, keys.auth, id, dir, proof.value);
      if e != S.NoError { return None; }
    }

    method SendArchiveAuth(C: Crypto) returns (raw: Option<Bytes>)
      requires Valid()
      modifies this`send, session, session.transcript
      ensures D.Sent(View(), raw) == D.TransmitArchiveAuth(C, old(View()))
      ensures Kept()
    {
      hide D.Transmit, S.MakeArchiveProof, S.AuthorizeArchiveProof, S.Safe;
      D.AfterSafe(C, View(), D.SendsArchiveAuth);
      if |keys.archive| == 0 { return None; }
      var proof := S.MakeArchiveProof(C, session.View(), keys.archive, id);
      if proof.None? { return None; }
      raw := Transmit(C, FRAME_ARCHIVE_AUTH, proof.value);
      if raw.None? { return None; }
      var e := session.AuthorizeArchiveProof(C, keys.archive, id, proof.value);
      if e != S.NoError { return None; }
    }

    method EncodeDataChunk(C: Crypto, data: Bytes) returns (raw: Option<Bytes>)
      modifies this`send, this`chunks
      ensures D.Sent(View(), raw) == D.TransmitChunk(C, old(View()), data)
    {
      hide D.Transmit;
      var body := EncodeChunk(chunks.nextSend, data);
      if body.None? { return None; }
      raw := Transmit(C, FRAME_DATA, body.value);
      if raw.None? { return None; }
      chunks := chunks.(nextSend := chunks.nextSend + |data|);
    }

    method InstallTrafficKey(C: Crypto, root: Bytes) returns (e: S.Error)
      modifies this`keys
      ensures D.Handled(View(), e) == D.InstallTrafficKey(C, old(View()), root)
    {
      hide TrafficKey;
      if session.phase != S.Active { return S.BadState; }
      if session.transcript == null { return S.NoBase; }
      if session.choice.suite == [] { return S.NoSuite; }
      var key := TrafficKey(C.hmac, root, C.hash(session.transcript.fed), id, session.choice.suite);
      if key.None? { return S.NoKey; }
      keys := keys.(aead := key.value);
      return S.NoError;
    }

    method SetKeys(C: Crypto, root: Bytes, dir: Bytes)
      modifies this`keys
      ensures View() == H.WithKeys(C, old(View()), root, dir)
    {
      keys := D.Keys(keys.mac, keys.aead, PeerAuthKey(C.hmac, root, id), dir, ArchiveAuthKey(C.hmac, root, id));
    }
  }

  // ---------- the handshake ----------

  /** Two ends that share nothing. */
  ghost predicate Apart(a: LiveDriver, b: LiveDriver)
  {
    && a != b && a.session != b.session
    && a.session.transcript != null && b.session.transcript != null && a.session.transcript != b.session.transcript
  }

  /** a and everything it holds is new. */
  twostate predicate Made(new a: LiveDriver)
  {
    fresh(a) && fresh(a.session) && a.session.transcript != null && fresh(a.session.transcript)
  }

  ghost function Both(a: LiveDriver, b: LiveDriver): H.Pair
    reads a, b, a.session, b.session, a.session.transcript, b.session.transcript
  {
    H.Pair(a.View(), b.View())
  }

  /** The offer: dial, negotiate locally, send; the server builds its driver from the frame. */
  method ExchangeOffer(C: Crypto, mac: Bytes, id: SessionId, vers: seq<byte>, suites: seq<Bytes>)
    returns (ok: bool, a: LiveDriver, b: LiveDriver)
    ensures Apart(a, b) && a.Valid() && b.Valid() && Made(a) && Made(b)
    ensures ok <==> H.OfferStage(C, mac, id, vers, suites).Some?
    ensures ok ==> Both(a, b) == H.OfferStage(C, mac, id, vers, suites).value
  {
    hide S.Negotiate, D.TransmitOffer, D.Handle, DecodeFrame, SuiteAead;
    a := new LiveDriver(S.Offer(vers, suites, true), true, id, mac, true);
    b := new LiveDriver(S.Offer(H.OFFERED_VERSIONS, S.LocalSuites(), true), true, id, mac, true);
    var e := a.session.Negotiate(C.hash);
    if e != S.NoError { return false, a, b; }
    var raw := a.EncodeNegotiateOffer(C, vers);
    if raw.None? { return false, a, b; }
    var f := DecodeFrame(C.hmac, raw.value, mac, true);
    if f.None? { return false, a, b; }
    b := new LiveDriver(S.Offer(H.OFFERED_VERSIONS, S.LocalSuites(), true), true, f.value.session, mac, true);
    e := b.Handle(C, f.value);
    return e == S.NoError, a, b;
  }

  /** The accept, back to the dialer. */
  method ExchangeAccept(C: Crypto, a: LiveDriver, b: LiveDriver) returns (ok: bool)
    requires Apart(a, b) && a.Valid() && b.Valid()
    modifies a, b, a.session, b.session, a.session.transcript, b.session.transcript
    ensures a.Valid() && b.Valid()
    ensures ok <==> H.AcceptStage(C, old(Both(a, b))).Some?
    ensures ok ==> Both(a, b) == H.AcceptStage(C, old(Both(a, b))).value
  {
    hide D.TransmitAccept, D.DecodeAndHandle;
    var raw := b.EncodeNegotiateAccept(C);
    if raw.None? { return false; }
    var e := a.DecodeAndHandle(C, raw.value);
    return e == S.NoError;
  }

  /** The proofs: initiator first, then responder. */
  method ExchangeProofs(C: Crypto, a: LiveDriver, b: LiveDriver) returns (ok: bool)
    requires Apart(a, b) && a.Valid() && b.Valid()
    modifies a, b, a.session, b.session, a.session.transcript, b.session.transcript
    ensures a.Valid() && b.Valid()
    ensures ok <==> H.ProofStage(C, old(Both(a, b))).Some?
    ensures ok ==> Both(a, b) == H.ProofStage(C, old(Both(a, b))).value
  {
    hide D.TransmitPeerAuth, D.DecodeAndHandle;
    var raw := a.SendPeerAuth(C);
    if raw.None? { return false; }
    var e := b.DecodeAndHandle(C, raw.value);
    if e != S.NoError { return false; }
    raw := b.SendPeerAuth(C);
    if raw.None? { return false; }
    e := a.DecodeAndHandle(C, raw.value);
    return e == S.NoError;
  }

  method ExchangeArchive(C: Crypto, a: LiveDriver, b: LiveDriver) returns (ok: bool)
    requires Apart(a, b) && a.Valid() && b.Valid()
    modifies a, b, a.session, b.session, a.session.transcript, b.session.transcript
    ensures a.Valid() && b.Valid()
    ensures ok <==> H.ArchiveStage(C, old(Both(a, b))).Some?
    ensures ok ==> Both(a, b) == H.ArchiveStage(C, old(Both(a, b))).value
  {
    hide D.TransmitArchiveAuth, D.DecodeAndHandle;
    var raw := a.SendArchiveAuth(C);
    if raw.None? { return false; }
    var e := b.DecodeAndHandle(C, raw.value);
    return e == S.NoError;
  }

  method ExchangeActivate(C: Crypto, a: LiveDriver, b: LiveDriver) returns (ok: bool)
    requires Apart(a, b) && a.Valid() && b.Valid()
    modifies a, b, a.session, b.session, a.session.transcript, b.session.transcript
    ensures a.Valid() && b.Valid()
    ensures ok <==> H.ActivateStage(C, old(Both(a, b))).Some?
    ensures ok ==> Both(a, b) == H.ActivateStage(C, old(Both(a, b))).value
  {
    hide S.Activate, D.Transmit, D.DecodeAndHandle;
    var e := a.session.Activate();
    if e != S.NoError { return false; }
    var raw := a.Transmit(C, FRAME_ACTIVATE, []);
    if raw.None? { return false; }
    e := b.DecodeAndHandle(C, raw.value);
    return e == S.NoError;
  }

  method InstallBoth(C: Crypto, root: Bytes, a: LiveDriver, b: LiveDriver) returns (ok: bool)
    requires Apart(a, b) && a.Valid() && b.Valid()
    modifies a, b
    ensures a.Valid() && b.Valid()
    ensures ok <==> H.TrafficStage(C, old(Both(a, b)), root).Some?
    ensures ok ==> Both(a, b) == H.TrafficStage(C, old(Both(a, b)), root).value
  {
    hide D.InstallTrafficKey;
    var e := a.InstallTrafficKey(C, root);
    var f := b.InstallTrafficKey(C, root);
    return e == S.NoError && f == S.NoError;
  }

  method ExchangeNegotiation(C: Crypto, root: Bytes, peer: Bytes, id: SessionId, vers: seq<byte>, suites: seq<Bytes>)
    returns (ok: bool, a: LiveDriver, b: LiveDriver)
    ensures Apart(a, b) && a.Valid() && b.Valid() && Made(a) && Made(b)
    ensures ok <==> H.Negotiation(C, root, peer, id, vers, suites).Some?
    ensures ok ==> Both(a, b) == H.Negotiation(C, root, peer, id, vers, suites).value
  {
    hide H.OfferStage, H.AcceptStage, H.MacKey;
    ok, a, b := ExchangeOffer(C, H.MacKey(C.hmac, root, peer), id, vers, suites);
    if ok {
      ok := ExchangeAccept(C, a, b);
    }
  }

  method ExchangeAuthentication(C: Crypto, a: LiveDriver, b: LiveDriver) returns (ok: bool)
    requires Apart(a, b) && a.Valid() && b.Valid()
    modifies a, b, a.session, b.session, a.session.transcript, b.session.transcript
    ensures a.Valid() && b.Valid()
    ensures ok <==> H.Authentication(C, old(Both(a, b))).Some?
    ensures ok ==> Both(a, b) == H.Authentication(C, old(Both(a, b))).value
  {
    hide H.ProofStage, H.ArchiveStage;
    ok := ExchangeProofs(C, a, b);
    if ok {
      ok := ExchangeArchive(C, a, b);
    }
  }

  method ExchangeActivation(C: Crypto, root: Bytes, a: LiveDriver, b: LiveDriver) returns (ok: bool)
    requires Apart(a, b) && a.Valid() && b.Valid()
    modifies a, b, a.session, b.session, a.session.transcript, b.session.transcript
    ensures a.Valid() && b.Valid()
    ensures ok <==> H.Activation(C, old(Both(a, b)), root).Some?
    ensures ok ==> Both(a, b) == H.Activation(C, old(Both(a, b)), root).value
  {
    hide H.ActivateStage, H.TrafficStage;
    ok := ExchangeActivate(C, a, b);
    if ok {
      ok := InstallBoth(C, root, a, b);
    }
  }

  /** DialHandshake against acceptHandshake: both ends exist exactly for an agreeable offer, and then they agree. */
  method RunHandshake(C: Crypto, root: Bytes, peer: Bytes, id: SessionId, vers: seq<byte>, suites: seq<Bytes>)
    returns (r: Option<(LiveDriver, LiveDriver)>)
    ensures r.Some? <==> |root| == H.ROOT_KEY && H.Agreeable(vers, suites)
    ensures r.Some? ==> H.Agreed(Both(r.value.0, r.value.1), vers, suites)
  {
    hide H.Negotiation, H.Authentication, H.Activation, H.WithKeys, H.Agreeable, H.Agreed;
    if |root| != H.ROOT_KEY { return None; }
    H.HandshakeAgrees(C, root, peer, id, vers, suites);
    var ok, a, b := ExchangeNegotiation(C, root, peer, id, vers, suites);
    if !ok { return None; }
    a.SetKeys(C, root, I2R);
    b.SetKeys(C, root, R2I);
    ok := ExchangeAuthentication(C, a, b);
    if !ok { return None; }
    ok := ExchangeActivation(C, root, a, b);
    if !ok { return None; }
    return Some((a, b));
  }
}
