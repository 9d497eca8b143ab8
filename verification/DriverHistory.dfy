/**
 What a driver's state says about the frames that led to it: which were accepted and in
 what order, and which proofs were shown before anything was authorized.
 */
module DriverHistory {
  import opened Bytes
  import opened JournalPayload
  import opened Transcript
  import opened S = Session
  import opened ProtocolFrame
  import opened FrameBodies
  import opened D = Driver

  // ---------- what never changes ----------

  /** The fields no event touches. */
  predicate SameEnd(d: Driver, e: Driver)
  {
    e.id == d.id && e.requireMac == d.requireMac && e.keys.mac == d.keys.mac
  }

  predicate KeepsEnd(d: Driver, h: Handled)
  {
    SameEnd(d, h.d) && h.d.recv == d.recv
  }

  lemma NegotiationKeeps(C: Crypto, d: Driver, body: Bytes)
    ensures KeepsEnd(d, HandleOffer(C, d, body)) && KeepsEnd(d, HandleAccept(C, d, body))
  {
    hide Negotiate, ConfirmAccept, ParseOffer, ParseAccept;
  }

  lemma AuthKeeps(C: Crypto, d: Driver, body: Bytes)
    ensures KeepsEnd(d, HandlePeerAuth(C, d, body)) && KeepsEnd(d, HandleArchiveAuth(C, d, body))
  {
    hide Authenticate, AuthenticateProof, AuthorizeArchive, AuthorizeArchiveProof, ParsePeerAuth;
  }

  lemma DataKeeps(C: Crypto, d: Driver, f: Frame)
    ensures KeepsEnd(d, HandleData(C, d, f))
  {
    hide AcceptNext, ParseChunk, OpenBody;
  }

  lemma StepKeeps(d: Driver, s: Step)
    ensures KeepsEnd(d, On(d, s))
  {
  }

  lemma DispatchKeeps(C: Crypto, d: Driver, f: Frame)
    ensures KeepsEnd(d, Dispatch(C, d, f))
  {
    hide HandleOffer, HandleAccept, HandlePeerAuth, HandleArchiveAuth, HandleData, On, Activate, Close, Fail;
    NegotiationKeeps(C, d, f.body);
    AuthKeeps(C, d, f.body);
    DataKeeps(C, d, f);
    StepKeeps(d, Activate(d.session));
    StepKeeps(d, Close(d.session));
    StepKeeps(d, Fail(d.session, PeerFailed));
  }

  lemma HandleKeeps(C: Crypto, d: Driver, f: Frame)
    ensures SameEnd(d, Handle(C, d, f).d)
    ensures Handle(C, d, f).d.recv == if Handle(C, d, f).error == NoError then Next(d.recv) else d.recv
  {
    hide Dispatch;
    DispatchKeeps(C, d, f);
  }

  lemma AfterKeeps(C: Crypto, d: Driver, e: Event)
    ensures SameEnd(d, After(C, d, e))
    ensures !e.Arrives? && !e.Delivered? ==> After(C, d, e).recv == d.recv
  {
    hide Handle, Negotiate, AuthenticateProof, AuthorizeArchiveProof, Activate, MakeAuthProof, MakeArchiveProof;
    hide SealBody, EncodeFrame, EncodeOffer, EncodeAccept, EncodeChunk, TrafficKey;
    if e.Arrives? {
      var f := DecodeFrame(C.hmac, e.raw, d.keys.mac, d.requireMac);
      if f.Some? { HandleKeeps(C, d, f.value); }
    } else if e.Delivered? {
      HandleKeeps(C, d, e.f);
    }
  }

  // ---------- frames are accepted in order ----------

  /** The frame an event presents to Handle, if any. */
  function Presented(C: Crypto, d: Driver, e: Event): Option<Frame>
  {
    match e
    case Arrives(raw) => DecodeFrame(C.hmac, raw, d.keys.mac, d.requireMac)
    case Delivered(f) => Some(f)
    case _ => None
  }

  function Took(C: Crypto, d: Driver, e: Event): seq<Frame>
  {
    var f := Presented(C, d, e);
    if f.Some? && Handle(C, d, f.value).error == NoError then [f.value] else []
  }

  function Accepted(C: Crypto, d: Driver, es: seq<Event>): seq<Frame>
    decreases |es|
  {
    if es == [] then [] else Took(C, d, es[0]) + Accepted(C, After(C, d, es[0]), es[1..])
  }

  lemma TookNext(C: Crypto, d: Driver, e: Event)
    ensures var fs := Took(C, d, e);
            && After(C, d, e).recv == (if fs == [] then d.recv else Next(d.recv))
            && (fs != [] ==> |fs| == 1 && fs[0].sequence == d.recv && fs[0].session == d.id)
  {
    hide Dispatch, DecodeFrame;
    AfterKeeps(C, d, e);
    var f := Presented(C, d, e);
    if f.Some? { HandleKeeps(C, d, f.value); }
  }

  /** No replay, gap or reordering: the accepted frames carry consecutive sequences for this session. */
  lemma {:induction false} AcceptedInOrder(C: Crypto, d: Driver, es: seq<Event>)
    requires d.recv + |Accepted(C, d, es)| < 0x1_0000_0000_0000_0000
    ensures var fs := Accepted(C, d, es);
            && Run(C, d, es).recv == d.recv + |fs|
            && forall k | 0 <= k < |fs| :: fs[k].sequence == d.recv + k && fs[k].session == d.id
    decreases |es|
  {
    hide Took, After;
    if es != [] {
      var e := After(C, d, es[0]);
      TookNext(C, d, es[0]);
      AfterKeeps(C, d, es[0]);
      AcceptedInOrder(C, e, es[1..]);
      var fs, first, rest := Accepted(C, d, es), Took(C, d, es[0]), Accepted(C, e, es[1..]);
      forall k | 0 <= k < |fs|
        ensures fs[k].sequence == d.recv + k && fs[k].session == d.id
      {
        assert fs[k] == if k < |first| then first[k] else rest[k - |first|];
      }
    }
  }

  function DataFrames(fs: seq<Frame>): nat
  {
    if fs == [] then 0 else (if fs[0].ftype == FRAME_DATA then 1 else 0) + DataFrames(fs[1..])
  }

  lemma {:induction false} DataFramesAppend(fs: seq<Frame>, gs: seq<Frame>)
    ensures DataFrames(fs + gs) == DataFrames(fs) + DataFrames(gs)
  {
    if fs == [] {
      assert fs + gs == gs;
    } else {
      DataFramesAppend(fs[1..], gs);
      assert (fs + gs)[1..] == fs[1..] + gs;
    }
  }

  predicate IsData(f: Frame, error: Error)
  {
    error == NoError && f.ftype == FRAME_DATA
  }

  lemma AcceptMarks(C: Crypto, d: Driver, body: Bytes)
    ensures SameMarks(d.session, HandleAccept(C, d, body).d.session)
  {
    hide Negotiate, ConfirmAccept, ParseAccept;
    NegotiateMarks(C.hash, d.session, 0, []);
    var n := if d.session.phase == New then Negotiate(C.hash, d.session) else Step(d.session, NoError);
    if ParseAccept(body).Some? {
      NegotiateMarks(C.hash, n.s, ParseAccept(body).value.0, ParseAccept(body).value.1);
    }
  }

  lemma OfferMarks(C: Crypto, d: Driver, body: Bytes)
    ensures SameMarks(d.session, HandleOffer(C, d, body).d.session)
  {
    hide Negotiate, ParseOffer;
    NegotiateMarks(C.hash, d.session, 0, []);
    if ParseOffer(body).Some? {
      var o := ParseOffer(body).value;
      NegotiateMarks(C.hash, d.session.(offer := Offered(d.session.offer, o.0, o.1)), 0, []);
    }
  }

  lemma PeerAuthMarks(C: Crypto, d: Driver, body: Bytes)
    ensures var t := HandlePeerAuth(C, d, body).d.session;
      SameArchiveMark(d.session, t) && t.received == d.session.received
    ensures var t := HandleArchiveAuth(C, d, body).d.session;
      SamePeerMarks(d.session, t) && t.received == d.session.received
  {
    hide Authenticate, AuthenticateProof, AuthorizeArchive, AuthorizeArchiveProof, ParsePeerAuth;
    AuthMarks(C, d.session, d.keys.archive, d.id, [], body);
    if ParsePeerAuth(body).Some? {
      AuthMarks(C, d.session, d.keys.auth, d.id, ParsePeerAuth(body).value.0, ParsePeerAuth(body).value.1);
    }
  }

  lemma DataMarks(C: Crypto, d: Driver, f: Frame)
    ensures var h := HandleData(C, d, f);
            && SamePeerMarks(d.session, h.d.session) && SameArchiveMark(d.session, h.d.session)
            && h.d.session.received == d.session.received + if h.error == NoError then 1 else 0
  {
    hide AcceptNext, OpenBody, ParseChunk;
    ClosingMarks(d.session);
  }

  /** Which frames can set which marks. */
  predicate Marked(f: Frame, s: Session, h: Handled)
  {
    && (f.ftype != FRAME_PEER_AUTH ==> SamePeerMarks(s, h.d.session))
    && (f.ftype != FRAME_ARCHIVE_AUTH ==> SameArchiveMark(s, h.d.session))
    && h.d.session.received == s.received + if IsData(f, h.error) then 1 else 0
  }

  lemma ControlMarks(C: Crypto, d: Driver, f: Frame)
    ensures f.ftype == FRAME_OFFER ==> Marked(f, d.session, HandleOffer(C, d, f.body))
    ensures f.ftype == FRAME_ACCEPT ==> Marked(f, d.session, HandleAccept(C, d, f.body))
    ensures f.ftype == FRAME_PEER_AUTH ==> Marked(f, d.session, HandlePeerAuth(C, d, f.body))
    ensures f.ftype == FRAME_ARCHIVE_AUTH ==> Marked(f, d.session, HandleArchiveAuth(C, d, f.body))
    ensures f.ftype == FRAME_DATA ==> Marked(f, d.session, HandleData(C, d, f))
  {
    hide HandleOffer, HandleAccept, HandlePeerAuth, HandleArchiveAuth, HandleData;
    OfferMarks(C, d, f.body);
    AcceptMarks(C, d, f.body);
    PeerAuthMarks(C, d, f.body);
    DataMarks(C, d, f);
  }

  lemma PhaseMarks(d: Driver, f: Frame)
    requires f.ftype != FRAME_DATA
    ensures Marked(f, d.session, On(d, Activate(d.session))) && Marked(f, d.session, On(d, Close(d.session)))
    ensures Marked(f, d.session, On(d, Fail(d.session, PeerFailed))) && Marked(f, d.session, Handled(d, UnknownType))
  {
    hide Activate, Close;
    ClosingMarks(d.session);
  }

  lemma DispatchMarks(C: Crypto, d: Driver, f: Frame)
    ensures Marked(f, d.session, Dispatch(C, d, f))
  {
    hide HandleOffer, HandleAccept, HandlePeerAuth, HandleArchiveAuth, HandleData, On, Fail, Activate, Close, Marked;
    ControlMarks(C, d, f);
    if f.ftype != FRAME_DATA { PhaseMarks(d, f); }
  }

  lemma HandleMarks(C: Crypto, d: Driver, f: Frame)
    ensures Marked(f, d.session, Handle(C, d, f))
  {
    hide Dispatch;
    DispatchMarks(C, d, f);
  }

  lemma TransmitKeeps(C: Crypto, d: Driver, ftype: u16, body: Bytes)
    ensures Transmit(C, d, ftype, body).d.session == d.session
  {
    hide SealBody, EncodeFrame;
  }

  lemma ProofSendMarks(C: Crypto, d: Driver)
    ensures var t := TransmitPeerAuth(C, d).d.session; SameArchiveMark(d.session, t) && t.received == d.session.received
    ensures var t := TransmitArchiveAuth(C, d).d.session;
      SamePeerMarks(d.session, t) && t.received == d.session.received
  {
    hide AuthenticateProof, AuthorizeArchiveProof, MakeAuthProof, MakeArchiveProof, Transmit;
    var p, q := MakeAuthProof(C, d.session, d.keys.auth, d.id, Direction(d)),
      MakeArchiveProof(C, d.session, d.keys.archive, d.id);
    if p.Some? {
      AuthMarks(C, d.session, d.keys.auth, d.id, Direction(d), p.value);
      TransmitKeeps(C, d, FRAME_PEER_AUTH, EncodePeerAuth(Direction(d), p.value));
    }
    if q.Some? {
      AuthMarks(C, d.session, d.keys.archive, d.id, [], q.value);
      TransmitKeeps(C, d, FRAME_ARCHIVE_AUTH, q.value);
    }
  }

  lemma AcceptSendMarks(C: Crypto, d: Driver)
    ensures SameMarks(d.session, TransmitAccept(C, d).d.session)
  {
    hide Negotiate, EncodeAccept, Transmit;
    NegotiateMarks(C.hash, d.session, 0, []);
    var n := if d.session.phase == New then Negotiate(C.hash, d.session) else Step(d.session, NoError);
    var body := EncodeAccept(n.s.choice.version, n.s.choice.suite);
    if body.Some? { TransmitKeeps(C, d.(session := n.s), FRAME_ACCEPT, body.value); }
  }

  lemma PlainSends(C: Crypto, d: Driver, e: Event)
    requires e.Sends? || e.SendsOffer? || e.SendsChunk? || e.Installs? || e.SetsKeys?
    ensures After(C, d, e).session == d.session
  {
    hide SealBody, EncodeFrame, EncodeOffer, EncodeChunk, TrafficKey;
  }

  /** Sending sets a peer mark only by SendsPeerAuth and the archive mark only by SendsArchiveAuth. */
  lemma SendMarks(C: Crypto, d: Driver, e: Event)
    requires !e.Arrives? && !e.Delivered?
    ensures var t := After(C, d, e).session;
            && (!e.SendsPeerAuth? ==> SamePeerMarks(d.session, t))
            && (!e.SendsArchiveAuth? ==> SameArchiveMark(d.session, t))
            && t.received == d.session.received
  {
    hide Negotiate, Activate, TransmitPeerAuth, TransmitArchiveAuth, TransmitAccept;
    if e.SendsPeerAuth? || e.SendsArchiveAuth? {
      ProofSendMarks(C, d);
    } else if e.SendsAccept? {
      AcceptSendMarks(C, d);
    } else if e.Negotiates? || e.Activates? {
      NegotiateMarks(C.hash, d.session, 0, []);
      ClosingMarks(d.session);
    } else {
      PlainSends(C, d, e);
    }
  }

  lemma TookCounts(C: Crypto, d: Driver, e: Event)
    ensures After(C, d, e).session.received == d.session.received + DataFrames(Took(C, d, e))
  {
    hide Handle, DecodeFrame;
    var f := Presented(C, d, e);
    if f.Some? {
      HandleMarks(C, d, f.value);
      assert [f.value][1..] == [];
    } else if !e.Arrives? {
      SendMarks(C, d, e);
    }
  }

  /** The session counts exactly the data frames it accepted, and stays within its limit. */
  lemma {:induction false} DataIsCounted(C: Crypto, d: Driver, es: seq<Event>)
    requires Inv(d.session)
    ensures Run(C, d, es).session.received == d.session.received +
      DataFrames(Accepted(C, d, es)) <= AcceptLimit(d.session)
    decreases |es|
  {
    hide Took, After, NotDowngraded;
    if es != [] {
      var e := After(C, d, es[0]);
      TookCounts(C, d, es[0]);
      AfterSafe(C, d, es[0]);
      DataIsCounted(C, e, es[1..]);
      DataFramesAppend(Took(C, d, es[0]), Accepted(C, e, es[1..]));
    }
  }

  // ---------- proofs ----------

  /** A frame of this type is presented. */
  predicate Presents(C: Crypto, d: Driver, e: Event, ftype: u16)
  {
    Presented(C, d, e).Some? && Presented(C, d, e).value.ftype == ftype
  }

  /** Whenever a proof frame comes in, the key to check it with has been set. */
  predicate KeysFirst(C: Crypto, d: Driver, es: seq<Event>)
    decreases |es|
  {
    es == [] ||
    (&& (Presents(C, d, es[0], FRAME_PEER_AUTH) ==> d.keys.auth != [])
     && (Presents(C, d, es[0], FRAME_ARCHIVE_AUTH) ==> d.keys.archive != [])
     && KeysFirst(C, After(C, d, es[0]), es[1..]))
  }

  /** The driver when event k comes. */
  function At(C: Crypto, d: Driver, es: seq<Event>, k: nat): Driver
    requires k <= |es|
  {
    Run(C, d, es[..k])
  }

  lemma AtLater(C: Crypto, d: Driver, es: seq<Event>, k: nat)
    requires k < |es|
    ensures At(C, d, es, k + 1) == At(C, After(C, d, es[0]), es[1..], k)
  {
    assert es[..k + 1][1..] == es[1..][..k];
  }

  /** f is dir's peer proof under d's key, over base. */
  predicate IsPeerProof(C: Crypto, d: Driver, f: Frame, dir: Bytes, base: Digest)
  {
    f.ftype == FRAME_PEER_AUTH && f.body == dir + C.hmac(d.keys.auth, PeerMessage(d.id, base, dir))
  }

  predicate IsArchiveProof(C: Crypto, d: Driver, f: Frame, base: Digest)
  {
    f.ftype == FRAME_ARCHIVE_AUTH && f.body == C.hmac(d.keys.archive, ArchiveMessage(d.id, base))
  }

  /** e shows dir's proof: it came from the peer, or this side made it. */
  predicate ShowsPeerProof(C: Crypto, d: Driver, e: Event, dir: Bytes, base: Digest)
  {
    || (Presented(C, d, e).Some? && IsPeerProof(C, d, Presented(C, d, e).value, dir, base))
    || (e.SendsPeerAuth? && Direction(d) == dir)
  }

  predicate ShowsArchiveProof(C: Crypto, d: Driver, e: Event, base: Digest)
  {
    || (Presented(C, d, e).Some? && IsArchiveProof(C, d, Presented(C, d, e).value, base))
    || e.SendsArchiveAuth?
  }

  lemma ProofSets(C: Crypto, s: Session, key: Bytes, id: SessionId, d: Bytes, proof: Bytes, dir: Bytes)
    requires dir == I2R || dir == R2I
    requires !Proved(s.flags, dir) && Proved(AuthenticateProof(C, s, key, id, d, proof).s.flags, dir)
    ensures s.phase == Negotiated && s.bound.authBase.Some? && d == dir
    ensures proof == C.hmac(key, PeerMessage(id, s.bound.authBase.value, dir))
  {
    hide Highest, BoundProof;
  }

  lemma FrameProves(C: Crypto, d: Driver, f: Frame, dir: Bytes)
    requires (dir == I2R || dir == R2I) && (f.ftype == FRAME_PEER_AUTH ==> d.keys.auth != [])
    requires !Proved(d.session.flags, dir) && Proved(Handle(C, d, f).d.session.flags, dir)
    ensures d.session.phase == Negotiated && d.session.bound.authBase.Some?
    ensures IsPeerProof(C, d, f, dir, d.session.bound.authBase.value)
  {
    hide AuthenticateProof, Dispatch;
    HandleMarks(C, d, f);
    DispatchCases(C, d, f);
    var p := ParsePeerAuth(f.body);
    ProofSets(C, d.session, d.keys.auth, d.id, p.value.0, p.value.1, dir);
    assert f.body == f.body[..3] + f.body[3..];
  }

  lemma SendProves(C: Crypto, d: Driver, e: Event, dir: Bytes)
    requires (dir == I2R || dir == R2I) && !e.Arrives? && !e.Delivered?
    requires !Proved(d.session.flags, dir) && Proved(After(C, d, e).session.flags, dir)
    ensures d.session.phase == Negotiated && d.session.bound.authBase.Some? && e.SendsPeerAuth? && Direction(d) == dir
  {
    hide AuthenticateProof, MakeAuthProof, Transmit, After;
    SendMarks(C, d, e);
    AfterPeerAuth(C, d);
    var p := MakeAuthProof(C, d.session, d.keys.auth, d.id, Direction(d));
    TransmitKeeps(C, d, FRAME_PEER_AUTH, if p.Some? then EncodePeerAuth(Direction(d), p.value) else []);
    ProofSets(C, d.session, d.keys.auth, d.id, Direction(d), p.value, dir);
  }

  lemma AfterPeerAuth(C: Crypto, d: Driver)
    ensures After(C, d, SendsPeerAuth) == TransmitPeerAuth(C, d).d
    ensures After(C, d, SendsArchiveAuth) == TransmitArchiveAuth(C, d).d
  {
    hide TransmitPeerAuth, TransmitArchiveAuth;
  }

  lemma EventProves(C: Crypto, d: Driver, e: Event, dir: Bytes)
    requires (dir == I2R || dir == R2I) && (Presents(C, d, e, FRAME_PEER_AUTH) ==> d.keys.auth != [])
    requires !Proved(d.session.flags, dir) && Proved(After(C, d, e).session.flags, dir)
    ensures d.session.phase == Negotiated && d.session.bound.authBase.Some?
    ensures ShowsPeerProof(C, d, e, dir, d.session.bound.authBase.value)
  {
    hide Handle, Proved, DecodeFrame;
    if e.Arrives? {
      FrameProves(C, d, Presented(C, d, e).value, dir);
    } else if e.Delivered? {
      FrameProves(C, d, e.f, dir);
    } else {
      SendProves(C, d, e, dir);
    }
  }

  /**
   A direction counts as authenticated only if some event of the run showed its proof, under the
   key then in force, over the digest frozen at negotiation.
   */
  lemma {:induction false} PeerProofShown(C: Crypto, d: Driver, es: seq<Event>, dir: Bytes) returns (k: nat)
    requires Inv(d.session) && (dir == I2R || dir == R2I) && KeysFirst(C, d, es)
    requires !Proved(d.session.flags, dir) && Proved(Run(C, d, es).session.flags, dir)
    ensures k < |es| && Run(C, d, es).session.bound.authBase.Some?
    ensures ShowsPeerProof(C, At(C, d, es, k), es[k], dir, Run(C, d, es).session.bound.authBase.value)
    decreases |es|
  {
    hide After, Proved, Inv, ShowsPeerProof, Presents;
    var e := After(C, d, es[0]);
    AfterSafe(C, d, es[0]);
    if Proved(e.session.flags, dir) {
      EventProves(C, d, es[0], dir);
      RunIsSafe(C, e, es[1..]);
      assert es[..0] == [];
      k := 0;
    } else {
      var j := PeerProofShown(C, e, es[1..], dir);
      AtLater(C, d, es, j);
      k := j + 1;
    }
  }

  lemma FrameAuthorizes(C: Crypto, d: Driver, f: Frame)
    requires f.ftype == FRAME_ARCHIVE_AUTH ==> d.keys.archive != []
    requires !d.session.flags.archive && Handle(C, d, f).d.session.flags.archive
    ensures d.session.flags.peer && d.session.bound.archiveBase.Some?
    ensures IsArchiveProof(C, d, f, d.session.bound.archiveBase.value)
  {
    hide Dispatch, Bind;
    HandleMarks(C, d, f);
    DispatchCases(C, d, f);
  }

  lemma SendAuthorizes(C: Crypto, d: Driver, e: Event)
    requires !e.Arrives? && !e.Delivered?
    requires !d.session.flags.archive && After(C, d, e).session.flags.archive
    ensures d.session.flags.peer && d.session.bound.archiveBase.Some? && e.SendsArchiveAuth?
  {
    hide AuthorizeArchiveProof, ArchiveAuthProof, Transmit, After;
    SendMarks(C, d, e);
    AfterPeerAuth(C, d);
    var p := MakeArchiveProof(C, d.session, d.keys.archive, d.id);
    TransmitKeeps(C, d, FRAME_ARCHIVE_AUTH, if p.Some? then p.value else []);
  }

  lemma EventAuthorizes(C: Crypto, d: Driver, e: Event)
    requires Presents(C, d, e, FRAME_ARCHIVE_AUTH) ==> d.keys.archive != []
    requires !d.session.flags.archive && After(C, d, e).session.flags.archive
    ensures d.session.flags.peer && d.session.bound.archiveBase.Some?
    ensures ShowsArchiveProof(C, d, e, d.session.bound.archiveBase.value)
  {
    hide Handle, DecodeFrame;
    if e.Arrives? {
      FrameAuthorizes(C, d, Presented(C, d, e).value);
    } else if e.Delivered? {
      FrameAuthorizes(C, d, e.f);
    } else {
      SendAuthorizes(C, d, e);
    }
  }

  /**
   The archive counts as authorized only if some event showed its proof, under the key then in
   force, over the digest frozen after peer authentication.
   */
  lemma {:induction false} ArchiveProofShown(C: Crypto, d: Driver, es: seq<Event>) returns (k: nat)
    requires Inv(d.session) && KeysFirst(C, d, es)
    requires !d.session.flags.archive && Run(C, d, es).session.flags.archive
    ensures k < |es| && Run(C, d, es).session.bound.archiveBase.Some?
    ensures ShowsArchiveProof(C, At(C, d, es, k), es[k], Run(C, d, es).session.bound.archiveBase.value)
    decreases |es|
  {
    hide After, Inv, ShowsArchiveProof, Presents;
    var e := After(C, d, es[0]);
    AfterSafe(C, d, es[0]);
    if e.session.flags.archive {
      EventAuthorizes(C, d, es[0]);
      RunIsSafe(C, e, es[1..]);
      assert es[..0] == [];
      k := 0;
    } else {
      var j := ArchiveProofShown(C, e, es[1..]);
      AtLater(C, d, es, j);
      k := j + 1;
    }
  }

  /** The three proofs were shown in events i, j and k of the run. */
  predicate ProofsShown(C: Crypto, d: Driver, es: seq<Event>, i: nat, j: nat, k: nat)
  {
    var b := Run(C, d, es).session.bound;
    && i < |es| && j < |es| && k < |es| && b.authBase.Some? && b.archiveBase.Some?
    && ShowsPeerProof(C, At(C, d, es, i), es[i], I2R, b.authBase.value)
    && ShowsPeerProof(C, At(C, d, es, j), es[j], R2I, b.authBase.value)
    && ShowsArchiveProof(C, At(C, d, es, k), es[k], b.archiveBase.value)
  }

  /**
   From a constructor, if the keys are set before the first proof frame: accepted data means
   both peer proofs and the archive proof were shown during the run.
   */
  lemma MutationNeedsProofs(
    C: Crypto, offer: Offer, transcript: Option<Bytes>, id: SessionId, mac: Bytes, requireMac: bool, es: seq<Event>)
    returns (i: nat, j: nat, k: nat)
    requires KeysFirst(C, Fresh(offer, transcript, id, mac, requireMac), es)
    requires Run(C, Fresh(offer, transcript, id, mac, requireMac), es).session.received > 0
    ensures ProofsShown(C, Fresh(offer, transcript, id, mac, requireMac), es, i, j, k)
  {
    hide Run, ShowsArchiveProof, ShowsPeerProof, KeysFirst, At, NotDowngraded;
    var d := Fresh(offer, transcript, id, mac, requireMac);
    FreshInv(offer, transcript, id, mac, requireMac);
    RunIsSafe(C, d, es);
    i := PeerProofShown(C, d, es, I2R);
    j := PeerProofShown(C, d, es, R2I);
    k := ArchiveProofShown(C, d, es);
  }

  /** Setting both keys before any proof frame, and never to nothing, is enough. */
  lemma {:induction false} SettingKeysSuffices(C: Crypto, d: Driver, before: seq<Event>, keys: Event, after: seq<Event>)
    requires keys.SetsKeys? && NoProofFrames(C, d, before) && SetsNonEmpty([keys] + after)
    ensures KeysFirst(C, d, before + [keys] + after)
    decreases |before|
  {
    hide Presents;
    var es := before + [keys] + after;
    if before == [] {
      assert es[0] == keys && es[1..] == after && ([keys] + after)[0] == keys;
      NotAFrame(C, d, keys);
      forall i | 0 <= i < |after|
        ensures NonEmpty(after[i])
      {
        assert ([keys] + after)[i + 1] == after[i];
      }
      KeyedStays(C, After(C, d, keys), after);
    } else {
      assert es[0] == before[0] && es[1..] == before[1..] + [keys] + after;
      SettingKeysSuffices(C, After(C, d, before[0]), before[1..], keys, after);
    }
  }

  predicate NonEmpty(e: Event)
  {
    e.SetsKeys? ==> e.auth != [] && e.archive != []
  }

  predicate SetsNonEmpty(es: seq<Event>)
  {
    forall i | 0 <= i < |es| :: NonEmpty(es[i])
  }

  predicate NoProofFrames(C: Crypto, d: Driver, es: seq<Event>)
    decreases |es|
  {
    es == [] ||
    (&& !Presents(C, d, es[0], FRAME_PEER_AUTH) && !Presents(C, d, es[0], FRAME_ARCHIVE_AUTH)
     && NoProofFrames(C, After(C, d, es[0]), es[1..]))
  }

  lemma NotAFrame(C: Crypto, d: Driver, e: Event)
    requires e.SetsKeys?
    ensures !Presents(C, d, e, FRAME_PEER_AUTH) && !Presents(C, d, e, FRAME_ARCHIVE_AUTH)
    ensures After(C, d, e) == SetKeys(d, e.auth, e.dir, e.archive)
  {
    hide DecodeFrame, DecodeAndHandle, Handle, Transmit, TransmitOffer, TransmitAccept, TransmitPeerAuth;
    hide TransmitArchiveAuth, TransmitChunk, InstallTrafficKey, Negotiate, Activate;
  }

  lemma KeysStay(C: Crypto, d: Driver, e: Event)
    requires NonEmpty(e) && d.keys.auth != [] && d.keys.archive != []
    ensures After(C, d, e).keys.auth != [] && After(C, d, e).keys.archive != []
  {
    hide Handle, Negotiate, AuthenticateProof, AuthorizeArchiveProof, Activate, MakeAuthProof, MakeArchiveProof;
    hide SealBody, EncodeFrame, EncodeOffer, EncodeAccept, EncodeChunk, TrafficKey, DecodeFrame;
    var f := Presented(C, d, e);
    if f.Some? { HandleKeepsKeys(C, d, f.value); }
  }

  lemma HandleKeepsKeys(C: Crypto, d: Driver, f: Frame)
    ensures Handle(C, d, f).d.keys == d.keys
  {
    hide Negotiate, ConfirmAccept, Authenticate, AuthenticateProof, AuthorizeArchive, AuthorizeArchiveProof, Activate;
    hide AcceptNext, Close, ParseOffer, ParseAccept, ParsePeerAuth, ParseChunk, OpenBody;
  }

  lemma {:induction false} KeyedStays(C: Crypto, d: Driver, es: seq<Event>)
    requires d.keys.auth != [] && d.keys.archive != [] && SetsNonEmpty(es)
    ensures KeysFirst(C, d, es)
    decreases |es|
  {
    hide After, Presents, NonEmpty;
    if es != [] {
      KeysStay(C, d, es[0]);
      KeyedStays(C, After(C, d, es[0]), es[1..]);
    }
  }
}
