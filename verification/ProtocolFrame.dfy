/**
 Frames on the wire (internal/protocol/protocol.go) and the bodies they carry
 (negotiate.go, peerauth.go, data_chunk.go).
 */
module ProtocolFrame {
  import opened Bytes
  import opened JournalPayload
  import opened Transcript

  const PROTOCOL_VERSION: u16 := 1
  const HEADER_BYTES := 42
  const AUTH_BYTES := 32
  const MAX_BODY := 0x10_0000

  // "INTPRO01"
  const FRAME_MAGIC: Bytes := [73, 78, 84, 80, 82, 79, 48, 49]

  const FRAME_OFFER: u16 := 1
  const FRAME_ACCEPT: u16 := 2
  const FRAME_PEER_AUTH: u16 := 3
  const FRAME_ARCHIVE_AUTH: u16 := 4
  const FRAME_ACTIVATE: u16 := 5
  const FRAME_DATA: u16 := 6
  const FRAME_CLOSE: u16 := 7
  const FRAME_FAILURE: u16 := 8

  const REQUIRES_MAC: u16 := 1

  datatype Frame = Frame(ftype: u16, flags: u16, session: SessionId, sequence: u64, body: Bytes)

  predicate Known(ftype: u16)
  {
    FRAME_OFFER <= ftype <= FRAME_FAILURE
  }

  /** Header and body; the version is always PROTOCOL_VERSION. */
  function Clear(f: Frame): (b: Bytes)
    requires |f.body| <= MAX_BODY
    ensures |b| == HEADER_BYTES + |f.body|
  {
    FRAME_MAGIC + LE16(PROTOCOL_VERSION) + LE16(f.ftype) + LE16(f.flags) + LE32(|f.body|) + f.session +
      LE64(f.sequence) + f.body
  }

  predicate Maced(f: Frame, key: Bytes)
  {
    f.flags == REQUIRES_MAC || |key| > 0
  }

  /** Encode */
  function EncodeFrame(hmac: Mac, f: Frame, key: Bytes): Option<Bytes>
  {
    if !Known(f.ftype) || f.flags > REQUIRES_MAC || |f.body| > MAX_BODY then None
    else if Maced(f, key) then
      if |key| < MIN_KEY then None
      else
        var clear := Clear(f.(flags := REQUIRES_MAC));
        Some(clear + hmac(key, clear))
    else Some(Clear(f))
  }

  function Parsed(raw: Bytes, n: nat): Frame
    requires HEADER_BYTES + n <= |raw|
  {
    Frame(U16LE(raw[10..12]), U16LE(raw[12..14]), raw[18..34], U64LE(raw[34..42]), raw[42..42 + n])
  }

  /** Decode */
  function DecodeFrame(hmac: Mac, raw: Bytes, key: Bytes, requireMac: bool): Option<Frame>
  {
    if |raw| < HEADER_BYTES + (if requireMac || |key| > 0 then AUTH_BYTES else 0) then None
    else if raw[..8] != FRAME_MAGIC then None
    else if U16LE(raw[8..10]) != PROTOCOL_VERSION then None
    else if U16LE(raw[12..14]) > REQUIRES_MAC then None
    else if U32LE(raw[14..18]) > MAX_BODY then None
    else
      var n := U32LE(raw[14..18]);
      var maced := requireMac || U16LE(raw[12..14]) == REQUIRES_MAC || |key| > 0;
      if |raw| != HEADER_BYTES + n + (if maced then AUTH_BYTES else 0) then None
      else if !Known(U16LE(raw[10..12])) then None
      else if maced && (|key| < MIN_KEY || raw[HEADER_BYTES + n..] != hmac(key, raw[..HEADER_BYTES + n])) then None
      else Some(Parsed(raw, n))
  }

  // ---------- frames: two-way inverse ----------

  lemma ClearParts(f: Frame, tail: Bytes)
    requires |f.body| <= MAX_BODY
    ensures var b := Clear(f) + tail;
            && b[..8] == FRAME_MAGIC && b[8..10] == LE16(PROTOCOL_VERSION) && b[10..12] == LE16(f.ftype)
            && b[12..14] == LE16(f.flags) && b[14..18] == LE32(|f.body|) && b[18..34] == f.session
            && b[34..42] == LE64(f.sequence) && b[42..42 + |f.body|] == f.body
            && b[..42 + |f.body|] == Clear(f) && b[42 + |f.body|..] == tail
  {
    hide LE16, LE32, LE64;
  }

  lemma ParsedClear(f: Frame, tail: Bytes)
    requires |f.body| <= MAX_BODY
    ensures Parsed(Clear(f) + tail, |f.body|) == f
    ensures U16LE((Clear(f) + tail)[8..10]) == PROTOCOL_VERSION && U32LE((Clear(f) + tail)[14..18]) == |f.body|
  {
    hide LE16, LE32, LE64, U16LE, U32LE, U64LE, Clear;
    ClearParts(f, tail);
    ReadWrite16(PROTOCOL_VERSION);
    ReadWrite16(f.ftype);
    ReadWrite16(f.flags);
    ReadWrite32(|f.body|);
    ReadWrite64(f.sequence);
  }

  /** The frame that arrives: the one sent, with the MAC flag set if there is a key. */
  function Received(f: Frame, key: Bytes): Frame
  {
    if Maced(f, key) then f.(flags := REQUIRES_MAC) else f
  }

  /** Whatever encodes is decoded by a peer with the same key, unless that peer wants a MAC and there is no key. */
  lemma FrameRoundTrip(hmac: Mac, f: Frame, key: Bytes, requireMac: bool)
    requires EncodeFrame(hmac, f, key).Some? && (requireMac ==> |key| > 0)
    ensures DecodeFrame(hmac, EncodeFrame(hmac, f, key).value, key, requireMac) == Some(Received(f, key))
  {
    hide LE16, LE32, LE64, U16LE, U32LE, U64LE, Clear, Parsed;
    var g := Received(f, key);
    var tail: Bytes := if Maced(f, key) then hmac(key, Clear(g)) else [];
    assert EncodeFrame(hmac, f, key).value == Clear(g) + tail by {
      assert Clear(g) + [] == Clear(g);
    }
    ParsedClear(g, tail);
    ClearParts(g, tail);
    FlagsOf(g, tail);
  }

  lemma FlagsOf(f: Frame, tail: Bytes)
    requires |f.body| <= MAX_BODY
    ensures U16LE((Clear(f) + tail)[12..14]) == f.flags && U16LE((Clear(f) + tail)[10..12]) == f.ftype
  {
    hide LE16, LE32, LE64, U16LE, U32LE, U64LE, Clear;
    ClearParts(f, tail);
    ReadWrite16(f.ftype);
    ReadWrite16(f.flags);
  }

  lemma ClearParsed(raw: Bytes)
    requires HEADER_BYTES <= |raw| && raw[..8] == FRAME_MAGIC && U16LE(raw[8..10]) == PROTOCOL_VERSION
    requires U32LE(raw[14..18]) <= MAX_BODY && HEADER_BYTES + U32LE(raw[14..18]) <= |raw|
    ensures Clear(Parsed(raw, U32LE(raw[14..18]))) == raw[..HEADER_BYTES + U32LE(raw[14..18])]
  {
    hide LE16, LE32, LE64, U32LE, U64LE;
    var n := U32LE(raw[14..18]);
    WriteRead32(raw[14..18]);
    WriteRead64(raw[34..42]);
    var f := Parsed(raw, n);
    assert LE16(PROTOCOL_VERSION) == raw[8..10] && LE16(f.ftype) == raw[10..12] && LE16(f.flags) == raw[12..14];
    assert raw[..42 + n] == raw[..8] + raw[8..10] + raw[10..12] + raw[12..14] + raw[14..18] + raw[18..34] +
      raw[34..42] + raw[42..42 + n];
  }

  /** An accepted frame re-encodes to the bytes it was read from exactly when its flag says what the key implies. */
  lemma FrameIsCanonical(hmac: Mac, raw: Bytes, key: Bytes, requireMac: bool)
    requires DecodeFrame(hmac, raw, key, requireMac).Some?
    ensures var f := DecodeFrame(hmac, raw, key, requireMac).value;
            EncodeFrame(hmac, f, key) == Some(raw) <==> (|key| > 0 ==> f.flags == REQUIRES_MAC)
  {
    hide LE16, LE32, LE64, U16LE, U32LE, U64LE, Clear;
    var n := U32LE(raw[14..18]);
    var f := Parsed(raw, n);
    ClearParsed(raw);
    assert raw == raw[..HEADER_BYTES + n] + raw[HEADER_BYTES + n..];
    if |key| > 0 && f.flags != REQUIRES_MAC {
      var g := f.(flags := REQUIRES_MAC);
      ClearParts(g, hmac(key, Clear(g)));
      ReadWrite16(REQUIRES_MAC);
      assert EncodeFrame(hmac, f, key) != Some(raw);
    } else if f.flags == REQUIRES_MAC {
      assert f.(flags := REQUIRES_MAC) == f;
    } else {
      assert raw[..HEADER_BYTES + n] == raw;
    }
  }

  /** The frame a sender without the flag would make under key. */
  function Unflagged(hmac: Mac, f: Frame, key: Bytes): Bytes
    requires |f.body| <= MAX_BODY
  {
    Clear(f) + hmac(key, Clear(f))
  }

  /** Such frames exist: with the flag clear and a valid MAC a frame is accepted, and does not re-encode to itself. */
  lemma UnflaggedIsAccepted(hmac: Mac, f: Frame, key: Bytes, requireMac: bool)
    requires |key| >= MIN_KEY && Known(f.ftype) && f.flags == 0 && |f.body| <= MAX_BODY
    ensures DecodeFrame(hmac, Unflagged(hmac, f, key), key, requireMac) == Some(f)
    ensures EncodeFrame(hmac, f, key) != Some(Unflagged(hmac, f, key))
  {
    hide LE16, LE32, LE64, U16LE, U32LE, U64LE, Clear, Parsed;
    var tail: Bytes := hmac(key, Clear(f));
    ParsedClear(f, tail);
    ClearParts(f, tail);
    FlagsOf(f, tail);
    FrameIsCanonical(hmac, Unflagged(hmac, f, key), key, requireMac);
  }
}
