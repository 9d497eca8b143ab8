/**
 The payloads local sync writes into journal records (internal/localsync/jpayload.go).

 `TakeBytes` compares the field length with the number of remaining bytes modulo 65536,
 as the source does, so a field does not always read back. The lemmas state exactly when
 it does.
 */
module JournalPayload {
  import opened Bytes

  const PAYLOAD_VERSION: byte := 1
  const MAX_FIELD := 65535

  datatype Option<+T> = None | Some(value: T)

  // ---------- fields ----------

  /** putBytes refuses a field longer than 65535 bytes. */
  function PutBytes(p: Bytes): (r: Option<Bytes>)
    ensures r.Some? <==> |p| <= MAX_FIELD
  {
    if |p| > MAX_FIELD then None else Some(LE16(|p|) + p)
  }

  function TakeU16(b: Bytes): Option<(u16, Bytes)>
  {
    if |b| < 2 then None else Some((U16LE(b[..2]), b[2..]))
  }

  function TakeU32(b: Bytes): Option<(u32, Bytes)>
  {
    if |b| < 4 then None else Some((U32LE(b[..4]), b[4..]))
  }

  function TakeU64(b: Bytes): Option<(u64, Bytes)>
  {
    if |b| < 8 then None else Some((U64LE(b[..8]), b[8..]))
  }

  function TakeBytes(b: Bytes): Option<(Bytes, Bytes)>
  {
    match TakeU16(b)
    case None => None
    case Some((n, rest)) =>
      if |rest| % 0x1_0000 < n then None else Some((rest[..n], rest[n..]))
  }

  /** A field followed by tail reads back: its length passes the source's comparison. */
  predicate Readable(p: Bytes, tail: Bytes)
  {
    (|p| + |tail|) % 0x1_0000 >= |p|
  }

  /** A written field reads back exactly when it is readable; otherwise it is an error, never a wrong value. */
  lemma TakePut(p: Bytes, tail: Bytes)
    requires |p| <= MAX_FIELD
    ensures TakeBytes(PutBytes(p).value + tail) == if Readable(p, tail) then Some((p, tail)) else None
  {
    hide LE16, U16LE;
    var b := PutBytes(p).value + tail;
    assert b[..2] == LE16(|p|);
    ReadWrite16(|p|);
    assert b[2..] == p + tail;
    assert (p + tail)[..|p|] == p && (p + tail)[|p|..] == tail;
  }

  // ---------- observation: the two roots ----------

  datatype Roots = Roots(source: Bytes, destination: Bytes)

  function EncodeObservation(r: Roots): (b: Option<Bytes>)
    ensures b.Some? <==> |r.source| <= MAX_FIELD && |r.destination| <= MAX_FIELD
  {
    if |r.source| > MAX_FIELD || |r.destination| > MAX_FIELD then None
    else Some([PAYLOAD_VERSION] + (PutBytes(r.source).value + PutBytes(r.destination).value))
  }

  function DecodeObservation(p: Bytes): Option<Roots>
  {
    if |p| < 1 || p[0] != PAYLOAD_VERSION then None
    else
      match TakeBytes(p[1..])
      case None => None
      case Some((s, rest)) =>
        match TakeBytes(rest)
        case None => None
        case Some((d, rest2)) => if rest2 != [] then None else Some(Roots(s, d))
  }

  /** The roots read back exactly when the source path clears the length comparison. */
  lemma ObservationRoundTrip(r: Roots)
    requires |r.source| <= MAX_FIELD && |r.destination| <= MAX_FIELD
    ensures var n := |r.source| + 2 + |r.destination|;
      DecodeObservation(EncodeObservation(r).value) == if n % 0x1_0000 >= |r.source| then Some(r) else None
  {
    hide TakeBytes, PutBytes;
    var s, d := PutBytes(r.source).value, PutBytes(r.destination).value;
    var p := EncodeObservation(r).value;
    assert p[1..] == s + d;
    PutLength(r.destination);
    TakePut(r.source, d);
    TakePut(r.destination, []);
    assert d + [] == d;
  }

  lemma PutLength(p: Bytes)
    requires |p| <= MAX_FIELD
    ensures |PutBytes(p).value| == 2 + |p|
  {
  }

  // ---------- plan digest ----------

  function EncodePlanDigest(d: Digest, count: u32): Bytes
  {
    [PAYLOAD_VERSION] + d + LE32(count)
  }

  function DecodePlanDigest(p: Bytes): Option<(Digest, u32)>
  {
    if |p| < 37 || p[0] != PAYLOAD_VERSION then None
    else if |p| != 37 then None
    else Some((p[1..33], U32LE(p[33..37])))
  }

  lemma PlanDigestRoundTrip(d: Digest, count: u32)
    ensures DecodePlanDigest(EncodePlanDigest(d, count)) == Some((d, count))
  {
    hide LE32, U32LE;
    var p := EncodePlanDigest(d, count);
    assert p[1..33] == d && p[33..37] == LE32(count);
    ReadWrite32(count);
  }

  // ---------- authorization, confirmation, cancellation, recovery: written, never decoded ----------

  // "local-unidirectional-v1"
  const AUTHZ_LABEL: Bytes :=
    [108, 111, 99, 97, 108, 45, 117, 110, 105, 100, 105, 114, 101, 99, 116, 105, 111, 110, 97, 108, 45, 118, 49]

  function EncodeAuthz(d: Digest): Bytes
  {
    [PAYLOAD_VERSION, 23] + AUTHZ_LABEL + d
  }

  function EncodeConfirmation(d: Digest, completed: u32, skipped: u32, bytes: u64): Bytes
  {
    [PAYLOAD_VERSION] + d + LE32(completed) + LE32(skipped) + LE64(bytes)
  }

  /** A confirmation says what it says: equal payloads carry equal digests and counters. */
  lemma ConfirmationInjective(d: Digest, c: u32, s: u32, b: u64, d': Digest, c': u32, s': u32, b': u64)
    requires EncodeConfirmation(d, c, s, b) == EncodeConfirmation(d', c', s', b')
    ensures d == d' && c == c' && s == s' && b == b'
  {
    hide LE32, LE64;
    var x, y := EncodeConfirmation(d, c, s, b), EncodeConfirmation(d', c', s', b');
    assert x[1..33] == d && x[33..37] == LE32(c) && x[37..41] == LE32(s) && x[41..49] == LE64(b);
    assert y[1..33] == d' && y[33..37] == LE32(c') && y[37..41] == LE32(s') && y[41..49] == LE64(b');
    ReadWrite32(c);
    ReadWrite32(c');
    ReadWrite32(s);
    ReadWrite32(s');
    ReadWrite64(b);
    ReadWrite64(b');
  }

  // "superseded_by_new_plan" and "resume"
  const SUPERSEDED: Bytes :=
    [115, 117, 112, 101, 114, 115, 101, 100, 101, 100, 95, 98, 121, 95, 110, 101, 119, 95, 112, 108, 97, 110]
  const RESUME: Bytes := [114, 101, 115, 117, 109, 101]

  function EncodeCancellation(reason: Bytes): Option<Bytes>
  {
    match PutBytes(reason)
    case None => None
    case Some(b) => Some([PAYLOAD_VERSION] + b)
  }

  function EncodeRecovery(nextOp: u32, reason: Bytes): Option<Bytes>
  {
    match PutBytes(reason)
    case None => None
    case Some(b) => Some([PAYLOAD_VERSION] + LE32(nextOp) + b)
  }

  // ---------- progress ----------

  datatype Progress = Progress(index: u32, action: Bytes, rel: Bytes, bytesCum: u64)

  function EncodeProgress(p: Progress): (b: Option<Bytes>)
    ensures b.Some? <==> |p.action| <= MAX_FIELD && |p.rel| <= MAX_FIELD
  {
    if |p.action| > MAX_FIELD || |p.rel| > MAX_FIELD then None
    else Some([PAYLOAD_VERSION] + (LE32(p.index) +
      (PutBytes(p.action).value + (PutBytes(p.rel).value + LE64(p.bytesCum)))))
  }

  function DecodeProgress(b: Bytes): Option<Progress>
  {
    if |b| < 1 || b[0] != PAYLOAD_VERSION then None
    else
      match TakeU32(b[1..])
      case None => None
      case Some((index, r1)) =>
        match TakeBytes(r1)
        case None => None
        case Some((action, r2)) =>
          match TakeBytes(r2)
          case None => None
          case Some((rel, r3)) =>
            match TakeU64(r3)
            case None => None
            case Some((cum, r4)) => if r4 != [] then None else Some(Progress(index, action, rel, cum))
  }

  /** Both path-like fields clear the length comparison. */
  predicate ProgressReadable(p: Progress)
  {
    && (|p.action| + 2 + |p.rel| + 8) % 0x1_0000 >= |p.action|
    && (|p.rel| + 8) % 0x1_0000 >= |p.rel|
  }

  /** A progress record reads back exactly when readable, and otherwise as an error, never as another record. */
  lemma ProgressRoundTrip(p: Progress)
    requires EncodeProgress(p).Some?
    ensures DecodeProgress(EncodeProgress(p).value) == if ProgressReadable(p) then Some(p) else None
  {
    hide TakeBytes, PutBytes, LE32, LE64, U32LE, U64LE;
    var cum := LE64(p.bytesCum);
    var rel := PutBytes(p.rel).value;
    var action := PutBytes(p.action).value;
    var b := EncodeProgress(p).value;
    assert b[1..][..4] == LE32(p.index) && b[1..][4..] == action + (rel + cum);
    ReadWrite32(p.index);
    PutLength(p.rel);
    TakePut(p.action, rel + cum);
    TakePut(p.rel, cum);
    ReadWrite64(p.bytesCum);
    assert cum[..8] == cum && cum[8..] == [];
  }

  /** Paths of up to 65000 bytes with a short action name always read back. */
  lemma ShortProgressIsReadable(p: Progress)
    requires |p.action| <= 500 && |p.rel| <= 65000
    ensures ProgressReadable(p)
  {
  }

  /** A path of 65524 bytes written with action "copy" is lost on reading, while one of 65526 bytes is not. */
  lemma ReadabilityIsNotMonotone(p: Progress, q: Progress)
    requires |p.action| == 4 && |p.rel| == 65524
    requires |q.action| == 4 && |q.rel| == 65526
    ensures EncodeProgress(p).Some? && DecodeProgress(EncodeProgress(p).value) == None
    ensures EncodeProgress(q).Some? && DecodeProgress(EncodeProgress(q).value) == Some(q)
  {
    hide EncodeProgress, DecodeProgress;
    ProgressRoundTrip(p);
    ProgressRoundTrip(q);
  }
}
