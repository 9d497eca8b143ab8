/**
 The journal record envelope (internal/codec/journal.go).

 `Encoded` is the canonical byte form of a record and `DecodeRecord` is the decoder's
 chain of checks. The imperative `EncodeRecord` fills a buffer as the source does and
 is proved to produce `Encoded`. The lemmas say that the two are inverse in both
 directions, that a strict prefix of a record is always `Incomplete`, and that a
 decoder that sees only MAX_RECORD_BYTES bytes answers as one that sees everything.
 */
module RecordCodec {
  import opened Bytes

  const FORMAT_VERSION: u16 := 1
  const HEADER_LENGTH: u16 := 108
  const RECORD_OVERHEAD := 152
  const MAX_PAYLOAD_BYTES := 0x10_0000
  const MAX_RECORD_BYTES := RECORD_OVERHEAD + MAX_PAYLOAD_BYTES

  // "INTJRN01" and "INTJRN0T"
  const RECORD_MAGIC: Bytes := [73, 78, 84, 74, 82, 78, 48, 49]
  const TRAILER_MAGIC: Bytes := [73, 78, 84, 74, 82, 78, 48, 84]

  const TYPE_OBSERVATION: u16 := 1
  const TYPE_PLAN_DIGEST: u16 := 2
  const TYPE_AUTHORIZATION: u16 := 3
  const TYPE_PROGRESS: u16 := 4
  const TYPE_CONFIRMATION: u16 := 5
  const TYPE_CANCELLATION: u16 := 6
  const TYPE_QUARANTINE: u16 := 7
  const TYPE_RECOVERY: u16 := 8
  const TYPE_CHECKPOINT: u16 := 9
  const TYPE_EVIDENCE_REFERENCE: u16 := 10

  predicate ValidRecordType(t: u16)
  {
    TYPE_OBSERVATION <= t <= TYPE_EVIDENCE_REFERENCE
  }

  datatype Fields = Fields(sequence: u64, txid: TxnId, rtype: u16, prev: Digest, payload: Bytes)

  datatype Record = Record(
    sequence: u64, txid: TxnId, rtype: u16, payloadDigest: Digest, prev: Digest,
    payload: Bytes, commitment: Digest, length: u32)
  {
    function AsFields(): Fields
    {
      Fields(sequence, txid, rtype, prev, payload)
    }
  }

  datatype Kind = Incomplete | NonCanonical | Limit | Unsupported | DigestMismatch

  datatype Decoded = Ok(rec: Record, n: nat) | Err(kind: Kind)

  datatype EncodeResult = Encoding(bytes: Bytes) | Refused(kind: Kind)

  /** The fields EncodeRecord accepts. */
  predicate Encodable(f: Fields)
  {
    && f.sequence >= 1
    && ValidRecordType(f.rtype)
    && (f.sequence == 1 ==> f.prev == GENESIS)
    && |f.payload| <= MAX_PAYLOAD_BYTES
  }

  function RecordLength(f: Fields): (n: nat)
    requires |f.payload| <= MAX_PAYLOAD_BYTES
    ensures RECORD_OVERHEAD <= n <= MAX_RECORD_BYTES
  {
    RECORD_OVERHEAD + |f.payload|
  }

  function Framing(len: u32): (b: Bytes)
    ensures |b| == 16
  {
    RECORD_MAGIC + LE16(FORMAT_VERSION) + LE16(HEADER_LENGTH) + LE32(len)
  }

  function Identity(seqNo: u64, txid: TxnId, rtype: u16): (b: Bytes)
    ensures |b| == 28
  {
    LE64(seqNo) + txid + LE16(rtype) + LE16(0)
  }

  function Header(len: u32, seqNo: u64, txid: TxnId, rtype: u16, pdig: Digest, prev: Digest): (b: Bytes)
    ensures |b| == 108
  {
    Framing(len) + Identity(seqNo, txid, rtype) + pdig + prev
  }

  /** The bytes a record commitment is computed over: the header and the payload. */
  function Preimage(len: u32, seqNo: u64, txid: TxnId, rtype: u16, pdig: Digest, prev: Digest, payload: Bytes): Bytes
  {
    Header(len, seqNo, txid, rtype, pdig, prev) + payload
  }

  function PreimageOf(H: Hash, f: Fields): (b: Bytes)
    requires |f.payload| <= MAX_PAYLOAD_BYTES
    ensures |b| == 108 + |f.payload|
  {
    Preimage(RecordLength(f), f.sequence, f.txid, f.rtype, H(f.payload), f.prev, f.payload)
  }

  function CommitmentOf(H: Hash, f: Fields): Digest
    requires |f.payload| <= MAX_PAYLOAD_BYTES
  {
    H(PreimageOf(H, f))
  }

  function Trailer(commitment: Digest, len: u32): (b: Bytes)
    ensures |b| == 44
  {
    commitment + TRAILER_MAGIC + LE32(len)
  }

  /** The canonical byte form of a record. */
  function Encoded(H: Hash, f: Fields): (b: Bytes)
    requires |f.payload| <= MAX_PAYLOAD_BYTES
    ensures |b| == RecordLength(f)
  {
    PreimageOf(H, f) + Trailer(CommitmentOf(H, f), RecordLength(f))
  }

  /** The record a decoder should report for fields f. */
  function RecordOf(H: Hash, f: Fields): Record
    requires |f.payload| <= MAX_PAYLOAD_BYTES
  {
    Record(f.sequence, f.txid, f.rtype, H(f.payload), f.prev, f.payload, CommitmentOf(H, f), RecordLength(f))
  }

  function DecodeRecord(H: Hash, b: Bytes): (d: Decoded)
    ensures d.Ok? ==> RECORD_OVERHEAD <= d.n <= |b| && d.n <= MAX_RECORD_BYTES
  {
    if |b| < 8 then Err(Incomplete)
    else if b[..8] != RECORD_MAGIC then Err(NonCanonical)
    else if |b| < 16 then Err(Incomplete)
    else if U16LE(b[8..10]) != FORMAT_VERSION then Err(Unsupported)
    else if U16LE(b[10..12]) != HEADER_LENGTH then Err(NonCanonical)
    else
      var len := U32LE(b[12..16]);
      if len < RECORD_OVERHEAD then Err(NonCanonical)
      else if len > MAX_RECORD_BYTES then Err(Limit)
      else if |b| < len then Err(Incomplete)
      else DecodeFramed(H, b, len)
  }

  /** The checks DecodeRecord makes once the whole record is known to be present. */
  function DecodeFramed(H: Hash, b: Bytes, len: u32): (d: Decoded)
    requires RECORD_OVERHEAD <= len <= MAX_RECORD_BYTES && len <= |b|
    ensures d.Ok? ==> d.n == len
  {
    var seqNo := U64LE(b[16..24]);
    var rtype := U16LE(b[40..42]);
    var end := len - 44;
    var pdig: Digest := b[44..76];
    var prev: Digest := b[76..108];
    var payload := b[108..end];
    var commitment: Digest := b[end..end + 32];
    if seqNo == 0 then Err(NonCanonical)
    else if !ValidRecordType(rtype) then Err(Unsupported)
    else if U16LE(b[42..44]) != 0 then Err(NonCanonical)
    else if H(payload) != pdig then Err(DigestMismatch)
    else if seqNo == 1 && prev != GENESIS then Err(NonCanonical)
    else if b[end + 32..end + 40] != TRAILER_MAGIC then Err(NonCanonical)
    else if U32LE(b[end + 40..end + 44]) != len then Err(NonCanonical)
    else if H(Preimage(len, seqNo, b[24..40], rtype, pdig, prev, payload)) != commitment then Err(DigestMismatch)
    else Ok(Record(seqNo, b[24..40], rtype, pdig, prev, payload, commitment, len), len)
  }

  // ---------- layout ----------

  lemma FramingLayout(len: u32, rest: Bytes)
    ensures var b := Framing(len) + rest;
      b[..8] == RECORD_MAGIC && U16LE(b[8..10]) == FORMAT_VERSION && U16LE(b[10..12]) == HEADER_LENGTH &&
        U32LE(b[12..16]) == len
  {
    hide LE16, LE32, LE64;
    var b := Framing(len) + rest;
    assert b[..8] == RECORD_MAGIC;
    assert b[8..10] == LE16(FORMAT_VERSION);
    assert b[10..12] == LE16(HEADER_LENGTH);
    assert b[12..16] == LE32(len);
    ReadWrite16(FORMAT_VERSION);
    ReadWrite16(HEADER_LENGTH);
    ReadWrite32(len);
  }

  lemma IdentityLayout(seqNo: u64, txid: TxnId, rtype: u16)
    ensures var b := Identity(seqNo, txid, rtype);
      U64LE(b[..8]) == seqNo && b[8..24] == txid && U16LE(b[24..26]) == rtype && U16LE(b[26..28]) == 0
  {
    hide LE16, LE32, LE64;
    var b := Identity(seqNo, txid, rtype);
    assert b[..8] == LE64(seqNo);
    assert b[24..26] == LE16(rtype);
    assert b[26..28] == LE16(0);
    ReadWrite16(rtype);
    ReadWrite16(0);
    ReadWrite64(seqNo);
  }

  /** Where each field of an encoded record sits, whatever follows it. */
  lemma EncodedLayout(H: Hash, f: Fields, tail: Bytes)
    requires |f.payload| <= MAX_PAYLOAD_BYTES
    ensures var b := Encoded(H, f) + tail; var end := RecordLength(f) - 44;
      && b[..16] == Framing(RecordLength(f))
      && b[16..44] == Identity(f.sequence, f.txid, f.rtype)
      && b[44..76] == H(f.payload)
      && b[76..108] == f.prev
      && b[108..end] == f.payload
      && b[end..end + 32] == CommitmentOf(H, f)
      && b[end + 32..end + 40] == TRAILER_MAGIC
      && b[end + 40..end + 44] == LE32(RecordLength(f))
  {
    hide LE16, LE32, LE64;
    var pre := PreimageOf(H, f);
    var tr := Trailer(CommitmentOf(H, f), RecordLength(f));
    var b := Encoded(H, f) + tail;
    var end := RecordLength(f) - 44;
    assert b == pre + (tr + tail);
    assert b[..108] == pre[..108] == Header(RecordLength(f), f.sequence, f.txid, f.rtype, H(f.payload), f.prev);
    assert b[108..end] == pre[108..];
    assert b[end..end + 44] == tr;
    assert tr[..32] == CommitmentOf(H, f) && tr[32..40] == TRAILER_MAGIC && tr[40..] == LE32(RecordLength(f));
    assert b[end..end + 32] == tr[..32];
    assert b[end + 32..end + 40] == tr[32..40];
    assert b[end + 40..end + 44] == tr[40..];
    var h := b[..108];
    assert b[..16] == h[..16] && b[16..44] == h[16..44] && b[44..76] == h[44..76] && b[76..108] == h[76..];
  }

  // ---------- round trips ----------

  /** Decoding an encoded record, with anything after it, returns its fields and its length. */
  lemma DecodeEncoded(H: Hash, f: Fields, tail: Bytes)
    requires Encodable(f)
    ensures DecodeRecord(H, Encoded(H, f) + tail) == Ok(RecordOf(H, f), RecordLength(f))
  {
    hide LE16, LE32, LE64, U16LE, U32LE, U64LE;
    var b := Encoded(H, f) + tail;
    EncodedLayout(H, f, tail);
    assert b == Framing(RecordLength(f)) + b[16..];
    FramingLayout(RecordLength(f), b[16..]);
    IdentityLayout(f.sequence, f.txid, f.rtype);
    var id := b[16..44];
    assert b[16..24] == id[..8] && b[24..40] == id[8..24] && b[40..42] == id[24..26] && b[42..44] == id[26..28];
    ReadWrite32(RecordLength(f));
  }

  /** Any accepted record re-encodes to exactly the bytes it was read from. */
  lemma EncodeDecoded(H: Hash, b: Bytes)
    requires DecodeRecord(H, b).Ok?
    ensures var d := DecodeRecord(H, b); var f := d.rec.AsFields();
      Encodable(f) && d.rec == RecordOf(H, f) && d.n == RecordLength(f) && b[..d.n] == Encoded(H, f)
  {
    hide LE16, LE32, LE64, U16LE, U32LE, U64LE;
    var d := DecodeRecord(H, b);
    var f := d.rec.AsFields();
    var end := d.n - 44;
    assert |f.payload| == d.n - RECORD_OVERHEAD;
    WriteRead32(b[12..16]);
    WriteRead64(b[16..24]);
    WriteRead32(b[end + 40..end + 44]);
    assert b[..16] == b[..8] + b[8..10] + b[10..12] + b[12..16] == Framing(d.n);
    assert b[16..44] == b[16..24] + b[24..40] + b[40..42] + b[42..44] == Identity(f.sequence, f.txid, f.rtype);
    assert b[..end] == b[..16] + b[16..44] + b[44..76] + b[76..108] + b[108..end] == PreimageOf(H, f);
    assert b[end..d.n] == b[end..end + 32] + b[end + 32..end + 40] + b[end + 40..end + 44]
                       == Trailer(CommitmentOf(H, f), d.n);
    assert b[..d.n] == b[..end] + b[end..d.n];
  }

  /** One encoding per record: equal encodings, followed by anything, come from equal fields. */
  lemma EncodedInjective(H: Hash, f: Fields, g: Fields, s: Bytes, t: Bytes)
    requires Encodable(f) && Encodable(g)
    requires Encoded(H, f) + s == Encoded(H, g) + t
    ensures f == g && s == t
  {
    DecodeEncoded(H, f, s);
    DecodeEncoded(H, g, t);
    assert f == RecordOf(H, f).AsFields();
    assert s == (Encoded(H, f) + s)[RecordLength(f)..];
  }

  /** Equal commitment preimages come from equal fields. */
  lemma PreimageInjective(H: Hash, f: Fields, g: Fields)
    requires |f.payload| <= MAX_PAYLOAD_BYTES && |g.payload| <= MAX_PAYLOAD_BYTES
    requires PreimageOf(H, f) == PreimageOf(H, g)
    ensures f == g
  {
    hide LE16, LE32, LE64, U16LE, U32LE, U64LE;
    var p := PreimageOf(H, f);
    assert Encoded(H, f)[..|p|] == p;
    EncodedLayout(H, f, []);
    EncodedLayout(H, g, []);
    assert Encoded(H, f) + [] == Encoded(H, f) && Encoded(H, g) + [] == Encoded(H, g);
    IdentityLayout(f.sequence, f.txid, f.rtype);
    IdentityLayout(g.sequence, g.txid, g.rtype);
  }

  // ---------- cuts and windows ----------

  /** A record cut anywhere before its end is a torn candidate, never corruption. */
  lemma CutIsIncomplete(H: Hash, f: Fields, k: nat)
    requires Encodable(f)
    requires k < RecordLength(f)
    ensures DecodeRecord(H, Encoded(H, f)[..k]) == Err(Incomplete)
  {
    hide LE16, LE32, LE64, U16LE, U32LE, U64LE;
    var e := Encoded(H, f);
    var b := e[..k];
    EncodedLayout(H, f, []);
    assert e + [] == e;
    FramingLayout(RecordLength(f), []);
    assert Framing(RecordLength(f)) + [] == Framing(RecordLength(f)) == e[..16];
    if k >= 8 {
      assert b[..8] == e[..16][..8];
    }
    if k >= 16 {
      assert b[8..10] == e[..16][8..10] && b[10..12] == e[..16][10..12] && b[12..16] == e[..16][12..16];
    }
  }

  lemma FramedIsStable(H: Hash, b: Bytes, k: nat, len: u32)
    requires RECORD_OVERHEAD <= len <= MAX_RECORD_BYTES && len <= k <= |b|
    ensures DecodeFramed(H, b[..k], len) == DecodeFramed(H, b, len)
  {
    hide U16LE, U32LE, U64LE;
    var c := b[..k];
    var end := len - 44;
    assert c[16..24] == b[16..24] && c[24..40] == b[24..40] && c[40..42] == b[40..42] && c[42..44] == b[42..44];
    assert c[44..76] == b[44..76] && c[76..108] == b[76..108] && c[108..end] == b[108..end];
    assert c[end..end + 32] == b[end..end + 32] && c[end + 32..end + 40] == b[end + 32..end + 40]
        && c[end + 40..end + 44] == b[end + 40..end + 44];
  }

  /** A decision other than `Incomplete` depends only on the bytes that led to it. */
  lemma DecisionIsStable(H: Hash, b: Bytes, k: nat)
    requires k <= |b|
    requires DecodeRecord(H, b[..k]) != Err(Incomplete)
    ensures DecodeRecord(H, b) == DecodeRecord(H, b[..k])
  {
    hide U16LE, U32LE, U64LE;
    var c := b[..k];
    assert c[..8] == b[..8];
    if k >= 16 {
      assert c[8..10] == b[8..10] && c[10..12] == b[10..12] && c[12..16] == b[12..16];
      var len := U32LE(b[12..16]);
      if RECORD_OVERHEAD <= len <= MAX_RECORD_BYTES && len <= k {
        FramedIsStable(H, b, k, len);
      }
    }
  }

  /** Peeking at no more than MAX_RECORD_BYTES bytes loses nothing. */
  lemma WindowSuffices(H: Hash, b: Bytes)
    requires |b| > MAX_RECORD_BYTES
    ensures DecodeRecord(H, b[..MAX_RECORD_BYTES]) == DecodeRecord(H, b)
  {
    DecisionIsStable(H, b, MAX_RECORD_BYTES);
  }

  // ---------- the same facts about whole records ----------

  /** A record as DecodeRecord reports it: both digests are the right ones. */
  predicate Genuine(H: Hash, r: Record)
  {
    Encodable(r.AsFields()) && r == RecordOf(H, r.AsFields())
  }

  /** The bytes of a record. */
  function Image(H: Hash, r: Record): (b: Bytes)
    requires Genuine(H, r)
    ensures |b| == r.length && RECORD_OVERHEAD <= |b| <= MAX_RECORD_BYTES
  {
    Encoded(H, r.AsFields())
  }

  /** The bytes a record's commitment is the digest of. */
  function Committed(H: Hash, r: Record): (b: Bytes)
    requires Genuine(H, r)
    ensures H(b) == r.commitment
  {
    PreimageOf(H, r.AsFields())
  }

  lemma DecodeImage(H: Hash, r: Record, tail: Bytes)
    requires Genuine(H, r)
    ensures DecodeRecord(H, Image(H, r) + tail) == Ok(r, |Image(H, r)|)
  {
    DecodeEncoded(H, r.AsFields(), tail);
  }

  lemma DecodedIsGenuine(H: Hash, b: Bytes)
    requires DecodeRecord(H, b).Ok?
    ensures var d := DecodeRecord(H, b); Genuine(H, d.rec) && b[..d.n] == Image(H, d.rec) && d.rec.sequence >= 1
  {
    EncodeDecoded(H, b);
  }

  lemma CutImage(H: Hash, r: Record, k: nat)
    requires Genuine(H, r) && k < |Image(H, r)|
    ensures DecodeRecord(H, Image(H, r)[..k]) == Err(Incomplete)
  {
    CutIsIncomplete(H, r.AsFields(), k);
  }

  lemma CommittedInjective(H: Hash, r: Record, s: Record)
    requires Genuine(H, r) && Genuine(H, s) && Committed(H, r) == Committed(H, s)
    ensures r == s
  {
    PreimageInjective(H, r.AsFields(), s.AsFields());
  }

  // ---------- the encoder as the source writes it ----------

  method CommitmentPreimage(len: u32, seqNo: u64, txid: TxnId, rtype: u16, pdig: Digest, prev: Digest, payload: Bytes)
    returns (buf: array<byte>)
    ensures fresh(buf) && buf[..] == Preimage(len, seqNo, txid, rtype, pdig, prev, payload)
  {
    hide LE16, LE32, LE64;
    buf := new byte[108 + |payload|](_ => 0);
    FillHeader(buf, len, seqNo, txid, rtype, pdig, prev);
    CopyInto(buf, 108, payload);
  }

  method FillFraming(out: array<byte>, len: u32)
    requires out.Length >= 16
    modifies out
    ensures out[..] == Framing(len) + old(out[16..])
  {
    hide LE16, LE32, LE64;
    CopyInto(out, 0, RECORD_MAGIC);
    PutU16LE(out, 8, FORMAT_VERSION);
    PutU16LE(out, 10, HEADER_LENGTH);
    PutU32LE(out, 12, len);
  }

  method FillIdentity(out: array<byte>, seqNo: u64, txid: TxnId, rtype: u16)
    requires out.Length >= 44
    modifies out
    ensures out[..] == old(out[..16]) + Identity(seqNo, txid, rtype) + old(out[44..])
  {
    hide LE16, LE32, LE64;
    PutU64LE(out, 16, seqNo);
    CopyInto(out, 24, txid);
    PutU16LE(out, 40, rtype);
    PutU16LE(out, 42, 0);
  }

  method FillHeader(out: array<byte>, len: u32, seqNo: u64, txid: TxnId, rtype: u16, pdig: Digest, prev: Digest)
    requires out.Length >= 108
    modifies out
    ensures out[..] == Header(len, seqNo, txid, rtype, pdig, prev) + old(out[108..])
  {
    hide Framing, Identity;
    ghost var rest := out[108..];
    FillFraming(out, len);
    FillIdentity(out, seqNo, txid, rtype);
    ghost var done := Framing(len) + Identity(seqNo, txid, rtype);
    assert out[..44] == done;
    assert out[108..] == rest;
    CopyInto(out, 44, pdig);
    assert out[..76] == done + pdig;
    assert out[108..] == rest;
    CopyInto(out, 76, prev);
    assert out[..108] == done + pdig + prev;
    assert out[..] == out[..108] + out[108..];
  }

  method FillTrailer(out: array<byte>, off: nat, commitment: Digest, len: u32)
    requires off + 44 == out.Length
    modifies out
    ensures out[..] == old(out[..off]) + Trailer(commitment, len)
  {
    hide LE32;
    ghost var before := out[..off];
    CopyInto(out, off, commitment);
    assert out[..off + 32] == before + commitment;
    CopyInto(out, off + 32, TRAILER_MAGIC);
    assert out[..off + 40] == before + commitment + TRAILER_MAGIC;
    PutU32LE(out, off + 40, len);
    assert out[..] == before + (commitment + TRAILER_MAGIC + LE32(len));
  }

  /** EncodeRecord succeeds exactly on encodable fields and then yields the canonical bytes. */
  method EncodeRecord(H: Hash, f: Fields) returns (r: EncodeResult)
    ensures r.Encoding? <==> Encodable(f)
    ensures r.Encoding? ==> r.bytes == Encoded(H, f)
    ensures r.Refused? && f.sequence == 0 ==> r.kind == NonCanonical
    ensures r.Refused? && f.sequence > 0 && !ValidRecordType(f.rtype) ==> r.kind == Unsupported
    ensures r.Refused? && f.sequence == 1 && ValidRecordType(f.rtype) && f.prev != GENESIS ==> r.kind == NonCanonical
    ensures r.Refused? && f.sequence > 0 && ValidRecordType(f.rtype) && (f.sequence == 1 ==> f.prev == GENESIS) ==>
      r.kind == Limit
  {
    hide LE16, LE32, LE64;
    if f.sequence == 0 { return Refused(NonCanonical); }
    if !ValidRecordType(f.rtype) { return Refused(Unsupported); }
    if f.sequence == 1 && f.prev != GENESIS { return Refused(NonCanonical); }
    if |f.payload| > MAX_PAYLOAD_BYTES { return Refused(Limit); }
    hide Header, Trailer;
    var len := RecordLength(f);
    var pdig := H(f.payload);
    var out := new byte[len](_ => 0);
    FillHeader(out, len, f.sequence, f.txid, f.rtype, pdig, f.prev);
    CopyInto(out, 108, f.payload);
    var off := 108 + |f.payload|;
    assert out[..off] == PreimageOf(H, f);
    var pre := CommitmentPreimage(len, f.sequence, f.txid, f.rtype, pdig, f.prev, f.payload);
    FillTrailer(out, off, H(pre[..]), len);
    return Encoding(out[..]);
  }
}
