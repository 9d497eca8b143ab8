/**
 Byte strings, fixed-width integers and little-endian coding (internal/codec/le.go).

 SHA-256 is a parameter of the whole development: a value of type `Hash` stands for
 it, so every theorem holds for every function from byte strings to 32-byte digests.
 No result assumes that a hash is injective; where two equal digests matter, the two
 preimages are exhibited.
 */
module Bytes {

  type byte = x: int | 0 <= x < 0x100
  type u16 = x: int | 0 <= x < 0x1_0000
  type u32 = x: int | 0 <= x < 0x1_0000_0000
  type u64 = x: int | 0 <= x < 0x1_0000_0000_0000_0000

  type Bytes = seq<byte>

  const DIGEST_SIZE := 32
  const TXN_ID_SIZE := 16

  type Digest = d: Bytes | |d| == DIGEST_SIZE witness seq(DIGEST_SIZE, _ => 0)
  type TxnId = d: Bytes | |d| == TXN_ID_SIZE witness seq(TXN_ID_SIZE, _ => 0)

  type Hash = Bytes -> Digest

  /** The previous_commitment of the first record: 32 zero bytes. */
  const GENESIS: Digest := [0, 0, 0, 0, 0, 0, 0, 0, 0, 0, 0, 0, 0, 0, 0, 0,
                            0, 0, 0, 0, 0, 0, 0, 0, 0, 0, 0, 0, 0, 0, 0, 0]

  /** Two different byte strings with the same digest. */
  predicate IsCollision(H: Hash, x: Bytes, y: Bytes)
  {
    x != y && H(x) == H(y)
  }

  function LE16(v: u16): (b: Bytes)
    ensures |b| == 2
  {
    [v % 256, v / 256]
  }

  function LE32(v: u32): (b: Bytes)
    ensures |b| == 4
  {
    LE16(v % 0x1_0000) + LE16(v / 0x1_0000)
  }

  function LE64(v: u64): (b: Bytes)
    ensures |b| == 8
  {
    LE32(v % 0x1_0000_0000) + LE32(v / 0x1_0000_0000)
  }

  function U16LE(b: Bytes): (v: u16)
    requires |b| == 2
    ensures LE16(v) == b
  {
    b[0] as int + 256 * (b[1] as int)
  }

  function U32LE(b: Bytes): (v: u32)
    requires |b| == 4
  {
    U16LE(b[..2]) as int + 0x1_0000 * (U16LE(b[2..]) as int)
  }

  function U64LE(b: Bytes): (v: u64)
    requires |b| == 8
  {
    U32LE(b[..4]) as int + 0x1_0000_0000 * (U32LE(b[4..]) as int)
  }

  /** Reading undoes writing and writing undoes reading, at each width. */
  lemma ReadWrite16(v: u16)
    ensures U16LE(LE16(v)) == v
  {
  }

  lemma ReadWrite32(v: u32)
    ensures U32LE(LE32(v)) == v
  {
    ReadWrite16(v % 0x1_0000);
    ReadWrite16(v / 0x1_0000);
    assert LE32(v)[..2] == LE16(v % 0x1_0000);
    assert LE32(v)[2..] == LE16(v / 0x1_0000);
  }

  lemma ReadWrite64(v: u64)
    ensures U64LE(LE64(v)) == v
  {
    ReadWrite32(v % 0x1_0000_0000);
    ReadWrite32(v / 0x1_0000_0000);
    assert LE64(v)[..4] == LE32(v % 0x1_0000_0000);
    assert LE64(v)[4..] == LE32(v / 0x1_0000_0000);
  }

  lemma WriteRead32(b: Bytes)
    requires |b| == 4
    ensures LE32(U32LE(b)) == b
  {
    var lo: int, hi: int := U16LE(b[..2]), U16LE(b[2..]);
    assert (lo + 0x1_0000 * hi) / 0x1_0000 == hi;
    assert b == b[..2] + b[2..];
  }

  lemma WriteRead64(b: Bytes)
    requires |b| == 8
    ensures LE64(U64LE(b)) == b
  {
    var lo: int, hi: int := U32LE(b[..4]), U32LE(b[4..]);
    assert (lo + 0x1_0000_0000 * hi) / 0x1_0000_0000 == hi;
    WriteRead32(b[..4]);
    WriteRead32(b[4..]);
    assert b == b[..4] + b[4..];
  }

  /** PutU16LE writes two bytes at off and nothing else. */
  method PutU16LE(b: array<byte>, off: nat, v: u16)
    requires off + 2 <= b.Length
    modifies b
    ensures b[..] == old(b[..off]) + LE16(v) + old(b[off + 2..])
  {
    b[off], b[off + 1] := v % 256, v / 256;
  }

  method PutU32LE(b: array<byte>, off: nat, v: u32)
    requires off + 4 <= b.Length
    modifies b
    ensures b[..] == old(b[..off]) + LE32(v) + old(b[off + 4..])
  {
    var lo, hi := v % 0x1_0000, v / 0x1_0000;
    b[off], b[off + 1], b[off + 2], b[off + 3] := lo % 256, lo / 256, hi % 256, hi / 256;
    assert LE32(v) == [lo % 256, lo / 256, hi % 256, hi / 256];
  }

  method PutU64LE(b: array<byte>, off: nat, v: u64)
    requires off + 8 <= b.Length
    modifies b
    ensures b[..] == old(b[..off]) + LE64(v) + old(b[off + 8..])
  {
    hide LE32, LE16;
    PutU32LE(b, off, v % 0x1_0000_0000);
    PutU32LE(b, off + 4, v / 0x1_0000_0000);
  }

  /** Go's copy into b at off. */
  method CopyInto(b: array<byte>, off: nat, src: Bytes)
    requires off + |src| <= b.Length
    modifies b
    ensures b[..] == old(b[..off]) + src + old(b[off + |src|..])
  {
    forall i | 0 <= i < |src| {
      b[off + i] := src[i];
    }
  }
}
