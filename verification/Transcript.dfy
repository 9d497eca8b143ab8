/**
 The negotiation transcript and the keyed functions built on HMAC-SHA256
 (internal/crypto). HMAC and the AEAD are parameters, like the hash.
 */
module Transcript {
  import opened Bytes
  import opened JournalPayload

  type SessionId = TxnId

  type Mac = (Bytes, Bytes) -> Digest

  /** The cryptographic functions: SHA-256, HMAC-SHA256, and the AEAD under (key, sequence, associated data). */
  datatype Crypto = Crypto(
    hash: Hash, hmac: Mac,
    seal: (Bytes, u64, Bytes, Bytes) -> Bytes,
    open: (Bytes, u64, Bytes, Bytes) -> Option<Bytes>)

  const MAX_LABEL := 65535
  const MAX_DATA := 0x10_0000

  datatype Field = Field(name: Bytes, data: Bytes)

  predicate Appendable(f: Field)
  {
    0 < |f.name| <= MAX_LABEL && |f.data| <= MAX_DATA
  }

  function FieldBytes(f: Field): Bytes
    requires Appendable(f)
  {
    LE32(|f.name|) + f.name + LE32(|f.data|) + f.data
  }

  /** What a transcript has been fed after appending fs in order. */
  function Written(fs: seq<Field>): Bytes
    requires forall i | 0 <= i < |fs| :: Appendable(fs[i])
  {
    if fs == [] then [] else FieldBytes(fs[0]) + Written(fs[1..])
  }

  lemma Prefixed(n: u32, m: u32, x: Bytes, y: Bytes)
    requires LE32(n) + x == LE32(m) + y
    ensures n == m && x == y
  {
    hide LE32, U32LE;
    assert (LE32(n) + x)[..4] == LE32(n) && (LE32(m) + y)[..4] == LE32(m);
    assert (LE32(n) + x)[4..] == x && (LE32(m) + y)[4..] == y;
    ReadWrite32(n);
    ReadWrite32(m);
  }

  lemma PrefixedString(a: Bytes, b: Bytes, x: Bytes, y: Bytes)
    requires |a| < 0x1_0000_0000 && |b| < 0x1_0000_0000
    requires LE32(|a|) + (a + x) == LE32(|b|) + (b + y)
    ensures a == b && x == y
  {
    hide LE32;
    Prefixed(|a|, |b|, a + x, b + y);
    assert (a + x)[..|a|] == a && (b + y)[..|b|] == b;
    assert (a + x)[|a|..] == x && (b + y)[|b|..] == y;
  }

  lemma FieldInjective(f: Field, g: Field, x: Bytes, y: Bytes)
    requires Appendable(f) && Appendable(g)
    requires FieldBytes(f) + x == FieldBytes(g) + y
    ensures f == g && x == y
  {
    hide LE32;
    var s, t := LE32(|f.data|) + (f.data + x), LE32(|g.data|) + (g.data + y);
    assert FieldBytes(f) + x == LE32(|f.name|) + (f.name + s);
    assert FieldBytes(g) + y == LE32(|g.name|) + (g.name + t);
    PrefixedString(f.name, g.name, s, t);
    PrefixedString(f.data, g.data, x, y);
  }

  /** Different field sequences never feed the hash the same bytes. */
  lemma {:induction false} WrittenInjective(fs: seq<Field>, gs: seq<Field>)
    requires forall i | 0 <= i < |fs| :: Appendable(fs[i])
    requires forall i | 0 <= i < |gs| :: Appendable(gs[i])
    requires Written(fs) == Written(gs)
    ensures fs == gs
  {
    hide FieldBytes, Appendable;
    if fs == [] || gs == [] {
      if fs != [] { NeverEmpty(fs[0]); }
      if gs != [] { NeverEmpty(gs[0]); }
    } else {
      FieldInjective(fs[0], gs[0], Written(fs[1..]), Written(gs[1..]));
      WrittenInjective(fs[1..], gs[1..]);
      assert fs == [fs[0]] + fs[1..] && gs == [gs[0]] + gs[1..];
    }
  }

  lemma NeverEmpty(f: Field)
    requires Appendable(f)
    ensures FieldBytes(f) != []
  {
  }

  /** Equal transcript digests: the same steps were bound, or here is a collision. */
  lemma DigestBinds(H: Hash, fs: seq<Field>, gs: seq<Field>)
    requires forall i | 0 <= i < |fs| :: Appendable(fs[i])
    requires forall i | 0 <= i < |gs| :: Appendable(gs[i])
    requires H(Written(fs)) == H(Written(gs))
    ensures fs == gs || IsCollision(H, Written(fs), Written(gs))
  {
    if Written(fs) == Written(gs) {
      WrittenInjective(fs, gs);
    }
  }

  lemma {:induction false} WrittenSnoc(fs: seq<Field>, f: Field)
    requires (forall i | 0 <= i < |fs| :: Appendable(fs[i])) && Appendable(f)
    ensures forall i | 0 <= i < |fs + [f]| :: Appendable((fs + [f])[i])
    ensures Written(fs + [f]) == Written(fs) + FieldBytes(f)
  {
    hide FieldBytes, Appendable;
    if fs == [] {
      assert [f][1..] == [] && fs + [f] == [f];
    } else {
      WrittenSnoc(fs[1..], f);
      assert (fs + [f])[1..] == fs[1..] + [f];
      assert (fs + [f])[0] == fs[0];
    }
  }

  // ---------- a running transcript ----------

  /** A transcript, or none; bind ignores the fields Append refuses. */
  function Bind(t: Option<Bytes>, name: Bytes, data: Bytes): Option<Bytes>
  {
    if t.Some? && Appendable(Field(name, data)) then Some(t.value + FieldBytes(Field(name, data))) else t
  }

  function DigestOf(H: Hash, t: Option<Bytes>): Option<Digest>
  {
    if t.Some? then Some(H(t.value)) else None
  }

  /** crypto.Transcript: the bytes its running hash has been fed. */
  class RunningHash {
    var fed: Bytes
    ghost var fields: seq<Field>

    ghost predicate Valid()
      reads this
    {
      (forall i | 0 <= i < |fields| :: Appendable(fields[i])) && fed == Written(fields)
    }

    constructor ()
      ensures Valid() && fed == [] && fields == []
    {
      fed, fields := [], [];
    }

    /** Append: nothing is fed unless everything is. */
    method Append(name: Bytes, data: Bytes) returns (ok: bool)
      requires Valid()
      modifies this
      ensures Valid() && Some(fed) == Bind(Some(old(fed)), name, data)
      ensures ok <==> Appendable(Field(name, data))
      ensures fields == if ok then old(fields) + [Field(name, data)] else old(fields)
    {
      hide LE32, Written;
      if |name| == 0 { return false; }
      if |name| > MAX_LABEL || |data| > MAX_DATA { return false; }
      WrittenSnoc(fields, Field(name, data));
      ghost var before := fed;
      fed := fed + LE32(|name|);
      fed := fed + name;
      fed := fed + LE32(|data|);
      fed := fed + data;
      assert fed == before + FieldBytes(Field(name, data));
      fields := fields + [Field(name, data)];
      return true;
    }
  }

  // ---------- keys and proofs ----------

  const ZERO_SALT: Bytes := GENESIS

  /** HKDFSHA256 for the one length in use, 32: extract with a zero salt, one expand block. */
  function Hkdf32(hmac: Mac, ikm: Bytes, info: Bytes): Digest
  {
    hmac(hmac(ZERO_SALT, ikm), info + [1])
  }

  const MIN_KEY := 16

  // "i2r" and "r2i"
  const I2R: Bytes := [105, 50, 114]
  const R2I: Bytes := [114, 50, 105]

  // "integris-peer-auth-hmac-sha256-v1", then a zero byte
  const PEER_AUTH: Bytes := [105, 110, 116, 101, 103, 114, 105, 115, 45, 112, 101, 101, 114, 45, 97, 117, 116, 104,
                             45, 104, 109, 97, 99, 45, 115, 104, 97, 50, 53, 54, 45, 118, 49, 0]

  // "integris-archive-auth-hmac-sha256-v1", then a zero byte
  const ARCHIVE_AUTH: Bytes := [105, 110, 116, 101, 103, 114, 105, 115, 45, 97, 114, 99, 104, 105, 118, 101, 45,
                                97, 117, 116, 104, 45, 104, 109, 97, 99, 45, 115, 104, 97, 50, 53, 54, 45, 118, 49, 0]

  /** "integris-session-aead-chacha20poly1305-v1" */
  function SuiteAead(): (s: Bytes)
    ensures |s| == 41
  {
    [105, 110, 116, 101, 103, 114, 105, 115, 45, 115, 101, 115, 115, 105, 111, 110, 45, 97, 101, 97, 100, 45,
     99, 104, 97, 99, 104, 97, 50, 48, 112, 111, 108, 121, 49, 51, 48, 53, 45, 118, 49]
  }

  function PeerAuthKey(hmac: Mac, root: Bytes, id: SessionId): Digest
  {
    Hkdf32(hmac, root, PEER_AUTH + id)
  }

  function ArchiveAuthKey(hmac: Mac, root: Bytes, id: SessionId): Digest
  {
    Hkdf32(hmac, root, ARCHIVE_AUTH + id)
  }

  /** What a peer proof authenticates. */
  function PeerMessage(id: SessionId, base: Digest, dir: Bytes): Bytes
  {
    PEER_AUTH + id + base + dir
  }

  /** What the archive proof authenticates. */
  function ArchiveMessage(id: SessionId, base: Digest): Bytes
  {
    ARCHIVE_AUTH + id + base
  }

  function PeerAuthProof(hmac: Mac, key: Bytes, base: Digest, id: SessionId, dir: Bytes): Option<Bytes>
  {
    if |key| < MIN_KEY || (dir != I2R && dir != R2I) then None
    else Some(hmac(key, PeerMessage(id, base, dir)))
  }

  function ArchiveAuthProof(hmac: Mac, key: Bytes, base: Digest, id: SessionId): Option<Bytes>
  {
    if |key| < MIN_KEY then None else Some(hmac(key, ArchiveMessage(id, base)))
  }

  function TrafficKey(hmac: Mac, root: Bytes, base: Digest, id: SessionId, suite: Bytes): Option<Digest>
  {
    if suite != SuiteAead() || |root| < MIN_KEY then None
    else Some(Hkdf32(hmac, root, suite + [0] + id + base))
  }
}
