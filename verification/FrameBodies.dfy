/**
 The bodies of the control and data frames (internal/protocol/negotiate.go, peerauth.go,
 data_chunk.go): what encodes is read back, and what is read has one encoding.
 */
module FrameBodies {
  import opened Bytes
  import opened JournalPayload
  import opened Transcript
  import opened ProtocolFrame

  const MAX_VERSIONS := 8
  const MAX_SUITES := 8
  const MAX_SUITE_ID := 96

  // ---------- offers ----------

  predicate SuiteFits(s: Bytes)
  {
    0 < |s| <= MAX_SUITE_ID
  }

  predicate OfferFits(vers: seq<byte>, suites: seq<Bytes>)
  {
    && 0 < |vers| <= MAX_VERSIONS && |suites| <= MAX_SUITES
    && forall i | 0 <= i < |suites| :: SuiteFits(suites[i])
  }

  function SuitesBytes(suites: seq<Bytes>): Bytes
    requires forall i | 0 <= i < |suites| :: SuiteFits(suites[i])
  {
    if suites == [] then []
    else
      assert SuiteFits(suites[0]);
      [|suites[0]|] + suites[0] + SuitesBytes(suites[1..])
  }

  function EncodeOffer(vers: seq<byte>, suites: seq<Bytes>): Option<Bytes>
  {
    if OfferFits(vers, suites) then Some([|vers|] + vers + [|suites|] + SuitesBytes(suites)) else None
  }

  /** k suites off the front, and nothing left over. */
  function TakeSuites(rest: Bytes, k: nat): Option<seq<Bytes>>
    decreases k
  {
    if k == 0 then if rest == [] then Some([]) else None
    else if rest == [] then None
    else
      var n := rest[0];
      if n == 0 || n > MAX_SUITE_ID || |rest| < 1 + n then None
      else Prepend(rest[1..1 + n], TakeSuites(rest[1 + n..], k - 1))
  }

  function Prepend(s: Bytes, r: Option<seq<Bytes>>): Option<seq<Bytes>>
  {
    if r.Some? then Some([s] + r.value) else None
  }

  function ParseOffer(body: Bytes): Option<(seq<byte>, seq<Bytes>)>
  {
    if |body| < 2 then None
    else
      var n := body[0];
      if n == 0 || n > MAX_VERSIONS || |body| < 1 + n + 1 || body[1 + n] > MAX_SUITES then None
      else
        var suites := TakeSuites(body[2 + n..], body[1 + n]);
        if suites.Some? then Some((body[1..1 + n], suites.value)) else None
  }

  lemma {:induction false} TakeWritten(suites: seq<Bytes>)
    requires forall i | 0 <= i < |suites| :: SuiteFits(suites[i])
    ensures TakeSuites(SuitesBytes(suites), |suites|) == Some(suites)
  {
    if suites != [] {
      var b := SuitesBytes(suites);
      var n := |suites[0]|;
      assert b[1..1 + n] == suites[0] && b[1 + n..] == SuitesBytes(suites[1..]);
      TakeWritten(suites[1..]);
      assert suites == [suites[0]] + suites[1..];
    }
  }

  lemma {:induction false} WrittenTaken(rest: Bytes, k: nat)
    requires TakeSuites(rest, k).Some?
    ensures var s := TakeSuites(rest, k).value;
            |s| == k && (forall i | 0 <= i < |s| :: SuiteFits(s[i])) && SuitesBytes(s) == rest
    decreases k
  {
    if k > 0 {
      var n := rest[0];
      WrittenTaken(rest[1 + n..], k - 1);
      var s, t := TakeSuites(rest, k).value, TakeSuites(rest[1 + n..], k - 1).value;
      assert s[1..] == t && s[0] == rest[1..1 + n];
      assert rest == [n] + rest[1..1 + n] + rest[1 + n..];
    }
  }

  /** Every offer that encodes is read back. */
  lemma OfferRoundTrip(vers: seq<byte>, suites: seq<Bytes>)
    requires OfferFits(vers, suites)
    ensures ParseOffer(EncodeOffer(vers, suites).value) == Some((vers, suites))
  {
    hide SuitesBytes, TakeSuites, SuiteFits;
    TakeWritten(suites);
    var b := EncodeOffer(vers, suites).value;
    assert b[1..1 + |vers|] == vers && b[1 + |vers|] == |suites| && b[2 + |vers|..] == SuitesBytes(suites);
  }

  /** Every offer that is read has that one encoding. */
  lemma OfferIsCanonical(body: Bytes)
    requires ParseOffer(body).Some?
    ensures EncodeOffer(ParseOffer(body).value.0, ParseOffer(body).value.1) == Some(body)
  {
    hide SuitesBytes, TakeSuites, SuiteFits;
    var n := body[0];
    WrittenTaken(body[2 + n..], body[1 + n]);
    assert body == [n] + body[1..1 + n] + [body[1 + n]] + body[2 + n..];
  }

  lemma {:induction false} SuitesSnoc(suites: seq<Bytes>, i: nat)
    requires i < |suites| && forall k | 0 <= k < |suites| :: SuiteFits(suites[k])
    ensures SuitesBytes(suites[..i + 1]) == SuitesBytes(suites[..i]) + [|suites[i]|] + suites[i]
    decreases i
  {
    if i == 0 {
      assert suites[..1][1..] == [];
    } else {
      assert suites[..i + 1][1..] == suites[1..][..i] && suites[..i][1..] == suites[1..][..i - 1];
      SuitesSnoc(suites[1..], i - 1);
    }
  }

  /** EncodeNegotiateOfferBody */
  method EncodeNegotiateOfferBody(vers: seq<byte>, suites: seq<Bytes>) returns (r: Option<Bytes>)
    ensures r == EncodeOffer(vers, suites)
  {
    if |vers| == 0 || |vers| > MAX_VERSIONS { return None; }
    if |suites| > MAX_SUITES { return None; }
    for i := 0 to |suites|
      invariant forall k | 0 <= k < i :: SuiteFits(suites[k])
    {
      if suites[i] == [] { return None; }
      if |suites[i]| > MAX_SUITE_ID { return None; }
    }
    var out: Bytes := [|vers|];
    assert vers[..0] == [];
    for i := 0 to |vers|
      invariant out == [|vers|] + vers[..i]
    {
      out := out + [vers[i]];
    }
    assert vers[..|vers|] == vers;
    out := out + [|suites|];
    ghost var head := out;
    assert suites[..0] == [];
    for i := 0 to |suites|
      invariant out == head + SuitesBytes(suites[..i])
    {
      SuitesSnoc(suites, i);
      out := out + [|suites[i]|];
      out := out + suites[i];
    }
    assert suites[..|suites|] == suites;
    return Some(out);
  }

  /** The suite loop of ParseNegotiateOfferBody, with its advancing offset. */
  method ReadSuites(body: Bytes, start: nat, count: nat) returns (r: Option<seq<Bytes>>)
    requires start <= |body|
    ensures r == TakeSuites(body[start..], count)
  {
    hide TakeSuites;
    var off := start;
    var suites: seq<Bytes> := [];
    ghost var all := TakeSuites(body[off..], count);
    PrependNone(all);
    for i := 0 to count
      invariant 0 <= off <= |body|
      invariant all == PrependAll(suites, TakeSuites(body[off..], count - i))
    {
      if off >= |body| {
        TakeAtEnd(body, off, count - i);
        return None;
      }
      var n := body[off];
      TakeOne(body, off, count - i);
      off := off + 1;
      if n == 0 || n > MAX_SUITE_ID { return None; }
      if off + n > |body| { return None; }
      PrependOne(suites, body[off..off + n], TakeSuites(body[off + n..], count - i - 1));
      suites := suites + [body[off..off + n]];
      off := off + n;
    }
    TakeAtEnd(body, off, 0);
    if off != |body| { return None; }
    assert suites + [] == suites;
    return Some(suites);
  }

  lemma TakeAtEnd(body: Bytes, off: nat, k: nat)
    requires off <= |body| && (k == 0 || off == |body|)
    ensures TakeSuites(body[off..], k) == if k == 0 && off == |body| then Some([]) else None
  {
  }

  lemma TakeOne(body: Bytes, off: nat, k: nat)
    requires off < |body| && k > 0
    ensures var n := body[off];
            TakeSuites(body[off..], k) ==
            if n == 0 || n > MAX_SUITE_ID || off + 1 + n > |body| then None
            else Prepend(body[off + 1..off + 1 + n], TakeSuites(body[off + 1 + n..], k - 1))
  {
    var rest, n := body[off..], body[off];
    if off + 1 + n <= |body| {
      assert rest[1..1 + n] == body[off + 1..off + 1 + n] && rest[1 + n..] == body[off + 1 + n..];
    }
  }

  /** ParseNegotiateOfferBody */
  method ParseNegotiateOfferBody(body: Bytes) returns (r: Option<(seq<byte>, seq<Bytes>)>)
    ensures r == ParseOffer(body)
  {
    hide TakeSuites;
    if |body| < 2 { return None; }
    var nV := body[0];
    if nV == 0 || nV > MAX_VERSIONS { return None; }
    if |body| < 1 + nV + 1 { return None; }
    var vers: seq<byte> := [];
    for i := 0 to nV
      invariant vers == body[1..1 + i]
    {
      vers := vers + [body[1 + i]];
    }
    if body[1 + nV] > MAX_SUITES { return None; }
    var suites := ReadSuites(body, 2 + nV, body[1 + nV]);
    if suites.None? { return None; }
    return Some((vers, suites.value));
  }

  lemma PrependNone(r: Option<seq<Bytes>>)
    ensures PrependAll([], r) == r
  {
    assert r.Some? ==> [] + r.value == r.value;
  }

  function PrependAll(s: seq<Bytes>, r: Option<seq<Bytes>>): Option<seq<Bytes>>
  {
    if r.Some? then Some(s + r.value) else None
  }

  lemma PrependOne(s: seq<Bytes>, x: Bytes, r: Option<seq<Bytes>>)
    ensures PrependAll(s, Prepend(x, r)) == PrependAll(s + [x], r)
  {
    if r.Some? {
      assert s + ([x] + r.value) == s + [x] + r.value;
    }
  }

  // ---------- accepts ----------

  function EncodeAccept(version: byte, suite: Bytes): Option<Bytes>
  {
    if version == 0 || |suite| > MAX_SUITE_ID then None else Some([version, |suite|] + suite)
  }

  function ParseAccept(body: Bytes): Option<(byte, Bytes)>
  {
    if |body| < 2 || body[0] == 0 || body[1] > MAX_SUITE_ID || |body| != 2 + body[1] then None
    else Some((body[0], body[2..]))
  }

  /** Accept bodies round trip both ways. */
  lemma AcceptRoundTrip(version: byte, suite: Bytes, body: Bytes)
    ensures EncodeAccept(version, suite) == Some(body) <==> ParseAccept(body) == Some((version, suite))
  {
    if ParseAccept(body).Some? {
      assert body == [body[0], body[1]] + body[2..];
    }
    if EncodeAccept(version, suite) == Some(body) {
      assert body[2..] == suite;
    }
  }

  // ---------- peer authentication ----------

  const DIRECTION_BYTES := 3

  function EncodePeerAuth(dir: Bytes, proof: Bytes): Bytes
  {
    dir + proof
  }

  function ParsePeerAuth(body: Bytes): Option<(Bytes, Bytes)>
  {
    if |body| < DIRECTION_BYTES + 16 then None
    else if body[..3] != I2R && body[..3] != R2I then None
    else Some((body[..3], body[3..]))
  }

  lemma PeerAuthRoundTrip(dir: Bytes, proof: Bytes)
    requires (dir == I2R || dir == R2I) && |proof| >= 16
    ensures ParsePeerAuth(EncodePeerAuth(dir, proof)) == Some((dir, proof))
  {
    assert (dir + proof)[..3] == dir && (dir + proof)[3..] == proof;
  }

  // ---------- data chunks ----------

  const CHUNK_HEADER := 12
  const MAX_CHUNK := MAX_BODY - CHUNK_HEADER

  predicate ChunkFits(offset: u64, data: Bytes)
  {
    |data| <= MAX_CHUNK && offset + |data| < 0x1_0000_0000_0000_0000
  }

  function EncodeChunk(offset: u64, data: Bytes): Option<Bytes>
  {
    if ChunkFits(offset, data) then Some(LE64(offset) + LE32(|data|) + data) else None
  }

  function ParseChunk(body: Bytes): Option<(u64, Bytes)>
  {
    if |body| < CHUNK_HEADER then None
    else if CHUNK_HEADER + U32LE(body[8..12]) != |body| then None
    else if !ChunkFits(U64LE(body[..8]), body[12..]) then None
    else Some((U64LE(body[..8]), body[12..]))
  }

  /** Chunk envelopes round trip both ways. */
  lemma ChunkRoundTrip(offset: u64, data: Bytes, body: Bytes)
    ensures EncodeChunk(offset, data) == Some(body) <==> ParseChunk(body) == Some((offset, data))
  {
    hide LE64, LE32, U64LE, U32LE;
    if EncodeChunk(offset, data) == Some(body) {
      assert body[..8] == LE64(offset) && body[8..12] == LE32(|data|) && body[12..] == data;
      ReadWrite64(offset);
      ReadWrite32(|data|);
    }
    if ParseChunk(body) == Some((offset, data)) {
      WriteRead64(body[..8]);
      WriteRead32(body[8..12]);
      assert body == body[..8] + body[8..12] + body[12..];
    }
  }
}
