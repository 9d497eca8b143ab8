/**
 Reading a journal: the bounded-window reader (internal/journal/reader.go) and the
 independently written verifier (internal/journal/verify/verify.go).

 `Scan` is the common meaning of both loops. `ValidChain` and `Stream` say, without
 reference to any scanner, what a journal is: records numbered 1, 2, ... each naming
 the commitment of the one before it, laid end to end.
 */
module JournalScan {
  import opened Bytes
  import opened RecordCodec

  // ---------- what a journal is ----------

  predicate AllGenuine(H: Hash, rs: seq<Record>)
  {
    forall i | 0 <= i < |rs| :: Genuine(H, rs[i])
  }

  /** The commitment the record after rs has to name. */
  function Head(rs: seq<Record>): Digest
  {
    if rs == [] then GENESIS else rs[|rs| - 1].commitment
  }

  /** rs continues a chain at sequence number start whose last commitment is prev. */
  predicate ChainFrom(H: Hash, rs: seq<Record>, start: nat, prev: Digest)
  {
    && AllGenuine(H, rs)
    && (forall i | 0 <= i < |rs| :: rs[i].sequence == start + i)
    && (forall i | 0 <= i < |rs| :: rs[i].prev == Before(rs, i, prev))
  }

  /** The commitment that record i has to name. */
  function Before(rs: seq<Record>, i: nat, prev: Digest): Digest
    requires i <= |rs|
  {
    if i == 0 then prev else rs[i - 1].commitment
  }

  predicate ValidChain(H: Hash, rs: seq<Record>)
  {
    ChainFrom(H, rs, 1, GENESIS)
  }

  /** r may follow rs. */
  predicate Extends(H: Hash, rs: seq<Record>, r: Record)
  {
    Genuine(H, r) && r.sequence == |rs| + 1 && r.prev == Head(rs)
  }

  function Stream(H: Hash, rs: seq<Record>): Bytes
    requires AllGenuine(H, rs)
  {
    if rs == [] then [] else Image(H, rs[0]) + Stream(H, rs[1..])
  }

  lemma {:induction false} StreamConcat(H: Hash, a: seq<Record>, b: seq<Record>)
    requires AllGenuine(H, a) && AllGenuine(H, b)
    ensures AllGenuine(H, a + b)
    ensures Stream(H, a + b) == Stream(H, a) + Stream(H, b)
  {
    hide Genuine, Image;
    if a == [] {
      assert a + b == b;
    } else {
      StreamConcat(H, a[1..], b);
      assert (a + b)[1..] == a[1..] + b;
    }
  }

  lemma StreamSnoc(H: Hash, rs: seq<Record>, r: Record)
    requires AllGenuine(H, rs) && Genuine(H, r)
    ensures AllGenuine(H, rs + [r]) && Stream(H, rs + [r]) == Stream(H, rs) + Image(H, r)
  {
    hide Genuine, Image;
    StreamConcat(H, rs, [r]);
    assert Stream(H, [r]) == Image(H, r) + Stream(H, [r][1..]) == Image(H, r);
  }

  lemma ChainSnoc(H: Hash, rs: seq<Record>, r: Record)
    requires ValidChain(H, rs) && Extends(H, rs, r)
    ensures ValidChain(H, rs + [r]) && Head(rs + [r]) == r.commitment
  {
    hide Genuine;
    var all := rs + [r];
    forall i | 0 <= i < |all|
      ensures Genuine(H, all[i]) && all[i].sequence == 1 + i && all[i].prev == Before(all, i, GENESIS)
    {
      if i < |rs| {
        assert all[i] == rs[i] && Before(all, i, GENESIS) == Before(rs, i, GENESIS);
      }
    }
  }

  lemma ChainPrefix(H: Hash, rs: seq<Record>, n: nat)
    requires ValidChain(H, rs) && n <= |rs|
    ensures ValidChain(H, rs[..n]) && AllGenuine(H, rs[..n])
  {
    hide Genuine;
    forall i | 0 <= i < n
      ensures Genuine(H, rs[..n][i]) && rs[..n][i].sequence == 1 + i && rs[..n][i].prev == Before(rs[..n], i, GENESIS)
    {
      assert rs[..n][i] == rs[i] && Before(rs[..n], i, GENESIS) == Before(rs, i, GENESIS);
    }
  }

  /** The last record of a chain names the head of what comes before it. */
  lemma LastLink(H: Hash, rs: seq<Record>)
    requires ValidChain(H, rs) && rs != []
    ensures var i := |rs| - 1;
      Genuine(H, rs[i]) && rs[i].sequence == |rs| && rs[i].prev == Head(rs[..i])
  {
    hide Genuine;
    assert rs[|rs| - 1].prev == Before(rs, |rs| - 1, GENESIS);
  }

  // ---------- the scan ----------

  datatype End = Clean | Torn | Fatal

  datatype Scanned = Scanned(recs: seq<Record>, bytes: nat, end: End)

  /** The check both loops make on a decoded record. */
  predicate Links(r: Record, expected: nat, prev: Digest)
  {
    r.sequence == expected && r.prev == if expected == 1 then GENESIS else prev
  }

  function ScanFrom(H: Hash, data: Bytes, expected: nat, prev: Digest): (s: Scanned)
    ensures |s.recs| <= s.bytes <= |data|
    ensures s.end.Clean? <==> s.bytes == |data|
    decreases |data|
  {
    if data == [] then Scanned([], 0, Clean)
    else
      match DecodeRecord(H, data)
      case Err(kind) => Scanned([], 0, if kind.Incomplete? then Torn else Fatal)
      case Ok(rec, n) =>
        if !Links(rec, expected, prev) then Scanned([], 0, Fatal)
        else
          var rest := ScanFrom(H, data[n..], expected + 1, rec.commitment);
          Scanned([rec] + rest.recs, n + rest.bytes, rest.end)
  }

  function Scan(H: Hash, data: Bytes): (s: Scanned)
    ensures |s.recs| <= s.bytes <= |data|
    ensures s.end.Clean? <==> s.bytes == |data|
  {
    ScanFrom(H, data, 1, GENESIS)
  }

  lemma ChainCons(H: Hash, r: Record, rs: seq<Record>, start: nat, prev: Digest)
    requires Genuine(H, r) && r.sequence == start && r.prev == prev
    requires ChainFrom(H, rs, start + 1, r.commitment)
    ensures ChainFrom(H, [r] + rs, start, prev)
  {
    hide Genuine;
    var all := [r] + rs;
    forall i | 0 <= i < |all|
      ensures Genuine(H, all[i]) && all[i].sequence == start + i
      ensures all[i].prev == Before(all, i, prev)
    {
      if i > 0 {
        assert all[i] == rs[i - 1] && Before(all, i, prev) == Before(rs, i - 1, r.commitment);
      }
    }
  }

  lemma EmptyChain(H: Hash, start: nat, prev: Digest)
    ensures ChainFrom(H, [], start, prev)
  {
  }

  /** What a scan accepts is a chain, byte for byte, and it stops at the first thing that is not. */
  lemma {:induction false} ScanIsSound(H: Hash, data: Bytes, expected: nat, prev: Digest)
    requires expected == 1 ==> prev == GENESIS
    ensures var s := ScanFrom(H, data, expected, prev);
      && ChainFrom(H, s.recs, expected, prev)
      && data[..s.bytes] == Stream(H, s.recs)
      && (s.end.Torn? ==> DecodeRecord(H, data[s.bytes..]) == Err(Incomplete))
    decreases |data|
  {
    hide Genuine, Image, DecodeRecord, ChainFrom;
    var s := ScanFrom(H, data, expected, prev);
    if s.recs == [] {
      EmptyChain(H, expected, prev);
      assert data[s.bytes..] == data;
    } else {
      var d := DecodeRecord(H, data);
      DecodedIsGenuine(H, data);
      var t := ScanFrom(H, data[d.n..], expected + 1, d.rec.commitment);
      ScanIsSound(H, data[d.n..], expected + 1, d.rec.commitment);
      ChainCons(H, d.rec, t.recs, expected, prev);
      assert s.recs[1..] == t.recs;
      assert data[..s.bytes] == data[..d.n] + data[d.n..][..t.bytes];
      assert data[s.bytes..] == data[d.n..][t.bytes..];
    }
  }

  /** The scan of data is what was seen so far followed by a scan of the rest. */
  ghost predicate Remaining(H: Hash, data: Bytes, seen: seq<Record>, offset: nat)
    requires offset <= |data|
  {
    var rest := ScanFrom(H, data[offset..], |seen| + 1, Head(seen));
    Scan(H, data) == Scanned(seen + rest.recs, offset + rest.bytes, rest.end)
  }

  lemma RemainingStart(H: Hash, data: Bytes)
    ensures Remaining(H, data, [], 0)
  {
    hide DecodeRecord, ScanFrom;
    assert data[0..] == data;
    assert [] + Scan(H, data).recs == Scan(H, data).recs;
  }

  lemma RemainingAccept(H: Hash, data: Bytes, seen: seq<Record>, offset: nat, rec: Record, n: nat)
    requires offset < |data| && Remaining(H, data, seen, offset)
    requires DecodeRecord(H, data[offset..]) == Ok(rec, n) && Links(rec, |seen| + 1, Head(seen))
    ensures Remaining(H, data, seen + [rec], offset + n)
  {
    hide DecodeRecord, Links, Scan;
    var t := ScanFrom(H, data[offset..], |seen| + 1, Head(seen));
    var rest := ScanFrom(H, data[offset..][n..], |seen| + 2, rec.commitment);
    assert t == Scanned([rec] + rest.recs, n + rest.bytes, rest.end);
    hide ScanFrom;
    assert data[offset..][n..] == data[offset + n..];
    assert seen + ([rec] + rest.recs) == (seen + [rec]) + rest.recs;
  }

  lemma RemainingStop(H: Hash, data: Bytes, seen: seq<Record>, offset: nat)
    requires offset < |data| && Remaining(H, data, seen, offset)
    requires var d := DecodeRecord(H, data[offset..]); d.Ok? ==> !Links(d.rec, |seen| + 1, Head(seen))
    ensures var d := DecodeRecord(H, data[offset..]);
      Scan(H, data) == Scanned(seen, offset, if d == Err(Incomplete) then Torn else Fatal)
  {
    hide DecodeRecord, Links, Scan;
    assert seen + [] == seen;
  }

  lemma RemainingStep(H: Hash, data: Bytes, seen: seq<Record>, offset: nat)
    requires offset < |data| && Remaining(H, data, seen, offset)
    ensures match DecodeRecord(H, data[offset..])
      case Err(kind) => Scan(H, data) == Scanned(seen, offset, if kind.Incomplete? then Torn else Fatal)
      case Ok(rec, n) =>
        if Links(rec, |seen| + 1, Head(seen)) then Remaining(H, data, seen + [rec], offset + n)
        else Scan(H, data) == Scanned(seen, offset, Fatal)
  {
    hide DecodeRecord, Links, Scan, Remaining;
    var d := DecodeRecord(H, data[offset..]);
    if d.Ok? && Links(d.rec, |seen| + 1, Head(seen)) {
      RemainingAccept(H, data, seen, offset, d.rec, d.n);
    } else {
      RemainingStop(H, data, seen, offset);
    }
  }

  lemma RemainingEnd(H: Hash, data: Bytes, seen: seq<Record>)
    requires Remaining(H, data, seen, |data|)
    ensures Scan(H, data) == Scanned(seen, |data|, Clean)
  {
    hide DecodeRecord;
    assert seen + [] == seen;
  }

  /** A scan walks over every record of a chain and carries on after it. */
  lemma {:induction false} ScanIsComplete(H: Hash, rs: seq<Record>, tail: Bytes)
    requires ValidChain(H, rs)
    ensures Remaining(H, Stream(H, rs) + tail, rs, |Stream(H, rs)|)
    decreases |rs|
  {
    hide Genuine, Image, Remaining, DecodeRecord, ValidChain;
    if rs == [] {
      RemainingStart(H, tail);
      assert Stream(H, rs) + tail == tail;
    } else {
      var i := |rs| - 1;
      var a, r := rs[..i], rs[i];
      LastLink(H, rs);
      ChainPrefix(H, rs, i);
      assert rs == a + [r];
      StreamSnoc(H, a, r);
      var more := Image(H, r) + tail;
      var data := Stream(H, a) + more;
      assert Stream(H, rs) + tail == data;
      ScanIsComplete(H, a, more);
      assert data[|Stream(H, a)|..] == more;
      DecodeImage(H, r, tail);
      assert Links(r, |a| + 1, Head(a));
      RemainingStep(H, data, a, |Stream(H, a)|);
    }
  }

  lemma ScanOfStream(H: Hash, rs: seq<Record>)
    requires ValidChain(H, rs)
    ensures Scan(H, Stream(H, rs)) == Scanned(rs, |Stream(H, rs)|, Clean)
  {
    hide Genuine, Image, Remaining, Scan;
    ScanIsComplete(H, rs, []);
    assert Stream(H, rs) + [] == Stream(H, rs);
    RemainingEnd(H, Stream(H, rs), rs);
  }

  /** The accepted prefix is the longest one: every chain the data begins with is part of it. */
  lemma AcceptedIsLongest(H: Hash, data: Bytes, gs: seq<Record>)
    requires ValidChain(H, gs)
    requires Stream(H, gs) <= data
    ensures gs <= Scan(H, data).recs
  {
    hide Genuine, Image, ScanFrom;
    var tail := data[|Stream(H, gs)|..];
    assert data == Stream(H, gs) + tail;
    ScanIsComplete(H, gs, tail);
  }

  // ---------- cutting a journal at any byte ----------

  /** How many records of rs end at or before byte k. */
  function WholeBefore(H: Hash, rs: seq<Record>, k: nat): (n: nat)
    requires AllGenuine(H, rs)
    ensures n <= |rs|
  {
    if rs == [] || k < |Image(H, rs[0])| then 0
    else 1 + WholeBefore(H, rs[1..], k - |Image(H, rs[0])|)
  }

  /** WholeBefore is the one place where the cut falls between two record ends. */
  lemma {:induction false} WholeBeforeBounds(H: Hash, rs: seq<Record>, k: nat)
    requires AllGenuine(H, rs)
    ensures var n := WholeBefore(H, rs, k);
      && |Stream(H, rs[..n])| <= k
      && (n < |rs| ==> k < |Stream(H, rs[..n + 1])|)
    decreases |rs|
  {
    hide Genuine, Image;
    if rs != [] && k >= |Image(H, rs[0])| {
      var m := WholeBefore(H, rs[1..], k - |Image(H, rs[0])|);
      WholeBeforeBounds(H, rs[1..], k - |Image(H, rs[0])|);
      assert rs[..m + 1][1..] == rs[1..][..m];
      if m + 1 < |rs| {
        assert rs[..m + 2][1..] == rs[1..][..m + 1];
      }
    } else if rs != [] {
      assert rs[..1][1..] == [];
    }
  }

  lemma ScanOfTorn(H: Hash, rs: seq<Record>, r: Record, j: nat)
    requires ValidChain(H, rs) && Genuine(H, r) && j < |Image(H, r)|
    ensures Scan(H, Stream(H, rs) + Image(H, r)[..j]) ==
            Scanned(rs, |Stream(H, rs)|, if j == 0 then Clean else Torn)
  {
    hide Genuine, Image, DecodeRecord, Remaining, Scan;
    var data := Stream(H, rs) + Image(H, r)[..j];
    ScanIsComplete(H, rs, Image(H, r)[..j]);
    if j == 0 {
      RemainingEnd(H, data, rs);
    } else {
      CutImage(H, r, j);
      assert data[|Stream(H, rs)|..] == Image(H, r)[..j];
      RemainingStep(H, data, rs, |Stream(H, rs)|);
    }
  }

  /** Where a cut inside record n falls in the byte stream. */
  lemma CutWithin(H: Hash, rs: seq<Record>, n: nat, k: nat)
    requires AllGenuine(H, rs) && n < |rs|
    requires |Stream(H, rs[..n])| <= k < |Stream(H, rs[..n + 1])|
    ensures var j := k - |Stream(H, rs[..n])|;
      j < |Image(H, rs[n])| && k <= |Stream(H, rs)| && Stream(H, rs)[..k] == Stream(H, rs[..n]) + Image(H, rs[n])[..j]
  {
    hide Genuine, Image;
    var a, r := rs[..n], rs[n];
    assert rs[..n + 1] == a + [r];
    StreamSnoc(H, a, r);
    var rest := rs[n + 1..];
    assert AllGenuine(H, rest);
    assert rs == rs[..n + 1] + rest;
    StreamConcat(H, rs[..n + 1], rest);
  }

  /**
   Every cut is safe: cutting a valid journal at any byte makes the scan accept exactly
   the records that lie wholly before the cut, torn precisely when the cut is not a
   record boundary, and never fatal.
   */
  lemma CutIsSafe(H: Hash, rs: seq<Record>, k: nat)
    requires ValidChain(H, rs)
    requires k <= |Stream(H, rs)|
    ensures var n := WholeBefore(H, rs, k); var whole := |Stream(H, rs[..n])|;
      Scan(H, Stream(H, rs)[..k]) == Scanned(rs[..n], whole, if whole == k then Clean else Torn)
  {
    hide Genuine, Image, WholeBefore, Scan, Stream;
    var n := WholeBefore(H, rs, k);
    WholeBeforeBounds(H, rs, k);
    ChainPrefix(H, rs, n);
    if n < |rs| {
      CutWithin(H, rs, n, k);
      ScanOfTorn(H, rs[..n], rs[n], k - |Stream(H, rs[..n])|);
    } else {
      assert rs[..n] == rs;
      assert Stream(H, rs)[..k] == Stream(H, rs);
      ScanOfStream(H, rs);
    }
  }

  // ---------- the head commitment binds the history ----------

  /**
   Two non-empty valid chains with the same head commitment are the same chain, or two
   records, one from each, are returned whose different commitment preimages have the
   same digest.
   */
  lemma {:induction false} HeadBindsHistory(H: Hash, rs: seq<Record>, gs: seq<Record>) returns (i: nat, j: nat)
    requires ValidChain(H, rs) && ValidChain(H, gs)
    requires rs != [] && gs != []
    requires Head(rs) == Head(gs)
    ensures i < |rs| && j < |gs|
    ensures rs == gs || IsCollision(H, Committed(H, rs[i]), Committed(H, gs[j]))
    decreases |rs|
  {
    hide Genuine, Committed, ValidChain, AllGenuine;
    i, j := |rs| - 1, |gs| - 1;
    LastLink(H, rs);
    LastLink(H, gs);
    if Committed(H, rs[i]) == Committed(H, gs[j]) {
      CommittedInjective(H, rs[i], gs[j]);
      assert rs == rs[..i] + [rs[i]] && gs == gs[..j] + [gs[j]];
      if i > 0 {
        ChainPrefix(H, rs, i);
        ChainPrefix(H, gs, j);
        i, j := HeadBindsHistory(H, rs[..i], gs[..j]);
      }
    }
  }

  /** The same on bytes: fully valid journals with the same head are byte-identical. */
  lemma HeadBindsBytes(H: Hash, x: Bytes, y: Bytes) returns (f: Record, g: Record)
    requires Scan(H, x).end.Clean? && Scan(H, y).end.Clean?
    requires x != [] && y != []
    requires Head(Scan(H, x).recs) == Head(Scan(H, y).recs)
    ensures f in Scan(H, x).recs && g in Scan(H, y).recs && Genuine(H, f) && Genuine(H, g)
    ensures x == y || IsCollision(H, Committed(H, f), Committed(H, g))
  {
    hide Genuine, Image, Committed, DecodeRecord;
    ScanIsSound(H, x, 1, GENESIS);
    ScanIsSound(H, y, 1, GENESIS);
    var rs, gs := Scan(H, x).recs, Scan(H, y).recs;
    assert x[..|x|] == x && y[..|y|] == y;
    var i, j := HeadBindsHistory(H, rs, gs);
    f, g := rs[i], gs[j];
  }

  // ---------- the two loops ----------

  datatype Prefix = Prefix(
    records: seq<Record>, bytes: nat, head: Digest, nextSequence: nat,
    torn: bool, tornOffset: nat, quarantine: Bytes)

  datatype ReadResult = Read(prefix: Prefix) | ReadFatal(offset: nat)

  function Window(data: Bytes, offset: nat): Bytes
    requires offset <= |data|
  {
    if |data| - offset > MAX_RECORD_BYTES then data[offset..offset + MAX_RECORD_BYTES] else data[offset..]
  }

  lemma WindowDecodes(H: Hash, data: Bytes, offset: nat)
    requires offset <= |data|
    ensures DecodeRecord(H, Window(data, offset)) == DecodeRecord(H, data[offset..])
  {
    hide DecodeRecord;
    if |data| - offset > MAX_RECORD_BYTES {
      assert Window(data, offset) == data[offset..][..MAX_RECORD_BYTES];
      WindowSuffices(H, data[offset..]);
    }
  }

  /** What ReadPrefix reports for a scan. */
  function ReadOf(s: Scanned, data: Bytes): ReadResult
    requires s.bytes <= |data|
  {
    if s.end.Fatal? then ReadFatal(s.bytes)
    else Read(Prefix(s.recs, s.bytes, Head(s.recs), |s.recs| + 1, s.end.Torn?,
                     if s.end.Torn? then s.bytes else 0,
                     if s.end.Torn? then Window(data, s.bytes) else []))
  }

  /** ReadPrefix: the loop that peeks at most MAX_RECORD_BYTES at a time means Scan. */
  method ReadPrefix(H: Hash, data: Bytes) returns (r: ReadResult)
    ensures r == ReadOf(Scan(H, data), data)
  {
    hide DecodeRecord, ScanFrom, Remaining, Window, Scan;
    RemainingStart(H, data);
    var out := Prefix([], 0, GENESIS, 1, false, 0, []);
    if |data| == 0 {
      RemainingEnd(H, data, []);
      return Read(out);
    }
    var offset, expected, prev := 0, 1, GENESIS;
    while offset < |data|
      invariant 0 <= offset <= |data|
      invariant out == Prefix(out.records, offset, Head(out.records), |out.records| + 1, false, 0, [])
      invariant expected == |out.records| + 1 && prev == Head(out.records)
      invariant Remaining(H, data, out.records, offset)
    {
      RemainingStep(H, data, out.records, offset);
      WindowDecodes(H, data, offset);
      var buf := Window(data, offset);
      match DecodeRecord(H, buf) {
        case Err(kind) =>
          if kind == Incomplete {
            return Read(out.(torn := true, tornOffset := offset, quarantine := buf));
          }
          return ReadFatal(offset);
        case Ok(rec, n) =>
          if rec.sequence != expected { return ReadFatal(offset); }
          if expected == 1 {
            if rec.prev != GENESIS { return ReadFatal(offset); }
          } else if rec.prev != prev { return ReadFatal(offset); }
          out := Prefix(out.records + [rec], out.bytes + n, rec.commitment, rec.sequence + 1, false, 0, []);
          prev := rec.commitment;
          expected := expected + 1;
          offset := offset + n;
      }
    }
    RemainingEnd(H, data, out.records);
    return Read(out);
  }

  datatype Verdict = Verdict(
    count: nat, bytes: nat, head: Digest, nextSequence: nat,
    torn: bool, tornOffset: nat, fatal: bool, fatalOffset: nat)

  function VerdictOf(s: Scanned): Verdict
  {
    Verdict(|s.recs|, s.bytes, Head(s.recs), |s.recs| + 1,
            s.end.Torn?, if s.end.Torn? then s.bytes else 0,
            s.end.Fatal?, if s.end.Fatal? then s.bytes else 0)
  }

  /** VerifyBytes: the loop over all remaining bytes means Scan as well. */
  method VerifyBytes(H: Hash, data: Bytes) returns (v: Verdict)
    ensures v == VerdictOf(Scan(H, data))
  {
    hide DecodeRecord, ScanFrom, Remaining, Scan;
    RemainingStart(H, data);
    v := Verdict(0, 0, GENESIS, 1, false, 0, false, 0);
    if |data| == 0 {
      RemainingEnd(H, data, []);
      return;
    }
    var offset, expected, prev := 0, 1, GENESIS;
    ghost var seen: seq<Record> := [];
    while offset < |data|
      invariant 0 <= offset <= |data|
      invariant v == Verdict(|seen|, offset, Head(seen), |seen| + 1, false, 0, false, 0)
      invariant expected == |seen| + 1 && prev == Head(seen)
      invariant Remaining(H, data, seen, offset)
    {
      RemainingStep(H, data, seen, offset);
      match DecodeRecord(H, data[offset..]) {
        case Err(kind) =>
          if kind == Incomplete {
            v := v.(torn := true, tornOffset := offset);
            return;
          }
          v := v.(fatal := true, fatalOffset := offset);
          return;
        case Ok(rec, n) =>
          if rec.sequence != expected || rec.prev != (if expected == 1 then GENESIS else prev) {
            v := v.(fatal := true, fatalOffset := offset);
            return;
          }
          seen := seen + [rec];
          v := v.(count := v.count + 1, bytes := v.bytes + n, head := rec.commitment, nextSequence := rec.sequence + 1);
          prev := rec.commitment;
          expected := expected + 1;
          offset := offset + n;
      }
    }
    RemainingEnd(H, data, seen);
  }

  /**
   The windowed reader and the independent verifier agree on every byte string: on torn or
   fatal and the offset, and when not fatal on count, bytes, head and next sequence.
   */
  method ScannersAgree(H: Hash, data: Bytes) returns (r: ReadResult, v: Verdict)
    ensures v.fatal <==> r.ReadFatal?
    ensures r.ReadFatal? ==> v.fatalOffset == r.offset && !v.torn
    ensures r.Read? ==> v.torn == r.prefix.torn && v.tornOffset == r.prefix.tornOffset
    ensures r.Read? ==> v.count == |r.prefix.records| && v.bytes == r.prefix.bytes
    ensures r.Read? ==> v.head == r.prefix.head && v.nextSequence == r.prefix.nextSequence
  {
    hide ScanFrom;
    r := ReadPrefix(H, data);
    v := VerifyBytes(H, data);
  }
}
