/**
 Appending to a journal: the writer (internal/journal/writer.go), the segment that stops
 at a crash point (internal/journal/crashseg.go) and reopening with truncation of a torn
 tail (internal/localsync/journaled.go).

 `AppendStep` and `Reopen` are the meaning of the imperative classes below. The theorems are
 about every run: any interleaving of appends, stops after any byte of an append, failed
 syncs, closes and reopens.
 */
module JournalWriter {
  import opened Bytes
  import opened RecordCodec
  import opened JournalScan

  const MAX_SEGMENT_BYTES := 0x4000_0000
  const MAX_FILE_BYTES := 0x8000_0000_0000_0000

  /** The bytes on disk and, in a process that has opened them, the writer's fields. */
  datatype Log = Log(buf: Bytes, open: bool, nextSeq: nat, prev: Digest)

  /** What happens to the bytes handed to the segment. */
  datatype Fault =
    | NoFault
    | Cut(k: nat)  // stopped after k bytes reached the file
    | SyncFails    // every byte reached the file and Sync reported an error

  datatype Outcome = Done(rec: Record) | Stopped | Closed | BadState | Corrupt | Unencodable | TooBig

  predicate Sized(l: Log)
  {
    |l.buf| < MAX_FILE_BYTES
  }

  function Accepted(H: Hash, buf: Bytes): seq<Record>
  {
    Scan(H, buf).recs
  }

  function Min(a: nat, b: nat): nat
  {
    if a <= b then a else b
  }

  /** The fields the next record will have. */
  function NextFields(l: Log, txid: TxnId, rtype: u16, payload: Bytes): Fields
    requires l.nextSeq < 0x1_0000_0000_0000_0000
  {
    Fields(l.nextSeq, txid, rtype, l.prev, payload)
  }

  /** Writer.Append. */
  function AppendStep(H: Hash, l: Log, txid: TxnId, rtype: u16, payload: Bytes, fault: Fault): (r: (Log, Outcome))
    requires Sized(l)
  {
    var s := Scan(H, l.buf);
    if !l.open then (l, Closed)
    else if l.buf != [] && l.nextSeq == 1 then (l, BadState)
    else if s.end.Fatal? then (l, Corrupt)
    else if s.end.Torn? then (l, BadState)
    else if |s.recs| + 1 != l.nextSeq then (l, BadState)
    else
      var f := NextFields(l, txid, rtype, payload);
      if !Encodable(f) then (l, Unencodable)
      else if |l.buf| + RecordLength(f) > MAX_SEGMENT_BYTES then (l, TooBig)
      else
        var enc := Encoded(H, f);
        match fault
        case Cut(k) => (l.(buf := l.buf + enc[..Min(k, |enc|)]), Stopped)
        case SyncFails => (l.(buf := l.buf + enc), Stopped)
        case NoFault => (Log(l.buf + enc, true, l.nextSeq + 1, CommitmentOf(H, f)), Done(RecordOf(H, f)))
  }

  /** OpenWriter, truncating a torn tail and opening again. A fatal journal is not opened. */
  function Reopen(H: Hash, l: Log): (r: Log)
  {
    var s := Scan(H, l.buf);
    if s.end.Fatal? then l.(open := false)
    else Log(l.buf[..s.bytes], true, |s.recs| + 1, Head(s.recs))
  }

  // ---------- one step ----------

  /** The writer's fields agree with the bytes: the next append will be tried. */
  predicate Ready(H: Hash, l: Log)
  {
    && l.open && Sized(l)
    && Scan(H, l.buf).end.Clean?
    && l.nextSeq == |Accepted(H, l.buf)| + 1
    && l.prev == Head(Accepted(H, l.buf))
  }

  /** A writer in a process: not corrupt, and either in step with the bytes or behind them. */
  predicate Sane(H: Hash, l: Log)
  {
    && Sized(l)
    && !Scan(H, l.buf).end.Fatal?
    && (l.open ==> 1 <= l.nextSeq <= |Accepted(H, l.buf)| + 1)
    && (l.open && l.nextSeq == |Accepted(H, l.buf)| + 1 ==> l.prev == Head(Accepted(H, l.buf)))
  }

  lemma CleanBytes(H: Hash, buf: Bytes)
    requires Scan(H, buf).end.Clean?
    ensures ValidChain(H, Accepted(H, buf)) && buf == Stream(H, Accepted(H, buf))
  {
    hide Genuine, Image, DecodeRecord, ScanFrom;
    ScanIsSound(H, buf, 1, GENESIS);
    assert buf[..|buf|] == buf;
  }

  lemma AcceptedBytes(H: Hash, buf: Bytes)
    ensures var s := Scan(H, buf); ValidChain(H, s.recs) && buf[..s.bytes] == Stream(H, s.recs)
  {
    hide Genuine, Image, DecodeRecord, ScanFrom;
    ScanIsSound(H, buf, 1, GENESIS);
  }

  lemma NextIsGenuine(H: Hash, f: Fields)
    requires Encodable(f)
    ensures var r := RecordOf(H, f);
      Genuine(H, r) && Image(H, r) == Encoded(H, f) && r.commitment == CommitmentOf(H, f) && r.AsFields() == f
  {
    hide Encoded;
  }

  /** Writing the first k bytes of the next record: all of it is accepted, or none of it. */
  lemma PartialAppend(H: Hash, buf: Bytes, r: Record, k: nat)
    requires Scan(H, buf).end.Clean? && Extends(H, Accepted(H, buf), r) && k <= |Image(H, r)|
    ensures var s := Scan(H, buf + Image(H, r)[..k]);
      && !s.end.Fatal?
      && (s.end.Clean? <==> k == 0 || k == |Image(H, r)|)
      && s.recs == if k == |Image(H, r)| then Accepted(H, buf) + [r] else Accepted(H, buf)
  {
    hide Genuine, Image, Scan, Stream, ValidChain;
    CleanBytes(H, buf);
    var rs := Accepted(H, buf);
    if k == |Image(H, r)| {
      ChainSnoc(H, rs, r);
      AppendWhole(H, rs, r);
      assert Image(H, r)[..k] == Image(H, r);
    } else {
      ScanOfTorn(H, rs, r, k);
    }
  }

  lemma AppendWhole(H: Hash, rs: seq<Record>, r: Record)
    requires ValidChain(H, rs) && Genuine(H, r) && ValidChain(H, rs + [r])
    ensures var buf := Stream(H, rs) + Image(H, r); Scan(H, buf) == Scanned(rs + [r], |buf|, Clean)
  {
    hide Genuine, Image, Scan, Stream;
    StreamSnoc(H, rs, r);
    ScanOfStream(H, rs + [r]);
  }

  /** Whether an append reaches the segment, and with which record. */
  ghost predicate Attempts(H: Hash, l: Log, txid: TxnId, rtype: u16, payload: Bytes)
  {
    && Ready(H, l)
    && Encodable(NextFields(l, txid, rtype, payload))
    && |l.buf| + RecordLength(NextFields(l, txid, rtype, payload)) <= MAX_SEGMENT_BYTES
  }

  /**
   What an append on a ready writer does, at any byte it may be stopped. Either it is not
   attempted and nothing changes, or the record accepted afterwards is the next one or none.
   */
  lemma AppendFromReady(H: Hash, l: Log, txid: TxnId, rtype: u16, payload: Bytes, fault: Fault)
    requires Ready(H, l)
    ensures var (l', out) := AppendStep(H, l, txid, rtype, payload, fault); var rs := Accepted(H, l.buf);
      var f := NextFields(l, txid, rtype, payload);
      && Sane(H, l')
      && l.buf <= l'.buf
      && (!Attempts(H, l, txid, rtype, payload) <==> out.Unencodable? || out.TooBig?)
      && (out.Unencodable? || out.TooBig? ==> l' == l)
      && (out.Stopped? || out.Done? || out.Unencodable? || out.TooBig?)
      && (out.Done? ==> Ready(H, l') && out.rec == RecordOf(H, f) && Accepted(H, l'.buf) == rs + [out.rec])
      && (out.Stopped? ==> l'.open && l'.nextSeq == l.nextSeq && Encodable(f))
      && (out.Stopped? ==> Accepted(H, l'.buf) == rs || Accepted(H, l'.buf) == rs + [RecordOf(H, f)])
      && (out.Stopped? && fault.SyncFails? ==> Accepted(H, l'.buf) == rs + [RecordOf(H, f)])
      && (out.Done? <==> Attempts(H, l, txid, rtype, payload) && fault.NoFault?)
  {
    hide Encoded, RecordOf, CommitmentOf, Genuine, Image, Scan;
    var f := NextFields(l, txid, rtype, payload);
    assert l.buf == [] || l.nextSeq != 1 by {
      if l.buf != [] {
        CleanHasRecord(H, l.buf);
      }
    }
    if Encodable(f) && |l.buf| + RecordLength(f) <= MAX_SEGMENT_BYTES {
      NextIsGenuine(H, f);
      var r := RecordOf(H, f);
      var enc := Encoded(H, f);
      assert Extends(H, Accepted(H, l.buf), r);
      var k := if fault.Cut? then Min(fault.k, |enc|) else |enc|;
      PartialAppend(H, l.buf, r, k);
      assert enc[..|enc|] == enc;
      assert AppendStep(H, l, txid, rtype, payload, fault).0.buf == l.buf + enc[..k];
    }
  }

  lemma CleanHasRecord(H: Hash, buf: Bytes)
    requires Scan(H, buf).end.Clean? && buf != []
    ensures Accepted(H, buf) != []
  {
    hide Genuine, Image, ScanFrom, ValidChain;
    CleanBytes(H, buf);
  }

  /** A writer that is behind the bytes, or whose tail is torn, can append nothing at all. */
  lemma StaleRefuses(H: Hash, l: Log, txid: TxnId, rtype: u16, payload: Bytes, fault: Fault)
    requires Sane(H, l) && l.open
    requires l.nextSeq != |Accepted(H, l.buf)| + 1 || Scan(H, l.buf).end.Torn?
    ensures AppendStep(H, l, txid, rtype, payload, fault) == (l, BadState)
  {
    hide Encoded, Scan;
  }

  lemma AppendKeeps(H: Hash, l: Log, txid: TxnId, rtype: u16, payload: Bytes, fault: Fault)
    requires Sane(H, l)
    ensures var (l', out) := AppendStep(H, l, txid, rtype, payload, fault);
      && Sane(H, l')
      && Accepted(H, l.buf) <= Accepted(H, l'.buf)
      && l.buf[..Scan(H, l.buf).bytes] <= l'.buf
      && (out.Done? ==> Accepted(H, l'.buf) == Accepted(H, l.buf) + [out.rec])
  {
    hide Encoded, RecordOf, CommitmentOf, Genuine, Image, Scan;
    if l.open {
      if l.nextSeq != |Accepted(H, l.buf)| + 1 || Scan(H, l.buf).end.Torn? {
        StaleRefuses(H, l, txid, rtype, payload, fault);
      } else {
        AppendFromReady(H, l, txid, rtype, payload, fault);
      }
    }
  }

  lemma TruncatedScan(H: Hash, buf: Bytes)
    ensures var s := Scan(H, buf); Scan(H, buf[..s.bytes]) == Scanned(s.recs, s.bytes, Clean)
  {
    hide Genuine, Image, Scan, Stream, ValidChain, AllGenuine;
    AcceptedBytes(H, buf);
    ScanOfStream(H, Scan(H, buf).recs);
  }

  /** Opening a journal accepts what was there, drops the torn tail only, and readies the writer. */
  lemma ReopenKeeps(H: Hash, l: Log)
    requires Sane(H, l)
    ensures var l' := Reopen(H, l);
      && Ready(H, l') && Sane(H, l')
      && Accepted(H, l'.buf) == Accepted(H, l.buf)
      && l'.buf == l.buf[..Scan(H, l.buf).bytes]
  {
    hide Scan, Head;
    TruncatedScan(H, l.buf);
  }

  // ---------- every run ----------

  datatype Action =
    | DoAppend(txid: TxnId, rtype: u16, payload: Bytes, fault: Fault)
    | DoReopen
    | DoStop  // the process ends, or closes its writer

  function Act(H: Hash, l: Log, a: Action): (Log, Outcome)
    requires Sized(l)
  {
    match a
    case DoAppend(txid, rtype, payload, fault) => AppendStep(H, l, txid, rtype, payload, fault)
    case DoReopen => (Reopen(H, l), Closed)
    case DoStop => (l.(open := false), Closed)
  }

  /** The records acknowledged to callers: those whose append returned no error. */
  function Acknowledged(out: Outcome): seq<Record>
  {
    if out.Done? then [out.rec] else []
  }

  ghost function Run(H: Hash, l: Log, script: seq<Action>): (r: (Log, seq<Record>))
    requires Sane(H, l)
    ensures Sane(H, r.0)
    decreases |script|
  {
    if script == [] then (l, [])
    else
      var (l1, out) := Act(H, l, script[0]);
      ActKeeps(H, l, script[0]);
      var (l2, acks) := Run(H, l1, script[1..]);
      (l2, Acknowledged(out) + acks)
  }

  lemma ActKeeps(H: Hash, l: Log, a: Action)
    requires Sane(H, l)
    ensures var (l', out) := Act(H, l, a);
      && Sane(H, l')
      && Accepted(H, l.buf) <= Accepted(H, l'.buf)
      && l.buf[..Scan(H, l.buf).bytes] <= l'.buf
      && (out.Done? ==> Accepted(H, l'.buf) == Accepted(H, l.buf) + [out.rec])
  {
    hide AppendStep, Reopen, Scan;
    match a
    case DoAppend(txid, rtype, payload, fault) => AppendKeeps(H, l, txid, rtype, payload, fault);
    case DoReopen => ReopenKeeps(H, l);
    case DoStop =>
  }

  /** Acknowledged records sit in the accepted prefix at their own sequence numbers, in order, after the first n. */
  predicate Kept(acks: seq<Record>, rs: seq<Record>, n: nat)
  {
    acks == [] ||
    (n < acks[0].sequence <= |rs| && rs[acks[0].sequence - 1] == acks[0] && Kept(acks[1..], rs, acks[0].sequence))
  }

  /**
   Over every run: what was accepted stays accepted and its bytes stay where they were; every
   acknowledged record stays in the accepted prefix, in order and after what was there before;
   the accepted records are numbered exactly 1..n and chained; and the journal never turns fatal.
   */
  lemma {:induction false} RunIsSafe(H: Hash, l: Log, script: seq<Action>)
    requires Sane(H, l)
    ensures var (l', acks) := Run(H, l, script); var rs, rs' := Accepted(H, l.buf), Accepted(H, l'.buf);
      && !Scan(H, l'.buf).end.Fatal?
      && rs <= rs' && l.buf[..Scan(H, l.buf).bytes] <= l'.buf
      && ValidChain(H, rs') && (forall i | 0 <= i < |rs'| :: rs'[i].sequence == i + 1)
      && Kept(acks, rs', |rs|)
    decreases |script|
  {
    hide Act, Scan, Genuine, Stream, ValidChain;
    ChainOfAccepted(H, Run(H, l, script).0.buf);
    if script == [] {
      assert Kept([], Accepted(H, l.buf), |Accepted(H, l.buf)|);
    } else {
      var (l1, out) := Act(H, l, script[0]);
      ActKeeps(H, l, script[0]);
      RunIsSafe(H, l1, script[1..]);
      var (l2, acks) := Run(H, l1, script[1..]);
      AcceptedMonotone(H, l.buf, l1.buf, l2.buf);
      ChainOfAccepted(H, l1.buf);
      if out.Done? {
        assert Accepted(H, l1.buf)[|Accepted(H, l.buf)|] == out.rec;
      }
      KeptStep(out, acks, Accepted(H, l.buf), Accepted(H, l1.buf), Accepted(H, l2.buf));
    }
  }

  lemma ChainOfAccepted(H: Hash, buf: Bytes)
    ensures var rs := Accepted(H, buf); ValidChain(H, rs) && (forall i | 0 <= i < |rs| :: rs[i].sequence == i + 1)
  {
    hide Genuine, Image, Scan, Stream;
    AcceptedBytes(H, buf);
  }

  lemma KeptStep(out: Outcome, acks: seq<Record>, rs: seq<Record>, rs1: seq<Record>, rs2: seq<Record>)
    requires rs <= rs1 <= rs2 && Kept(acks, rs2, |rs1|)
    requires out.Done? ==> rs1 == rs + [out.rec] && out.rec.sequence == |rs1|
    ensures Kept(Acknowledged(out) + acks, rs2, |rs|)
  {
    if out.Done? {
      assert rs2[|rs|] == rs1[|rs|] == out.rec;
      assert ([out.rec] + acks)[1..] == acks;
    } else {
      assert [] + acks == acks;
    }
  }

  lemma AcceptedMonotone(H: Hash, x: Bytes, y: Bytes, z: Bytes)
    requires Accepted(H, x) <= Accepted(H, y)
    requires y[..Scan(H, y).bytes] <= z
    ensures x[..Scan(H, x).bytes] <= z
  {
    hide Genuine, Image, Scan, Stream;
    AcceptedBytes(H, x);
    AcceptedBytes(H, y);
    StreamMonotone(H, Accepted(H, x), Accepted(H, y));
  }

  lemma StreamMonotone(H: Hash, a: seq<Record>, b: seq<Record>)
    requires AllGenuine(H, a) && AllGenuine(H, b) && a <= b
    ensures Stream(H, a) <= Stream(H, b)
  {
    hide Genuine, Image, Stream;
    assert b == a + b[|a|..];
    StreamConcat(H, a, b[|a|..]);
  }

  /**
   A writer whose append stopped, by a fault of the memory or the crash segment, appends nothing
   more until the journal is reopened, or its record is not there at all: no sequence number is
   ever used twice. Over a file this holds of failed syncs only; FileSegment says what a short
   write does there.
   */
  lemma NoSecondRecordWithTheSameSequence(
    H: Hash, l: Log, txid: TxnId, rtype: u16, payload: Bytes, fault: Fault,
    txid2: TxnId, rtype2: u16, payload2: Bytes, fault2: Fault)
    requires Ready(H, l)
    requires AppendStep(H, l, txid, rtype, payload, fault).1.Stopped?
    ensures var l1 := AppendStep(H, l, txid, rtype, payload, fault).0;
      var (l2, out2) := AppendStep(H, l1, txid2, rtype2, payload2, fault2);
      || (l2 == l1 && out2 == BadState)
      || l1 == l
  {
    hide AppendStep, Scan, Encoded, RecordOf;
    AppendFromReady(H, l, txid, rtype, payload, fault);
    var l1 := AppendStep(H, l, txid, rtype, payload, fault).0;
    if l1.nextSeq != |Accepted(H, l1.buf)| + 1 || Scan(H, l1.buf).end.Torn? {
      StaleRefuses(H, l1, txid2, rtype2, payload2, fault2);
    } else {
      CleanBytes(H, l.buf);
      CleanBytes(H, l1.buf);
      StoppedKeepsHead(H, l, txid, rtype, payload, fault);
    }
  }

  lemma StoppedKeepsHead(H: Hash, l: Log, txid: TxnId, rtype: u16, payload: Bytes, fault: Fault)
    requires Ready(H, l)
    requires AppendStep(H, l, txid, rtype, payload, fault).1.Stopped?
    ensures var l1 := AppendStep(H, l, txid, rtype, payload, fault).0; l1 == l.(buf := l1.buf)
  {
    hide Scan, Encoded;
  }

  // ---------- the classes ----------

  datatype CrashPoint = Never | AppendPre | AppendMid | AppendPost | MetaPost

  /** A segment that stops at a labelled point of an append. */
  class CrashSegment {
    var inner: Bytes
    var failAt: CrashPoint
    var hits: seq<CrashPoint>

    constructor (data: Bytes, point: CrashPoint)
      ensures inner == data && failAt == point && hits == []
    {
      inner, failAt, hits := data, point, [];
    }

    /** The fault an append of n bytes meets. */
    ghost function FaultOf(n: nat): Fault
      reads this
    {
      match failAt
      case Never => NoFault
      case AppendPre => Cut(0)
      case AppendMid => Cut(if n / 2 < 1 && n > 0 then 1 else n / 2)
      case AppendPost => SyncFails
      case MetaPost => SyncFails
    }

    method Append(p: Bytes) returns (ok: bool)
      modifies this
      ensures failAt == old(failAt)
      ensures ok <==> !FaultOf(|p|).Cut?
      ensures ok ==> inner == old(inner) + p && hits == old(hits)
      ensures !ok ==> inner == old(inner) + p[..Min(FaultOf(|p|).k, |p|)] && hits == old(hits) + [failAt]
    {
      if failAt == AppendPre {
        hits := hits + [AppendPre];
        assert inner == inner + p[..0];
        return false;
      }
      if failAt == AppendMid {
        var n := |p| / 2;
        if n < 1 && |p| > 0 { n := 1; }
        if n > 0 { inner := inner + p[..n]; }
        hits := hits + [AppendMid];
        return false;
      }
      inner := inner + p;
      return true;
    }

    method Sync() returns (ok: bool)
      modifies this`hits
      ensures ok <==> !failAt.AppendPost? && !failAt.MetaPost?
      ensures hits == if ok then old(hits) else old(hits) + [failAt]
    {
      if failAt == AppendPost || failAt == MetaPost {
        hits := hits + [failAt];
        return false;
      }
      return true;
    }

    method Truncate(n: nat)
      modifies this
      ensures inner == old(inner)[..Min(n, |old(inner)|)] && failAt == old(failAt) && hits == old(hits)
    {
      inner := inner[..Min(n, |inner|)];
    }
  }

  class Writer {
    const H: Hash
    const seg: CrashSegment
    var nextSeq: nat
    var prevCommitment: Digest
    var closed: bool

    ghost function View(): Log
      reads this, seg
    {
      Log(seg.inner, !closed, nextSeq, prevCommitment)
    }

    constructor (h: Hash, s: CrashSegment, next: nat, prev: Digest)
      ensures H == h && seg == s && View() == Log(s.inner, true, next, prev)
    {
      H, seg, nextSeq, prevCommitment, closed := h, s, next, prev, false;
    }

    /** Writer.Append: exactly the specification's step under the fault its segment injects. */
    method Append(txid: TxnId, rtype: u16, payload: Bytes) returns (out: Outcome)
      requires Sized(View())
      modifies this, seg
      ensures seg.failAt == old(seg.failAt)
      ensures (View(), out) ==
        AppendStep(H, old(View()), txid, rtype, payload, old(seg.FaultOf(RECORD_OVERHEAD + |payload|)))
    {
      hide Scan, Encoded, CommitmentOf, DecodeRecord;
      if closed { return Closed; }
      if |seg.inner| > 0 && nextSeq == 1 { return BadState; }
      var r := ReadPrefix(H, seg.inner);
      if r.ReadFatal? { return Corrupt; }
      if r.prefix.torn { return BadState; }
      if r.prefix.nextSequence != nextSeq { return BadState; }
      var f := Fields(nextSeq, txid, rtype, prevCommitment, payload);
      var e := EncodeRecord(H, f);
      if e.Refused? { return Unencodable; }
      if |seg.inner| + |e.bytes| > MAX_SEGMENT_BYTES { return TooBig; }
      var ok := seg.Append(e.bytes);
      if !ok { return Stopped; }
      ok := seg.Sync();
      if !ok { return Stopped; }
      DecodeEncoded(H, f, []);
      assert e.bytes + [] == e.bytes;
      var d := DecodeRecord(H, e.bytes);
      prevCommitment := d.rec.commitment;
      nextSeq := nextSeq + 1;
      return Done(d.rec);
    }

    method Close()
      modifies this`closed
      ensures closed
    {
      closed := true;
    }
  }

  /** Opening a journal: a fatal one is left alone, a torn tail is cut off, the rest is kept. */
  method OpenJournal(H: Hash, s: CrashSegment) returns (w: Writer?)
    modifies s
    ensures s.failAt == old(s.failAt)
    ensures w == null <==> Scan(H, old(s.inner)).end.Fatal?
    ensures w == null ==> s.inner == old(s.inner)
    ensures w != null ==> fresh(w) && w.H == H && w.seg == s
    ensures w != null ==> w.View() == Reopen(H, old(Log(s.inner, false, 0, GENESIS)))
  {
    hide Scan;
    var r := ReadPrefix(H, s.inner);
    if r.ReadFatal? { return null; }
    if r.prefix.torn {
      TruncatedScan(H, s.inner);
      s.Truncate(r.prefix.bytes);
      r := ReadPrefix(H, s.inner);
    } else {
      assert s.inner[..|s.inner|] == s.inner;
    }
    w := new Writer(H, s, r.prefix.nextSequence, r.prefix.head);
  }
}
