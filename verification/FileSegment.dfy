/**
 The writer over a file (FileSegment in internal/journal/segment.go). The segment keeps its
 own size, and a write that fails part way does not advance it: the bytes stay in the file,
 out of the writer's sight, until the next append goes over them.
 */
module FileSegment {
  import opened Bytes
  import opened RecordCodec
  import opened JournalScan
  import opened JournalWriter

  /** The file, the segment's size, and the writer's fields. */
  datatype FileLog = FileLog(file: Bytes, size: nat, open: bool, nextSeq: nat, prev: Digest)

  predicate Covered(f: FileLog)
  {
    f.size <= |f.file|
  }

  /** What the writer sees. */
  function Seen(f: FileLog): Log
    requires Covered(f)
  {
    Log(f.file[..f.size], f.open, f.nextSeq, f.prev)
  }

  /** How WriteAt and Sync go. */
  datatype Write = Whole | Short(k: nat) | Unsynced

  /** WriteAt: data over whatever the file holds at that offset. */
  function Overwrite(b: Bytes, at: nat, data: Bytes): (r: Bytes)
    requires at <= |b|
    ensures |r| >= at + |data| && r[..at] == b[..at] && r[at..at + |data|] == data
  {
    b[..at] + data + if at + |data| < |b| then b[at + |data|..] else []
  }

  /** Writer.Append over a file. */
  function FileAppend(H: Hash, f: FileLog, txid: TxnId, rtype: u16, payload: Bytes, w: Write): (r: (FileLog, Outcome))
    requires Covered(f) && Sized(Seen(f))
    ensures Covered(r.0)
  {
    var (l, out) := AppendStep(H, Seen(f), txid, rtype, payload, NoFault);
    if !out.Done? then (f, out)
    else
      var enc := l.buf[f.size..];
      match w
      case Short(k) => (f.(file := Overwrite(f.file, f.size, enc[..Min(k, |enc|)])), Stopped)
      case Unsynced => (f.(file := Overwrite(f.file, f.size, enc), size := f.size + |enc|), Stopped)
      case Whole => (FileLog(Overwrite(f.file, f.size, enc), f.size + |enc|, true, l.nextSeq, l.prev), out)
  }

  /** The object. */
  class Segment {
    var file: Bytes
    var size: nat

    constructor (file: Bytes)
      ensures this.file == file && size == |file|
    {
      this.file, this.size := file, |file|;
    }

    /** FileSegment.Append, with n bytes written. */
    method Append(p: Bytes, n: nat) returns (ok: bool)
      requires size <= |file| && n <= |p|
      modifies this
      ensures file == Overwrite(old(file), old(size), p[..n])
      ensures ok <==> n == |p|
      ensures size == if ok then old(size) + |p| else old(size)
    {
      file := Overwrite(file, size, p[..n]);
      if n != |p| { return false; }
      size := size + n;
      return true;
    }

    method Truncate(n: nat)
      requires n <= |file|
      modifies this
      ensures file == old(file)[..n] && size == n
    {
      file, size := file[..n], n;
    }
  }

  // ---------- where nothing is left over ----------

  lemma StepBytes(H: Hash, l: Log, txid: TxnId, rtype: u16, payload: Bytes)
    requires Ready(H, l) && Attempts(H, l, txid, rtype, payload)
    ensures var (l', out) := AppendStep(H, l, txid, rtype, payload, NoFault);
      var f := NextFields(l, txid, rtype, payload);
      && Encodable(f) && out == Done(RecordOf(H, f)) && l'.buf == l.buf + Encoded(H, f) &&
          l'.buf[|l.buf|..] == Encoded(H, f)
      && Ready(H, l') && Accepted(H, l'.buf) == Accepted(H, l.buf) + [RecordOf(H, f)]
  {
    hide Encoded, RecordOf, CommitmentOf, Scan;
    AppendFromReady(H, l, txid, rtype, payload, NoFault);
    var f := NextFields(l, txid, rtype, payload);
    StepShape(H, l, txid, rtype, payload);
    assert (l.buf + Encoded(H, f))[|l.buf|..] == Encoded(H, f);
  }

  lemma StepShape(H: Hash, l: Log, txid: TxnId, rtype: u16, payload: Bytes)
    requires Sized(l) && AppendStep(H, l, txid, rtype, payload, NoFault).1.Done?
    ensures var f := NextFields(l, txid, rtype, payload);
      Encodable(f) && AppendStep(H, l, txid, rtype, payload, NoFault).0.buf == l.buf + Encoded(H, f)
  {
    hide Encoded, Scan, RecordOf, CommitmentOf;
  }

  /** As long as the file ends where the segment says, whole writes are the log's own step. */
  lemma WholeIsTheStep(H: Hash, f: FileLog, txid: TxnId, rtype: u16, payload: Bytes)
    requires Covered(f) && f.size == |f.file| && Ready(H, Seen(f))
    ensures var (f', out) := FileAppend(H, f, txid, rtype, payload, Whole);
      f'.size == |f'.file| && (Seen(f'), out) == AppendStep(H, Seen(f), txid, rtype, payload, NoFault)
  {
    hide Scan, Encoded, RecordOf, CommitmentOf, Attempts;
    var (l, out) := AppendStep(H, Seen(f), txid, rtype, payload, NoFault);
    assert f.file[..f.size] == f.file;
    if out.Done? {
      StepShape(H, Seen(f), txid, rtype, payload);
      StepFields(H, Seen(f), txid, rtype, payload);
      assert l.buf == f.file + l.buf[f.size..];
      var g := FileAppend(H, f, txid, rtype, payload, Whole).0;
      assert g.file == l.buf && g.file[..g.size] == g.file;
    }
  }

  /** So is a write whose sync fails; and after it the writer refuses, as over memory. */
  lemma UnsyncedIsTheStep(H: Hash, f: FileLog, txid: TxnId, rtype: u16, payload: Bytes)
    requires Covered(f) && f.size == |f.file| && Ready(H, Seen(f)) && Attempts(H, Seen(f), txid, rtype, payload)
    ensures var (f', out) := FileAppend(H, f, txid, rtype, payload, Unsynced);
      f'.size == |f'.file| && (Seen(f'), out) == AppendStep(H, Seen(f), txid, rtype, payload, SyncFails)
  {
    hide Scan, Encoded, RecordOf, CommitmentOf;
    var (l, out) := AppendStep(H, Seen(f), txid, rtype, payload, NoFault);
    assert f.file[..f.size] == f.file;
    StepBytes(H, Seen(f), txid, rtype, payload);
    var g := FileAppend(H, f, txid, rtype, payload, Unsynced).0;
    assert g.file == l.buf && g.file[..g.size] == g.file;
    assert AppendStep(H, Seen(f), txid, rtype, payload, SyncFails) == (Seen(f).(buf := l.buf), Stopped);
  }

  lemma StepFields(H: Hash, l: Log, txid: TxnId, rtype: u16, payload: Bytes)
    requires Sized(l) && AppendStep(H, l, txid, rtype, payload, NoFault).1.Done?
    ensures AppendStep(H, l, txid, rtype, payload, NoFault).0.open &&
      l.buf <= AppendStep(H, l, txid, rtype, payload, NoFault).0.buf
  {
    hide Encoded, Scan, RecordOf, CommitmentOf;
  }

  /** A short write is out of the writer's sight: nothing it checks has changed. */
  lemma ShortIsUnseen(H: Hash, f: FileLog, txid: TxnId, rtype: u16, payload: Bytes, k: nat)
    requires Covered(f) && Sized(Seen(f))
    ensures Seen(FileAppend(H, f, txid, rtype, payload, Short(k)).0) == Seen(f)
  {
    hide AppendStep;
  }

  // ---------- a short write, then another record ----------

  /** What is left of x[..k] once y has been written over it. */
  function Leftover(x: Bytes, k: nat, y: Bytes): Bytes
    requires k <= |x|
  {
    if k <= |y| then [] else x[|y|..k]
  }

  /** One append fails after k bytes, and the same writer then appends another record. */
  function ShortThenWhole(
    H: Hash, f: FileLog, txid: TxnId, rtype: u16, payload: Bytes, k: nat, txid2: TxnId, rtype2: u16, payload2: Bytes)
    : (FileLog, Outcome)
    requires Covered(f) && Sized(Seen(f))
  {
    var g := FileAppend(H, f, txid, rtype, payload, Short(k)).0;
    ShortIsUnseen(H, f, txid, rtype, payload, k);
    FileAppend(H, g, txid2, rtype2, payload2, Whole)
  }

  /** The second record is acknowledged, and what the first left behind it stays in the file. */
  lemma SecondGoesOver(
    H: Hash, f: FileLog, txid: TxnId, rtype: u16, payload: Bytes, k: nat, txid2: TxnId, rtype2: u16, payload2: Bytes)
    requires Covered(f) && f.size == |f.file| && Ready(H, Seen(f))
    requires Attempts(H, Seen(f), txid, rtype, payload) && Attempts(H, Seen(f), txid2, rtype2, payload2)
    requires k <= RecordLength(NextFields(Seen(f), txid, rtype, payload))
    ensures var (g, out) := ShortThenWhole(H, f, txid, rtype, payload, k, txid2, rtype2, payload2);
      var x := Encoded(H, NextFields(Seen(f), txid, rtype, payload));
      var y := Encoded(H, NextFields(Seen(f), txid2, rtype2, payload2));
      && out == Done(RecordOf(H, NextFields(Seen(f), txid2, rtype2, payload2)))
      && k <= |x| && g.file == f.file + y + Leftover(x, k, y)
  {
    hide Scan, Encoded, RecordOf, CommitmentOf, AppendStep, Attempts;
    var l := Seen(f);
    assert f.file[..f.size] == f.file;
    StepBytes(H, l, txid, rtype, payload);
    StepBytes(H, l, txid2, rtype2, payload2);
    ShortIsUnseen(H, f, txid, rtype, payload, k);
    var x, y := Encoded(H, NextFields(l, txid, rtype, payload)), Encoded(H, NextFields(l, txid2, rtype2, payload2));
    var g := FileAppend(H, f, txid, rtype, payload, Short(k)).0;
    assert g.file == f.file + x[..k];
    OverLeaves(f.file, x, k, y);
  }

  lemma OverLeaves(b: Bytes, x: Bytes, k: nat, y: Bytes)
    requires k <= |x|
    ensures Overwrite(b + x[..k], |b|, y) == b + y + Leftover(x, k, y)
  {
    assert (b + x[..k])[..|b|] == b;
    if k > |y| {
      assert (b + x[..k])[|b| + |y|..] == x[|y|..k];
    }
  }

  /** Reopening such a file: the acknowledged records, then a scan of what was left over. */
  lemma ReopenAfterShort(H: Hash, buf: Bytes, r: Record, left: Bytes)
    requires Scan(H, buf).end.Clean? && Extends(H, Accepted(H, buf), r)
    ensures var rest := ScanFrom(H, left, |Accepted(H, buf)| + 2, r.commitment); var data := buf + Image(H, r) + left;
      Scan(H, data) == Scanned(Accepted(H, buf) + [r] + rest.recs, |buf| + |Image(H, r)| + rest.bytes, rest.end)
  {
    hide Genuine, Image, Scan, ScanFrom, Stream;
    CleanBytes(H, buf);
    var rs := Accepted(H, buf);
    ChainSnoc(H, rs, r);
    StreamSnoc(H, rs, r);
    ScanIsComplete(H, rs + [r], left);
    assert (Stream(H, rs + [r]) + left)[|Stream(H, rs + [r])|..] == left;
  }

  /**
   The file reads back as exactly what was acknowledged, clean, if and only if the second record is
   at least as long as what the failed write left.
   */
  lemma ReadsBackExactlyWhen(
    H: Hash, f: FileLog, txid: TxnId, rtype: u16, payload: Bytes, k: nat, txid2: TxnId, rtype2: u16, payload2: Bytes)
    requires Covered(f) && f.size == |f.file| && Ready(H, Seen(f))
    requires Attempts(H, Seen(f), txid, rtype, payload) && Attempts(H, Seen(f), txid2, rtype2, payload2)
    requires k <= RecordLength(NextFields(Seen(f), txid, rtype, payload))
    ensures var (g, out) := ShortThenWhole(H, f, txid, rtype, payload, k, txid2, rtype2, payload2);
      var s := Scan(H, g.file);
      && out.Done?
      && (s.end.Clean? && s.recs == Accepted(H, f.file) + [out.rec]
          <==> k <= RecordLength(NextFields(Seen(f), txid2, rtype2, payload2)))
  {
    hide Scan, ScanFrom, Encoded, RecordOf, Genuine, Image, AppendStep, CommitmentOf;
    SecondGoesOver(H, f, txid, rtype, payload, k, txid2, rtype2, payload2);
    assert f.file[..f.size] == f.file;
    var r := NextRecord(H, f, txid2, rtype2, payload2);
    var x := Encoded(H, NextFields(Seen(f), txid, rtype, payload));
    var left := Leftover(x, k, Image(H, r));
    ReopenAfterShort(H, f.file, r, left);
    ScanIsShort(H, left, |Accepted(H, f.file)| + 2, r.commitment);
  }

  lemma NextRecord(H: Hash, f: FileLog, txid: TxnId, rtype: u16, payload: Bytes) returns (r: Record)
    requires Covered(f) && Ready(H, Seen(f)) && Attempts(H, Seen(f), txid, rtype, payload)
    ensures var g := NextFields(Seen(f), txid, rtype, payload);
      && Encodable(g) && r == RecordOf(H, g) && Extends(H, Accepted(H, Seen(f).buf), r)
      && Image(H, r) == Encoded(H, g) && |Encoded(H, g)| == RecordLength(g)
  {
    hide Scan, Encoded, RecordOf, Genuine, Image, CommitmentOf;
    var g := NextFields(Seen(f), txid, rtype, payload);
    NextIsGenuine(H, g);
    r := RecordOf(H, g);
  }

  lemma ScanIsShort(H: Hash, data: Bytes, expected: nat, prev: Digest)
    ensures var s := ScanFrom(H, data, expected, prev); s.recs == [] ==> s.bytes == 0
    ensures var s := ScanFrom(H, data, expected, prev); data == [] ==> s == Scanned([], 0, Clean)
  {
    hide DecodeRecord;
  }

  /** Bytes left over that do not begin a record make the reopened journal fatal. */
  lemma LeftoverIsFatal(H: Hash, buf: Bytes, r: Record, left: Bytes)
    requires Scan(H, buf).end.Clean? && Extends(H, Accepted(H, buf), r)
    requires |left| >= 8 && left[..8] != RECORD_MAGIC
    ensures Scan(H, buf + Image(H, r) + left).end.Fatal?
  {
    hide Genuine, Image, Scan;
    ReopenAfterShort(H, buf, r, left);
  }

  function Zeros(): Bytes
  {
    seq(64, _ => 0)
  }

  /** The bytes 152 to 160 of a record with 64 zero bytes of payload are zero. */
  lemma ZerosInside(H: Hash, f: Fields)
    requires f.payload == Zeros()
    ensures |Encoded(H, f)| > 160 && Encoded(H, f)[152..160] == seq(8, _ => 0)
  {
    hide Encoded, Framing, Identity;
    var b, end := Encoded(H, f) + [], RecordLength(f) - 44;
    EncodedLayout(H, f, []);
    assert b == Encoded(H, f);
    assert b[108..end][44..52] == b[152..160];
  }

  /**
   Such a run on any journal with room: the first 160 bytes of a record of zeros, then an empty
   record. The empty record is acknowledged, and the file does not open again.
   */
  lemma ShorterSecondIsFatal(H: Hash, f: FileLog, txid: TxnId, rtype: u16)
    requires Covered(f) && f.size == |f.file| && Ready(H, Seen(f))
    requires Attempts(H, Seen(f), txid, rtype, Zeros()) && Attempts(H, Seen(f), txid, rtype, [])
    ensures var (g, out) := ShortThenWhole(H, f, txid, rtype, Zeros(), 160, txid, rtype, []);
      out.Done? && Scan(H, g.file).end.Fatal?
  {
    hide Scan, Encoded, RecordOf, Genuine, Image, AppendStep, CommitmentOf;
    assert f.file[..f.size] == f.file;
    SecondGoesOver(H, f, txid, rtype, Zeros(), 160, txid, rtype, []);
    var r := NextRecord(H, f, txid, rtype, []);
    var x := Encoded(H, NextFields(Seen(f), txid, rtype, Zeros()));
    ZerosInside(H, NextFields(Seen(f), txid, rtype, Zeros()));
    var left := Leftover(x, 160, Image(H, r));
    assert left == x[152..160] && left[..8] == left && left[0] != RECORD_MAGIC[0];
    LeftoverIsFatal(H, f.file, r, left);
  }
}
