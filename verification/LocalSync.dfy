/**
 Journaled local sync (internal/localsync/sync.go, apply.go, journaled.go).

 A run opens the journal, resumes the open transaction from its plan snapshot or plans
 afresh, applies the plan operation by operation with a durable progress record after
 each, and confirms. Every effect may be the last one of the process: a method returns
 `Stop` nondeterministically before or after any effect, and an append may be cut at any
 byte. The postconditions therefore speak of every interruption.

 One pair of roots is fixed. The destination changes only through `Sync`. The source may
 change between transactions but not while one is open.
 */
module LocalSync {
  import opened Bytes
  import opened RecordCodec
  import opened JournalScan
  import opened JournalWriter
  import opened JournalPayload
  import opened TxnState
  import opened SyncPlan
  import opened Lex

  datatype Plan = Plan(roots: Roots, ops: seq<Op>)

  /**
   The hash, the plan's JSON form and its parser, the two roots, and the path grammar's rules on
   names, beside its limits on length.
   */
  datatype Config = Config(
    H: Hash, format: Plan -> Bytes, parse: Bytes -> Option<Plan>, roots: Roots, names: Path -> bool)

  /** Parsing undoes formatting, and the roots read back from an observation record. */
  ghost predicate Usable(c: Config)
  {
    && (forall p: Plan :: c.parse(c.format(p)) == Some(p))
    && |c.roots.source| + |c.roots.destination| < 65000
  }

  /** Everything a stopped process leaves behind. temps: the directories with a staging file in them. */
  datatype Disk = Disk(log: Log, snapshot: Option<Bytes>, dest: Tree, temps: set<Path>)

  datatype Failure =
    | PathUnsafe | JournalCorrupt | JournalFull | FieldTooLong
    | SnapshotMissing | SnapshotUnreadable | SnapshotMismatch | ProgressBeyondPlan
    | PlanConflict | SourceMissing | SourceChanged | DestConflict

  datatype Status = Go | Stop | Fail(why: Failure)

  function Parent(p: Path): Path
  {
    if p == [] then [] else if p[|p| - 1] == SLASH then p[..|p| - 1] else Parent(p[..|p| - 1])
  }

  /** The path grammar. */
  predicate Lawful(c: Config, p: Path)
  {
    WithinBudget(p) && c.names(p)
  }

  predicate LawfulTree(c: Config, t: Tree)
  {
    forall p | p in t :: Lawful(c, p)
  }

  predicate LawfulOps(c: Config, ops: seq<Op>)
  {
    forall i | 0 <= i < |ops| :: Lawful(c, ops[i].rel)
  }

  /** Whether the process stops here; a calm run never does. */
  method Stops(calm: bool) returns (stop: bool)
    ensures calm ==> !stop
  {
    stop := *;
    if calm { stop := false; }
  }

  // ---------- the invariant ----------

  function Records(c: Config, d: Disk): seq<Record>
  {
    Accepted(c.H, d.log.buf)
  }

  function Current(c: Config, d: Disk): Cursor
  {
    ObserveAll(Records(c, d))
  }

  /** The last transaction is authorized and neither confirmed nor cancelled: the next run resumes it. */
  predicate Open(t: Cursor)
  {
    t.found && !t.txn.cancelled && t.txn.hasPlan && t.txn.authorized && !t.txn.confirmed
  }

  predicate Settled(t: Cursor)
  {
    t.found && !t.txn.cancelled && t.txn.hasPlan && t.txn.confirmed
  }

  /** The directories in which carrying out ops stages files. */
  function StagingDirs(ops: seq<Op>): set<Path>
  {
    set i | 0 <= i < |ops| && ops[i].final.FinalFile? && !ops[i].action.Skip? :: Parent(ops[i].rel)
  }

  predicate Small(ops: seq<Op>)
  {
    |ops| < 0x1_0000_0000 && Transferred(ops) < 0x8000_0000_0000_0000
  }

  /** The operations that hold in dest: the first n, and every skip. The others can be carried out. */
  predicate Progressed(H: Hash, ops: seq<Op>, n: nat, dest: Tree)
  {
    && n <= |ops|
    && (forall i | 0 <= i < |ops| :: i < n || ops[i].action.Skip? ==> Holds(H, ops[i], dest))
    && (forall i | 0 <= i < |ops| :: Applicable(ops[i], dest))
  }

  /**
   The open transaction with plan g, of which n operations are done: the snapshot is g and its
   digest is the journaled one, the journaled progress is at most n, and staging files lie
   only where an operation still to come will clean them up.
   */
  predicate OpenInv(c: Config, d: Disk, g: Plan, n: nat)
  {
    var t := Current(c, d).txn;
    && g.roots == c.roots && Small(g.ops) && LawfulOps(c, g.ops)
    && d.snapshot == Some(c.format(g)) && t.planDigest == c.H(c.format(g))
    && t.nextOp <= n && Progressed(c.H, g.ops, n, d.dest)
    && t.bytesCum == Transferred(g.ops[..t.nextOp])
    && d.temps <= StagingDirs(g.ops[n..])
  }

  /** What a confirmed transaction leaves: its plan, known by its digest, holds. */
  predicate SettledInv(c: Config, d: Disk, g: Plan)
  {
    var t := Current(c, d).txn;
    && t.planDigest == c.H(c.format(g)) && AllHold(c.H, g.ops, d.dest)
    && t.nextOp <= |g.ops| && t.bytesCum == Transferred(g.ops[..t.nextOp])
  }

  /** The journal's part: readable, one pair of roots, and at most one confirmation per transaction. */
  ghost predicate JournalInv(c: Config, d: Disk)
  {
    var t := Current(c, d);
    && Sane(c.H, d.log)
    && (t.found ==> t.txn.roots == c.roots)
    && (t.found && !t.txn.confirmed ==> Confirmations(Records(c, d), t.txn.id) == 0)
    && (forall id :: Confirmations(Records(c, d), id) <= 1)
  }

  /** What holds whenever no process is running. g is the plan of the last transaction. */
  ghost predicate Inv(c: Config, d: Disk, g: Plan)
  {
    var t := Current(c, d);
    && JournalInv(c, d) && TreeClosed(d.dest)
    && (if Open(t) then OpenInv(c, d, g, t.txn.nextOp) else d.temps == {})
    && (Settled(t) ==> SettledInv(c, d, g))
  }

  /** A run starts with nothing: no journal, no staging files, any destination. */
  lemma InitialInv(c: Config, dest: Tree, g: Plan)
    requires TreeClosed(dest)
    ensures Inv(c, Disk(Log([], false, 0, GENESIS), None, dest, {}), g)
  {
    hide Confirmations;
    var d := Disk(Log([], false, 0, GENESIS), None, dest, {});
    assert Records(c, d) == [];
    forall id
      ensures Confirmations(Records(c, d), id) <= 1
    {
      NoRecordsNoConfirmations(id);
    }
  }

  lemma NoRecordsNoConfirmations(id: TxnId)
    ensures Confirmations([], id) == 0
  {
  }

  // ---------- changes to the destination ----------

  /** Only paths of src changed, and each to what src has there. */
  predicate OnlyTowards(src: Tree, before: Tree, after: Tree)
  {
    && (forall p | p in before :: p in after)
    && (forall p | p in after :: (p in before && after[p] == before[p]) || (p in src && SameNode(src[p], after[p])))
  }

  predicate SameNode(a: Node, b: Node)
  {
    match a
    case Dir(_) => b.Dir?
    case File(_, content) => b.File? && b.content == content
  }

  lemma OnlyTowardsTransitive(src: Tree, a: Tree, b: Tree, c: Tree)
    requires OnlyTowards(src, a, b) && OnlyTowards(src, b, c)
    ensures OnlyTowards(src, a, c)
  {
  }

  /** The directories above p are there. */
  predicate ParentsThere(t: Tree, p: Path)
  {
    forall a | a in Ancestors(p) :: a in t && t[a].Dir?
  }

  lemma PutKeepsClosed(t: Tree, p: Path, node: Node)
    requires TreeClosed(t) && ParentsThere(t, p)
    requires p in t && t[p].Dir? ==> node.Dir?
    ensures TreeClosed(t[p := node])
  {
    var t' := t[p := node];
    forall q, a | q in t' && a in Ancestors(q)
      ensures a in t' && t'[a].Dir?
    {
      if q == p {
        AncestorsAreShorter(p, a);
      }
    }
  }

  lemma AncestorsAreShorter(p: Path, a: Path)
    requires a in Ancestors(p)
    ensures |a| < |p| && a != p
  {
  }

  /** Setting op's own path to what op aims at carries the plan forward. */
  lemma PutProgresses(H: Hash, ops: seq<Op>, i: nat, t: Tree, node: Node)
    requires i < |ops| && Progressed(H, ops, i, t)
    requires forall j, k | 0 <= j < k < |ops| :: ops[j].rel != ops[k].rel
    requires Holds(H, ops[i], t[ops[i].rel := node])
    ensures Progressed(H, ops, i + 1, t[ops[i].rel := node])
  {
    var t' := t[ops[i].rel := node];
    forall j | 0 <= j < |ops|
      ensures Applicable(ops[j], t') && (j < i + 1 || ops[j].action.Skip? ==> Holds(H, ops[j], t'))
    {
      if j != i {
        assert ops[j].rel != ops[i].rel;
        assert Applicable(ops[j], t);
      }
    }
  }

  /** With the first i operations done, every directory above operation i exists. */
  lemma ParentsAreThere(c: Config, src: Tree, ms: seq<Entry>, ops: seq<Op>, i: nat, dest: Tree)
    requires IsManifest(c.H, ms, src) && TreeClosed(src) && Covers(ops, ms)
    requires i < |ops| && Progressed(c.H, ops, i, dest)
    ensures ParentsThere(dest, ops[i].rel)
  {
    forall a | a in Ancestors(ops[i].rel)
      ensures a in dest && dest[a].Dir?
    {
      var j := ParentsFirst(c.H, ops, ms, src, i, a);
      assert Holds(c.H, ops[j], dest);
    }
  }

  lemma CoveredDistinct(H: Hash, ms: seq<Entry>, src: Tree, ops: seq<Op>)
    requires IsManifest(H, ms, src) && Covers(ops, ms)
    ensures forall j, k | 0 <= j < k < |ops| :: ops[j].rel != ops[k].rel
  {
    forall j, k | 0 <= j < k < |ops|
      ensures ops[j].rel != ops[k].rel
    {
      assert Matches(ops[j], ms[j]) && Matches(ops[k], ms[k]);
      if ms[j].rel == ms[k].rel {
        SortedDistinct(ms, j, k);
      }
    }
  }

  // ---------- applying one operation ----------

  const DIR_MODE: u32 := 493   // 0o755
  const FILE_MODE: u32 := 420  // 0o644

  /** os.MkdirAll of the directories above p: refused if one of them is a file. */
  function MkdirParents(t: Tree, p: Path): Option<Tree>
  {
    if exists a | a in Ancestors(p) :: a in t && t[a].File? then None
    else Some(t + map a | a in Ancestors(p) && a !in t :: Dir(DIR_MODE))
  }

  lemma MkdirParentsNoop(t: Tree, p: Path)
    requires ParentsThere(t, p)
    ensures MkdirParents(t, p) == Some(t)
  {
    var missing := map a | a in Ancestors(p) && a !in t :: Dir(DIR_MODE);
    assert missing == map[];
    assert t + missing == t;
  }

  /** applyMkdir. */
  method ApplyMkdir(d: Disk, op: Op, calm: bool) returns (d': Disk, st: Status)
    ensures d' == d.(dest := d'.dest) && (calm ==> !st.Stop?)
    ensures st.Fail? ==> d' == d && (MkdirParents(d.dest, op.rel).None? || (op.rel in d.dest && d.dest[op.rel].File?))
    ensures d'.dest != d.dest ==>
      && op.rel !in d.dest && MkdirParents(d.dest, op.rel).Some?
      && d'.dest == MkdirParents(d.dest, op.rel).value[op.rel := Dir(DirMode(op))]
    ensures st.Go? ==> op.rel in d'.dest && d'.dest[op.rel].Dir?
  {
    hide MkdirParents;
    var stop := Stops(calm);
    if stop { return d, Stop; }
    if op.rel in d.dest {
      if d.dest[op.rel].Dir? { return d, Go; }
      return d, Fail(DestConflict);
    }
    match MkdirParents(d.dest, op.rel) {
      case None => return d, Fail(DestConflict);
      case Some(t) =>
        d' := d.(dest := t[op.rel := Dir(DirMode(op))]);
        stop := Stops(calm);
        if stop { return d', Stop; }
        return d', Go;
    }
  }

  function DirMode(op: Op): u32
  {
    if op.mode == 0 then DIR_MODE else op.mode
  }

  /** The file applyFile publishes. */
  function Published(src: Tree, op: Op): Node
    requires op.rel in src && src[op.rel].File?
  {
    File(if op.mode == 0 then FILE_MODE else op.mode, src[op.rel].content)
  }

  /** The source still has what was planned. */
  predicate SourceAgrees(H: Hash, src: Tree, op: Op)
  {
    && op.rel in src && src[op.rel].File?
    && op.digest == Some(H(src[op.rel].content))
    && (op.size != 0 ==> |src[op.rel].content| == op.size)
  }

  /**
   applyFile: check the source, clear stale staging files, stage, verify, rename. Whatever happens
   the final path holds its old content or exactly the source's, and a staging file is left
   behind only by a stop.
   */
  method ApplyFile(H: Hash, src: Tree, d: Disk, op: Op, calm: bool) returns (d': Disk, st: Status, n: nat)
    ensures d'.log == d.log && d'.snapshot == d.snapshot && (calm ==> !st.Stop?)
    ensures st.Fail? ==>
      !SourceAgrees(H, src, op) || MkdirParents(d.dest, op.rel).None? || (op.rel in d.dest && d.dest[op.rel].Dir?)
    ensures d'.dest != d.dest ==>
      && SourceAgrees(H, src, op) && MkdirParents(d.dest, op.rel).Some?
      && var t := MkdirParents(d.dest, op.rel).value; d'.dest == t || d'.dest == t[op.rel := Published(src, op)]
    ensures st.Go? ==>
      && SourceAgrees(H, src, op) && MkdirParents(d.dest, op.rel).Some? && n == |src[op.rel].content|
      && d'.dest == MkdirParents(d.dest, op.rel).value[op.rel := Published(src, op)]
    ensures op.rel in d.dest && d.dest[op.rel].Dir? ==>
      !st.Go? && (op.rel in d'.dest && d'.dest[op.rel] == d.dest[op.rel])
    ensures st.Go? ==> d'.temps == d.temps - {Parent(op.rel)}
    ensures st.Stop? ==> d'.temps <= d.temps + {Parent(op.rel)}
    ensures st.Fail? ==> d'.temps == d.temps
  {
    hide MkdirParents, Parent;
    d', n := d, 0;
    var stop := Stops(calm);
    if stop { return d', Stop, 0; }
    if op.digest.None? { return d', Fail(SourceChanged), 0; }
    if op.rel !in src || !src[op.rel].File? { return d', Fail(SourceMissing), 0; }
    var content := src[op.rel].content;
    if Some(H(content)) != op.digest || (op.size != 0 && |content| != op.size) { return d', Fail(SourceChanged), 0; }
    var parents := MkdirParents(d.dest, op.rel);
    if parents.None? { return d', Fail(DestConflict), 0; }
    MkdirParentsKeeps(d.dest, op.rel);
    d' := d'.(dest := parents.value);
    stop := Stops(calm);
    if stop { return d', Stop, 0; }
    if op.rel in d'.dest && d'.dest[op.rel].Dir? { return d', Fail(DestConflict), 0; }
    d' := d'.(temps := d'.temps - {Parent(op.rel)});
    stop := Stops(calm);
    if stop { return d', Stop, 0; }
    d' := d'.(temps := d'.temps + {Parent(op.rel)});
    stop := Stops(calm);
    if stop { return d', Stop, 0; }
    // The staging file is complete and verified; the rename publishes it.
    d' := d'.(dest := d'.dest[op.rel := Published(src, op)], temps := d'.temps - {Parent(op.rel)});
    stop := Stops(calm);
    if stop { return d', Stop, 0; }
    return d', Go, |content|;
  }

  lemma MkdirParentsKeeps(t: Tree, p: Path)
    requires MkdirParents(t, p).Some?
    ensures forall q | q in t :: q in MkdirParents(t, p).value && MkdirParents(t, p).value[q] == t[q]
    ensures p in MkdirParents(t, p).value ==> p in t
  {
    assert forall a | a in Ancestors(p) :: |a| < |p|;
  }

  /** What carrying out op may do to a disk whose plan has reached it. */
  predicate OpEffect(H: Hash, src: Tree, d: Disk, d': Disk, op: Op)
  {
    && d'.log == d.log && d'.snapshot == d.snapshot
    && (d'.dest == d.dest ||
        (&& op.rel in src && op.rel in d'.dest && SameNode(src[op.rel], d'.dest[op.rel])
         && d'.dest == d.dest[op.rel := d'.dest[op.rel]] && Holds(H, op, d'.dest)))
  }

  /** One turn of ApplyWith's switch, on an operation the plan has reached. */
  method ApplyOp(H: Hash, src: Tree, ghost s: Entry, d: Disk, op: Op, calm: bool) returns (d': Disk, st: Status, n: nat)
    requires op.rel in src && s == EntryOf(H, op.rel, src[op.rel]) && Matches(op, s)
    requires ParentsThere(d.dest, op.rel) && Applicable(op, d.dest)
    requires op.action.Skip? ==> Holds(H, op, d.dest)
    ensures OpEffect(H, src, d, d', op)
    ensures !st.Fail? && (calm ==> !st.Stop?)
    ensures st.Go? ==> Holds(H, op, d'.dest) && n == TransferredBy(op)
    ensures st.Go? ==>
      d'.temps == if op.final.FinalFile? && !op.action.Skip? then d.temps - {Parent(op.rel)} else d.temps
    ensures op.final.FinalDirectory? || op.action.Skip? ==> d'.temps == d.temps
    ensures d'.temps <= d.temps + {Parent(op.rel)}
    ensures d.dest != d'.dest && op.rel in d.dest ==> (d.dest[op.rel].Dir? <==> d'.dest[op.rel].Dir?)
  {
    hide Parent, ParentsThere, MkdirParents;
    MkdirParentsNoop(d.dest, op.rel);
    match op.action {
      case Skip => return d, Go, 0;
      case Mkdir =>
        d', st := ApplyMkdir(d, op, calm);
        assert d'.dest != d.dest ==> SameNode(src[op.rel], Dir(DirMode(op)));
        return d', st, 0;
      case _ =>
        assert SourceAgrees(H, src, op);
        d', st, n := ApplyFile(H, src, d, op, calm);
        assert d'.dest != d.dest ==> SameNode(src[op.rel], Published(src, op));
        return d', st, n;
    }
  }

  // ---------- the open transaction, step by step ----------

  /** Transaction id is open with plan g, of which n operations are done. */
  ghost predicate Held(c: Config, d: Disk, g: Plan, id: TxnId, n: nat)
  {
    var t := Current(c, d);
    && JournalInv(c, d) && TreeClosed(d.dest)
    && Open(t) && t.txn.id == id
    && OpenInv(c, d, g, n)
  }

  lemma {:induction false} StagingMonotone(ops: seq<Op>, m: nat, n: nat)
    requires m <= n <= |ops|
    ensures StagingDirs(ops[n..]) <= StagingDirs(ops[m..])
  {
    forall p | p in StagingDirs(ops[n..])
      ensures p in StagingDirs(ops[m..])
    {
      var i :| 0 <= i < |ops[n..]| && ops[n..][i].final.FinalFile? && !ops[n..][i].action.Skip? &&
        p == Parent(ops[n..][i].rel);
      assert ops[m..][n - m + i] == ops[n..][i];
    }
  }

  lemma StagingStep(ops: seq<Op>, i: nat)
    requires i < |ops|
    ensures ops[i].final.FinalFile? && !ops[i].action.Skip? ==> Parent(ops[i].rel) in StagingDirs(ops[i..])
    ensures forall p | p in StagingDirs(ops[i..]) ::
      p in StagingDirs(ops[i + 1..]) || (ops[i].final.FinalFile? && !ops[i].action.Skip? && p == Parent(ops[i].rel))
  {
    hide Parent;
    assert ops[i..][0] == ops[i];
    forall p | p in StagingDirs(ops[i..])
      ensures p in StagingDirs(ops[i + 1..]) || (ops[i].final.FinalFile? && !ops[i].action.Skip? &&
        p == Parent(ops[i].rel))
    {
      var k :| 0 <= k < |ops[i..]| && ops[i..][k].final.FinalFile? && !ops[i..][k].action.Skip? &&
        p == Parent(ops[i..][k].rel);
      if k > 0 {
        assert ops[i + 1..][k - 1] == ops[i..][k];
      }
    }
  }

  /** An open transaction is a state the next run can start from. */
  lemma HeldIsInv(c: Config, d: Disk, g: Plan, id: TxnId, n: nat)
    requires Held(c, d, g, id, n)
    ensures Inv(c, d, g)
  {
    hide Current, JournalInv, TreeClosed, StagingDirs, Holds, Applicable;
    StagingMonotone(g.ops, Current(c, d).txn.nextOp, n);
  }

  /** Carrying out operation i changes only its own path, and keeps the tree closed. */
  lemma AfterOpTree(H: Hash, src: Tree, d: Disk, d': Disk, op: Op)
    requires TreeClosed(d.dest) && ParentsThere(d.dest, op.rel) && OpEffect(H, src, d, d', op)
    requires d.dest != d'.dest && op.rel in d.dest ==> (d.dest[op.rel].Dir? <==> d'.dest[op.rel].Dir?)
    ensures TreeClosed(d'.dest) && OnlyTowards(src, d.dest, d'.dest)
  {
    hide TreeClosed, ParentsThere, Holds;
    if d'.dest != d.dest {
      PutKeepsClosed(d.dest, op.rel, d'.dest[op.rel]);
    }
  }

  lemma AfterOpProgress(H: Hash, src: Tree, d: Disk, d': Disk, ops: seq<Op>, i: nat)
    requires i < |ops| && Progressed(H, ops, i, d.dest) && OpEffect(H, src, d, d', ops[i])
    requires forall j, k | 0 <= j < k < |ops| :: ops[j].rel != ops[k].rel
    ensures Progressed(H, ops, i, d'.dest)
    ensures Holds(H, ops[i], d'.dest) ==> Progressed(H, ops, i + 1, d'.dest)
  {
    hide Holds, Applicable, SameNode;
    if d'.dest != d.dest {
      PutProgresses(H, ops, i, d.dest, d'.dest[ops[i].rel]);
    } else if Holds(H, ops[i], d'.dest) {
      assert Progressed(H, ops, i + 1, d'.dest);
    }
  }

  /** Stopping anywhere inside operation i leaves the transaction open at i. */
  lemma AfterOpStop(c: Config, src: Tree, d: Disk, d': Disk, g: Plan, id: TxnId, i: nat)
    requires Held(c, d, g, id, i) && i < |g.ops| && TreeClosed(d'.dest)
    requires OpEffect(c.H, src, d, d', g.ops[i]) && Progressed(c.H, g.ops, i, d'.dest)
    requires d'.temps <= d.temps + {Parent(g.ops[i].rel)}
    requires g.ops[i].final.FinalDirectory? || g.ops[i].action.Skip? ==> d'.temps == d.temps
    ensures Held(c, d', g, id, i)
  {
    hide TreeClosed, Progressed, StagingDirs, Parent, Sane;
    StagingStep(g.ops, i);
    assert Current(c, d') == Current(c, d) && Records(c, d') == Records(c, d);
  }

  /** Finishing operation i moves the transaction on to i + 1. */
  lemma AfterOpGo(c: Config, src: Tree, d: Disk, d': Disk, g: Plan, id: TxnId, i: nat)
    requires Held(c, d, g, id, i) && i < |g.ops| && TreeClosed(d'.dest)
    requires OpEffect(c.H, src, d, d', g.ops[i]) && Progressed(c.H, g.ops, i + 1, d'.dest)
    requires var op := g.ops[i];
      d'.temps == if op.final.FinalFile? && !op.action.Skip? then d.temps - {Parent(op.rel)} else d.temps
    ensures Held(c, d', g, id, i + 1)
  {
    hide TreeClosed, Progressed, StagingDirs, Parent, Sane;
    StagingStep(g.ops, i);
    assert Current(c, d') == Current(c, d) && Records(c, d') == Records(c, d);
  }

  // ---------- the journal, record by record ----------

  /** Which records a run may append, given the transaction the journal ends with. */
  ghost predicate MayAppend(c: Config, d: Disk, id: TxnId, rtype: u16, payload: Bytes)
  {
    var t := Current(c, d);
    if rtype == TYPE_OBSERVATION then id !in Ids(Records(c, d)) && DecodeObservation(payload) == Some(c.roots)
    else t.found && t.txn.id == id && !t.txn.confirmed
  }

  /** What a permitted record does to the identity of the current transaction. */
  lemma ObservePermitted(t: Cursor, r: Record)
    ensures r.rtype == TYPE_OBSERVATION && DecodeObservation(r.payload).Some? ==>
      Observe(t, r) == Cursor(true, NewTxn(r.txid, DecodeObservation(r.payload).value))
    ensures r.rtype != TYPE_OBSERVATION && t.found && r.txid == t.txn.id && !t.txn.confirmed ==>
      var t' := Observe(t, r);
      t'.found && t'.txn.id == t.txn.id && t'.txn.roots == t.txn.roots &&
        (t'.txn.confirmed <==> r.rtype == TYPE_CONFIRMATION)
  {
    hide DecodeObservation, DecodeProgress, DecodePlanDigest;
  }

  /** Appending a permitted record keeps the journal's invariant. */
  lemma JournalGrows(c: Config, d: Disk, d': Disk, id: TxnId, rtype: u16, payload: Bytes)
    requires JournalInv(c, d) && Sane(c.H, d'.log) && MayAppend(c, d, id, rtype, payload)
    requires Grows(Records(c, d), Records(c, d'), id, rtype, payload)
    ensures JournalInv(c, d')
    ensures Current(c, d') == Observe(Current(c, d), Records(c, d')[|Records(c, d)|])
    ensures Ids(Records(c, d')) == Ids(Records(c, d)) + {id}
  {
    hide Sane, Observe, DecodeObservation, Confirmations, Ids, Records;
    var rs, rs' := Records(c, d), Records(c, d');
    GrowsMeaning(rs, rs', id, rtype, payload);
    ObservePermitted(Current(c, d), rs'[|rs|]);
    if rtype == TYPE_OBSERVATION {
      FreshHasNoConfirmation(rs, id);
    }
  }

  // "mkdir", "copy", "replace", "skip"
  function ActionName(a: SyncPlan.Action): (b: Bytes)
    ensures |b| <= 7
  {
    match a
    case Mkdir => [109, 107, 100, 105, 114]
    case Copy => [99, 111, 112, 121]
    case Replace => [114, 101, 112, 108, 97, 99, 101]
    case Skip => [115, 107, 105, 112]
  }

  /** The progress record for operation i of ops. */
  function ProgressOf(ops: seq<Op>, i: nat): Progress
    requires i < |ops| && Small(ops) && Transferred(ops[..i + 1]) < 0x8000_0000_0000_0000
  {
    Progress(i, ActionName(ops[i].action), ops[i].rel, Transferred(ops[..i + 1]))
  }

  lemma BudgetIsShort(p: Path)
    requires WithinBudget(p)
    ensures |p| <= 65000
  {
  }

  lemma LawfulProgress(c: Config, d: Disk, g: Plan, id: TxnId, n: nat, i: nat)
    requires Held(c, d, g, id, n) && i < |g.ops|
    ensures Lawful(c, g.ops[i].rel) && |g.ops[i].rel| <= 65000
  {
    hide JournalInv, TreeClosed, StagingDirs, Transferred, Holds, Applicable, WithinBudget;
    BudgetIsShort(g.ops[i].rel);
  }

  /**
   A progress record keeps the transaction open with i + 1 operations done, and reads back: the
   path grammar keeps paths clear of the lengths at which a record is lost.
   */
  lemma AfterProgress(c: Config, d: Disk, d': Disk, g: Plan, id: TxnId, i: nat)
    requires Held(c, d, g, id, i + 1) && i < |g.ops| && Transferred(g.ops[..i + 1]) < 0x8000_0000_0000_0000
    requires d' == d.(log := d'.log) && JournalInv(c, d')
    requires EncodeProgress(ProgressOf(g.ops, i)).Some?
    requires Wrote(c, d, d', id, TYPE_PROGRESS, EncodeProgress(ProgressOf(g.ops, i)).value)
    ensures Held(c, d', g, id, i + 1) && Current(c, d').txn.nextOp == i + 1
  {
    hide TreeClosed, Progressed, StagingDirs, EncodeProgress, DecodeProgress, JournalInv, Transferred, Records,
      Current, WithinBudget;
    ProgressRoundTrip(ProgressOf(g.ops, i));
    BudgetIsShort(g.ops[i].rel);
    ShortProgressIsReadable(ProgressOf(g.ops, i));
  }

  // ---------- applying a plan ----------

  /** Records are only ever added, and only for transactions in ids. */
  predicate Adds(c: Config, d: Disk, d': Disk, ids: set<TxnId>)
  {
    Records(c, d) <= Records(c, d') && Ids(Records(c, d')) <= Ids(Records(c, d)) + ids
  }

  lemma GrowsAdds(c: Config, d0: Disk, d: Disk, d': Disk, id: TxnId, rtype: u16, payload: Bytes, ids: set<TxnId>)
    requires Adds(c, d0, d, ids) && (id in ids || id in Ids(Records(c, d0)))
    requires Records(c, d') == Records(c, d) || Grows(Records(c, d), Records(c, d'), id, rtype, payload)
    ensures Adds(c, d0, d', ids)
  {
    hide Records;
    if Records(c, d') != Records(c, d) {
      GrowsMeaning(Records(c, d), Records(c, d'), id, rtype, payload);
    }
  }

  /** One append of the open transaction's progress record. */
  method AppendProgress(c: Config, d: Disk, g: Plan, id: TxnId, i: nat, calm: bool) returns (d': Disk, st: Status)
    requires Ready(c.H, d.log) && Held(c, d, g, id, i + 1) && i < |g.ops|
    requires Transferred(g.ops[..i + 1]) < 0x8000_0000_0000_0000
    ensures d' == d.(log := d'.log)
    ensures Held(c, d', g, id, i + 1)
    ensures Adds(c, d, d', {id})
    ensures st.Go? ==> Ready(c.H, d'.log) && Current(c, d').txn.nextOp == i + 1
    ensures !st.Go? ==> Current(c, d').txn.nextOp == Current(c, d).txn.nextOp || Current(c, d').txn.nextOp == i + 1
    ensures (st.Fail? ==> st.why.JournalFull?) && (calm ==> !st.Stop?)
  {
    hide Held, Ready, Wrote, Transferred, EncodeProgress, Records, Current, Adds, JournalInv, MayAppend, Small;
    HeldUnfolds(c, d, g, id, i + 1);
    AddsNothing(c, d, {id});
    LawfulProgress(c, d, g, id, i + 1, i);
    ProgressEncodes(ProgressOf(g.ops, i));
    var p := EncodeProgress(ProgressOf(g.ops, i));
    if p.None? {
      return d, Fail(FieldTooLong);
    }
    ProgressFits(ProgressOf(g.ops, i));
    HeldMayAppend(c, d, g, id, i + 1, TYPE_PROGRESS, p.value);
    d', st := Write(c, d, id, TYPE_PROGRESS, p.value, calm);
    if Records(c, d') != Records(c, d) || st.Go? {
      AfterProgress(c, d, d', g, id, i);
    } else {
      HeldWithJournal(c, d, d', g, id, i + 1);
      CurrentSame(c, d, d');
    }
  }

  lemma HeldMayAppend(c: Config, d: Disk, g: Plan, id: TxnId, n: nat, rtype: u16, payload: Bytes)
    requires Held(c, d, g, id, n) && rtype != TYPE_OBSERVATION
    ensures JournalInv(c, d) && MayAppend(c, d, id, rtype, payload)
  {
    hide TreeClosed, OpenInv, JournalInv;
  }

  lemma HeldUnfolds(c: Config, d: Disk, g: Plan, id: TxnId, n: nat)
    requires Held(c, d, g, id, n)
    ensures Small(g.ops) && n <= |g.ops| && Sane(c.H, d.log)
  {
    hide Sane, TreeClosed, StagingDirs, Transferred, Holds, Applicable;
  }

  lemma AddsNothing(c: Config, d: Disk, ids: set<TxnId>)
    ensures Adds(c, d, d, ids)
  {
  }

  lemma ProgressEncodes(p: Progress)
    requires |p.action| <= 7 && |p.rel| <= 65000
    ensures EncodeProgress(p).Some?
  {
  }

  lemma ProgressFits(p: Progress)
    requires EncodeProgress(p).Some? && |p.action| <= 7
    ensures |EncodeProgress(p).value| <= MAX_PAYLOAD_BYTES
  {
    hide LE32, LE64;
    PutLength(p.action);
    PutLength(p.rel);
  }

  lemma HeldSameRecords(c: Config, d: Disk, d': Disk, g: Plan, id: TxnId, n: nat)
    requires Held(c, d, g, id, n) && d' == d.(log := d'.log) && Sane(c.H, d'.log)
    requires Records(c, d') == Records(c, d)
    ensures Held(c, d', g, id, n)
  {
    hide Sane, TreeClosed, Progressed, StagingDirs, Transferred;
  }

  /** The source tree, its listing, and a plan that covers it. */
  ghost predicate Planned(c: Config, src: Tree, ms: seq<Entry>, g: Plan)
  {
    IsManifest(c.H, ms, src) && TreeClosed(src) && Covers(g.ops, ms)
  }

  /** One iteration of ApplyWith: carry out operation i and record it. */
  method ApplyNext(c: Config, src: Tree, ghost ms: seq<Entry>, d: Disk, g: Plan, id: TxnId, i: nat, calm: bool)
    returns (d': Disk, st: Status, n: nat)
    requires Planned(c, src, ms, g) && i < |g.ops|
    requires Ready(c.H, d.log) && Held(c, d, g, id, i) && Current(c, d).txn.nextOp == i
    ensures st.Go? ==> Ready(c.H, d'.log) && Held(c, d', g, id, i + 1) && n == TransferredBy(g.ops[i])
    ensures st.Go? ==> Current(c, d').txn.nextOp == i + 1
    ensures !st.Go? ==> HeldNear(c, d', g, id, i) || HeldNear(c, d', g, id, i + 1)
    ensures OnlyTowards(src, d.dest, d'.dest) && Adds(c, d, d', {id})
    ensures (st.Fail? ==> st.why.JournalFull?) && (calm ==> !st.Stop?)
  {
    hide Ready, Held, Planned, Adds, OnlyTowards, TransferredBy, Transferred, Small, Current, WithinBudget;
    LawfulProgress(c, d, g, id, i, i);
    d', st, n := d, Fail(PathUnsafe), 0;
    if !Lawful(c, g.ops[i].rel) { return; }
    d', st, n := ApplyReached(c, src, ms, d, g, id, i, calm);
    SameLogAdds(c, d, d', {id});
    SameLogCurrent(c, d, d');
    if !st.Go? { return; }
    HeldUnfolds(c, d', g, id, i + 1);
    SmallPrefix(g.ops, i + 1);
    var d1 := d';
    d', st := AppendProgress(c, d1, g, id, i, calm);
    AddsTransitive(c, d, d1, d', {id});
  }

  /** n operations are done, and the journal says so or is one behind. */
  ghost predicate HeldNear(c: Config, d: Disk, g: Plan, id: TxnId, n: nat)
  {
    Held(c, d, g, id, n) && Current(c, d).txn.nextOp <= n <= Current(c, d).txn.nextOp + 1
  }

  lemma SameLogCurrent(c: Config, d: Disk, d': Disk)
    requires d'.log == d.log
    ensures Current(c, d') == Current(c, d)
  {
  }

  lemma SmallPrefix(ops: seq<Op>, n: nat)
    requires Small(ops) && n <= |ops|
    ensures Transferred(ops[..n]) < 0x8000_0000_0000_0000
  {
    TransferredMonotone(ops, n);
  }

  /** The effect of operation i on the open transaction, before it is recorded. */
  method ApplyReached(c: Config, src: Tree, ghost ms: seq<Entry>, d: Disk, g: Plan, id: TxnId, i: nat, calm: bool)
    returns (d': Disk, st: Status, n: nat)
    requires Planned(c, src, ms, g) && i < |g.ops|
    requires Held(c, d, g, id, i)
    ensures d'.log == d.log && !st.Fail? && (calm ==> !st.Stop?)
    ensures st.Go? ==> Held(c, d', g, id, i + 1) && n == TransferredBy(g.ops[i])
    ensures !st.Go? ==> Held(c, d', g, id, i)
    ensures OnlyTowards(src, d.dest, d'.dest)
  {
    hide Holds, Applicable, Parent, Matches, ParentsThere, OnlyTowards, Planned, Held, Progressed, TransferredBy,
      SameNode, EntryOf;
    OpIsReached(c, src, ms, d, g, id, i);
    var op := g.ops[i];
    d', st, n := ApplyOp(c.H, src, ms[i], d, op, calm);
    hide OpEffect;
    AfterOpTree(c.H, src, d, d', op);
    AfterOpProgress(c.H, src, d, d', g.ops, i);
    if st.Go? {
      AfterOpGo(c, src, d, d', g, id, i);
    } else {
      AfterOpStop(c, src, d, d', g, id, i);
    }
  }

  lemma SameLogAdds(c: Config, d: Disk, d': Disk, ids: set<TxnId>)
    requires d'.log == d.log
    ensures Adds(c, d, d', ids)
  {
  }

  lemma AddsTransitive(c: Config, d: Disk, d1: Disk, d2: Disk, ids: set<TxnId>)
    requires Adds(c, d, d1, ids) && Adds(c, d1, d2, ids)
    ensures Adds(c, d, d2, ids)
  {
    hide Records;
  }

  /** What operation i needs when the plan has reached it. */
  lemma OpIsReached(c: Config, src: Tree, ms: seq<Entry>, d: Disk, g: Plan, id: TxnId, i: nat)
    requires Planned(c, src, ms, g) && i < |g.ops| && Held(c, d, g, id, i)
    ensures |ms| == |g.ops| && TreeClosed(d.dest) && Progressed(c.H, g.ops, i, d.dest)
    ensures var op := g.ops[i];
      && op.rel in src && ms[i] == EntryOf(c.H, op.rel, src[op.rel]) && Matches(op, ms[i])
      && ParentsThere(d.dest, op.rel) && Applicable(op, d.dest)
      && (op.action.Skip? ==> Holds(c.H, op, d.dest))
    ensures forall j, k | 0 <= j < k < |g.ops| :: g.ops[j].rel != g.ops[k].rel
    ensures OnlyTowards(src, d.dest, d.dest)
    ensures Small(g.ops)
  {
    hide TreeClosed, Holds, Applicable, ParentsThere, StagingDirs, Transferred, JournalInv, Current;
    assert Matches(g.ops[i], ms[i]);
    ParentsAreThere(c, src, ms, g.ops, i, d.dest);
    CoveredDistinct(c.H, ms, src, g.ops);
  }

  /** ApplyWith: from operation startAt to the end, counting the earlier ones as done. */
  method ApplyWith(
    c: Config, src: Tree, ghost ms: seq<Entry>, d0: Disk, g: Plan, id: TxnId, startAt: nat, initialBytes: nat,
    calm: bool)
    returns (d: Disk, st: Status, completed: nat, skipped: nat, bytes: nat)
    requires Planned(c, src, ms, g)
    requires Ready(c.H, d0.log) && Held(c, d0, g, id, startAt) && startAt == Current(c, d0).txn.nextOp <= |g.ops|
    requires initialBytes == Transferred(g.ops[..startAt])
    ensures st.Go? ==> Ready(c.H, d.log) && Held(c, d, g, id, |g.ops|) && Current(c, d).txn.nextOp == |g.ops|
    ensures st.Go? ==> completed == Completed(g.ops) && skipped == Skipped(g.ops) && bytes == Transferred(g.ops)
    ensures !st.Go? ==> exists n | startAt <= n <= |g.ops| :: HeldNear(c, d, g, id, n)
    ensures OnlyTowards(src, d0.dest, d.dest) && Adds(c, d0, d, {id})
    ensures (st.Fail? ==> st.why.JournalFull?) && (calm ==> !st.Stop?)
  {
    hide Ready, Held, HeldNear, Planned, Adds, OnlyTowards, TransferredBy, Transferred, Completed, Skipped, Current;
    d, completed, skipped, bytes := d0, 0, 0, initialBytes;
    CountersStart(g.ops);
    var k := 0;
    while k < startAt
      invariant 0 <= k <= startAt
      invariant completed == Completed(g.ops[..k]) && skipped == Skipped(g.ops[..k])
    {
      CountersStep(g.ops, k);
      if g.ops[k].action.Skip? { skipped := skipped + 1; } else { completed := completed + 1; }
      k := k + 1;
    }
    AddsNothing(c, d0, {id});
    OnlyTowardsSelf(src, d0.dest);
    var i := startAt;
    while i < |g.ops|
      invariant startAt <= i <= |g.ops|
      invariant Ready(c.H, d.log) && Held(c, d, g, id, i) && Current(c, d).txn.nextOp == i
      invariant completed == Completed(g.ops[..i]) && skipped == Skipped(g.ops[..i]) && bytes == Transferred(g.ops[..i])
      invariant OnlyTowards(src, d0.dest, d.dest) && Adds(c, d0, d, {id})
    {
      var d1, n;
      d1, st, n := ApplyNext(c, src, ms, d, g, id, i, calm);
      OnlyTowardsTransitive(src, d0.dest, d.dest, d1.dest);
      AddsTransitive(c, d0, d, d1, {id});
      d := d1;
      if !st.Go? { return; }
      CountersStep(g.ops, i);
      if g.ops[i].action.Skip? { skipped := skipped + 1; } else { completed := completed + 1; }
      bytes := bytes + n;
      i := i + 1;
    }
    assert g.ops[..|g.ops|] == g.ops;
    st := Go;
  }

  lemma CountersStart(ops: seq<Op>)
    ensures Completed(ops[..0]) == 0 && Skipped(ops[..0]) == 0 && Transferred(ops[..0]) == 0
  {
  }

  lemma OnlyTowardsSelf(src: Tree, t: Tree)
    ensures OnlyTowards(src, t, t)
  {
  }

  // ---------- confirming ----------

  /** The confirmation of a plan: a function of the plan alone, however often its run was interrupted. */
  function ConfirmationFor(c: Config, g: Plan): Bytes
    requires Small(g.ops)
  {
    CountersAddUp(g.ops);
    EncodeConfirmation(c.H(c.format(g)), Completed(g.ops), Skipped(g.ops), Transferred(g.ops))
  }

  /** Once every operation is done, a confirmation record settles the transaction. */
  lemma AfterConfirmation(c: Config, d: Disk, d': Disk, g: Plan, id: TxnId)
    requires Held(c, d, g, id, |g.ops|)
    requires d' == d.(log := d'.log) && Sane(c.H, d'.log)
    requires Grows(Records(c, d), Records(c, d'), id, TYPE_CONFIRMATION, ConfirmationFor(c, g))
    ensures Inv(c, d', g) && Settled(Current(c, d')) && d'.temps == {}
    ensures AllHold(c.H, g.ops, d'.dest)
  {
    hide Sane, TreeClosed, Holds, Applicable, JournalInv, Transferred, Records, Current, ConfirmationFor;
    JournalGrows(c, d, d', id, TYPE_CONFIRMATION, ConfirmationFor(c, g));
    assert g.ops[|g.ops|..] == [];
  }

  /** finishApply: apply the rest of the plan and append the confirmation. */
  method FinishApply(
    c: Config, src: Tree, ghost ms: seq<Entry>, d0: Disk, g: Plan, id: TxnId, startAt: nat, initialBytes: nat,
    calm: bool)
    returns (d: Disk, st: Status, completed: nat, skipped: nat, bytes: nat)
    requires Planned(c, src, ms, g)
    requires Ready(c.H, d0.log) && Held(c, d0, g, id, startAt) && startAt == Current(c, d0).txn.nextOp <= |g.ops|
    requires initialBytes == Transferred(g.ops[..startAt])
    ensures Inv(c, d, g)
    ensures st.Go? ==> Settled(Current(c, d)) && d.temps == {} && AllHold(c.H, g.ops, d.dest)
    ensures st.Go? ==> completed == Completed(g.ops) && skipped == Skipped(g.ops) && bytes == Transferred(g.ops)
    ensures st.Go? ==> ConfirmedBy(c, d, g, id)
    ensures OnlyTowards(src, d0.dest, d.dest) && Adds(c, d0, d, {id})
    ensures (st.Fail? ==> st.why.JournalFull?) && (calm ==> !st.Stop?)
  {
    hide Ready, Held, Planned, Adds, OnlyTowards, Transferred, Completed, Skipped, Inv, Settled, AllHold,
      ConfirmationFor, Current;
    d, st, completed, skipped, bytes := ApplyWith(c, src, ms, d0, g, id, startAt, initialBytes, calm);
    if !st.Go? {
      ghost var n :| startAt <= n <= |g.ops| && HeldNear(c, d, g, id, n);
      HeldIsInv(c, d, g, id, n);
      return;
    }
    HeldUnfolds(c, d, g, id, |g.ops|);
    ConfirmationOf(c, g);
    CountersAddUp(g.ops);
    var payload := EncodeConfirmation(c.H(c.format(g)), completed, skipped, bytes);
    var l, r := AppendRecord(c.H, d.log, id, TYPE_CONFIRMATION, payload, calm);
    var d1 := d.(log := l);
    if Records(c, d1) != Records(c, d) {
      AfterConfirmation(c, d, d1, g, id);
    } else {
      HeldSameRecords(c, d, d1, g, id, |g.ops|);
      HeldIsInv(c, d1, g, id, |g.ops|);
    }
    GrowsAdds(c, d0, d, d1, id, TYPE_CONFIRMATION, payload, {id});
    d := d1;
    st := match r case Ack => Go case Cutoff => Stop case Full => Fail(JournalFull);
  }

  /** The journal ends with the confirmation of g. */
  predicate ConfirmedBy(c: Config, d: Disk, g: Plan, id: TxnId)
  {
    var rs := Records(c, d);
    Small(g.ops) && rs != [] &&
    var r := rs[|rs| - 1];
    r.rtype == TYPE_CONFIRMATION && r.txid == id && r.payload == ConfirmationFor(c, g)
  }

  lemma ConfirmationOf(c: Config, g: Plan)
    requires Small(g.ops)
    ensures Completed(g.ops) <= |g.ops| && Skipped(g.ops) <= |g.ops|
    ensures ConfirmationFor(c, g) == EncodeConfirmation(c.H(c.format(g)), Completed(g.ops), Skipped(g.ops),
      Transferred(g.ops))
    ensures |ConfirmationFor(c, g)| <= MAX_PAYLOAD_BYTES
  {
    CountersAddUp(g.ops);
  }

  // ---------- beginning a transaction ----------

  /** One record more, and the transaction state it leads to. */
  predicate Wrote(c: Config, d: Disk, d': Disk, id: TxnId, rtype: u16, payload: Bytes)
  {
    && Grows(Records(c, d), Records(c, d'), id, rtype, payload)
    && Current(c, d') == Observe(Current(c, d), Records(c, d')[|Records(c, d)|])
  }

  /** Append one permitted record. */
  method Write(c: Config, d: Disk, id: TxnId, rtype: u16, payload: Bytes, calm: bool) returns (d': Disk, st: Status)
    requires Ready(c.H, d.log) && JournalInv(c, d) && MayAppend(c, d, id, rtype, payload)
    requires ValidRecordType(rtype) && |payload| <= MAX_PAYLOAD_BYTES
    ensures d' == d.(log := d'.log) && JournalInv(c, d')
    ensures st.Go? ==> Ready(c.H, d'.log) && Wrote(c, d, d', id, rtype, payload)
    ensures !st.Go? && Records(c, d') != Records(c, d) ==> Wrote(c, d, d', id, rtype, payload)
    ensures Adds(c, d, d', {id})
    ensures (st.Fail? ==> st.why.JournalFull?) && (calm ==> !st.Stop?)
  {
    hide Ready, Adds, MayAppend, JournalInv, Current, Observe, Sane;
    var l, r := AppendRecord(c.H, d.log, id, rtype, payload, calm);
    d' := d.(log := l);
    if Records(c, d') != Records(c, d) {
      JournalGrows(c, d, d', id, rtype, payload);
    } else {
      JournalSame(c, d, d');
    }
    AddsNothing(c, d, {id});
    GrowsAdds(c, d, d, d', id, rtype, payload, {id});
    st := match r case Ack => Go case Cutoff => Stop case Full => Fail(JournalFull);
  }

  lemma JournalSame(c: Config, d: Disk, d': Disk)
    requires JournalInv(c, d) && Sane(c.H, d'.log) && Records(c, d') == Records(c, d)
    ensures JournalInv(c, d')
  {
    hide Sane;
  }

  /** No transaction is open and none is confirmed: any plan may be the last one's. */
  ghost predicate Idle(c: Config, d: Disk)
  {
    JournalInv(c, d) && TreeClosed(d.dest) && d.temps == {} && !Open(Current(c, d)) && !Settled(Current(c, d))
  }

  lemma IdleIsInv(c: Config, d: Disk, g: Plan)
    requires Idle(c, d)
    ensures Inv(c, d, g)
  {
    hide JournalInv, TreeClosed;
  }

  lemma AfterCancellation(c: Config, d: Disk, d': Disk, payload: Bytes)
    requires JournalInv(c, d') && TreeClosed(d.dest) && d.temps == {}
    requires d' == d.(log := d'.log)
    requires Wrote(c, d, d', Current(c, d).txn.id, TYPE_CANCELLATION, payload)
    ensures Idle(c, d') && Current(c, d').txn.cancelled
  {
    hide JournalInv, TreeClosed, Records, Current;
  }

  function Begun(c: Config, id: TxnId): Cursor
  {
    Cursor(true, NewTxn(id, c.roots))
  }

  function BegunWithPlan(c: Config, id: TxnId, digest: Digest, n: u32): Cursor
  {
    Cursor(true, NewTxn(id, c.roots).(planDigest := digest, opCount := n, hasPlan := true))
  }

  lemma AfterObservation(c: Config, d: Disk, d': Disk, id: TxnId, payload: Bytes)
    requires JournalInv(c, d') && TreeClosed(d.dest) && d.temps == {} && d' == d.(log := d'.log)
    requires DecodeObservation(payload) == Some(c.roots)
    requires Wrote(c, d, d', id, TYPE_OBSERVATION, payload)
    ensures Current(c, d') == Begun(c, id) && Idle(c, d')
  {
    hide JournalInv, TreeClosed, Records, Current, DecodeObservation;
  }

  lemma AfterPlanDigest(c: Config, d: Disk, d': Disk, id: TxnId, digest: Digest, n: u32)
    requires JournalInv(c, d') && TreeClosed(d.dest) && d.temps == {} && d' == d.(log := d'.log)
    requires Current(c, d) == Begun(c, id)
    requires Wrote(c, d, d', id, TYPE_PLAN_DIGEST, EncodePlanDigest(digest, n))
    ensures Current(c, d') == BegunWithPlan(c, id, digest, n) && Idle(c, d')
  {
    hide JournalInv, TreeClosed, Records, Current, DecodePlanDigest, EncodePlanDigest;
    PlanDigestRoundTrip(digest, n);
  }

  /** Everything a fresh plan promises of the destination it was made for. */
  predicate Fresh(H: Hash, ops: seq<Op>, dest: Tree)
  {
    forall i | 0 <= i < |ops| :: Applicable(ops[i], dest) && (ops[i].action.Skip? <==> Holds(H, ops[i], dest))
  }

  lemma AfterAuthorization(c: Config, d: Disk, d': Disk, g: Plan, id: TxnId, payload: Bytes)
    requires JournalInv(c, d') && TreeClosed(d.dest) && d.temps == {} && d' == d.(log := d'.log)
    requires Small(g.ops) && LawfulOps(c, g.ops) && Current(c, d) == BegunWithPlan(c, id, c.H(c.format(g)), |g.ops|)
    requires d.snapshot == Some(c.format(g)) && g.roots == c.roots && Fresh(c.H, g.ops, d.dest)
    requires Wrote(c, d, d', id, TYPE_AUTHORIZATION, payload)
    ensures Held(c, d', g, id, 0) && Current(c, d').txn.nextOp == 0
  {
    hide JournalInv, TreeClosed, Records, Current, Holds, Applicable, StagingDirs, LawfulOps;
    CountersStart(g.ops);
  }

  /** The last three records of beginNewTxn. */
  method Announce(c: Config, d0: Disk, g: Plan, id: TxnId, calm: bool) returns (d: Disk, st: Status)
    requires Usable(c) && Ready(c.H, d0.log) && JournalInv(c, d0) && TreeClosed(d0.dest) && d0.temps == {}
    requires id !in Ids(Records(c, d0))
    requires Small(g.ops) && LawfulOps(c, g.ops) && d0.snapshot == Some(c.format(g)) && g.roots == c.roots
    requires Fresh(c.H, g.ops, d0.dest)
    ensures d == d0.(log := d.log) && Adds(c, d0, d, {id})
    ensures st.Go? ==> Ready(c.H, d.log) && Held(c, d, g, id, 0) && Current(c, d).txn.nextOp == 0
    ensures !st.Go? ==> Records(c, d) == Records(c, d0) || Inv(c, d, g)
    ensures !st.Go? ==> JournalInv(c, d)
    ensures (st.Fail? ==> st.why.JournalFull?) && (calm ==> !st.Stop?)
  {
    hide Ready, Adds, JournalInv, TreeClosed, Records, Current, Wrote, Inv, Held, Idle, Fresh, Small, LawfulOps,
         EncodeObservation, DecodeObservation, EncodePlanDigest, EncodeAuthz;
    AddsNothing(c, d0, {id});
    ObservationFits(c);
    var obs := EncodeObservation(c.roots);
    if obs.None? { return d0, Fail(FieldTooLong); }
    MayObserve(c, d0, id, obs.value);
    d, st := Write(c, d0, id, TYPE_OBSERVATION, obs.value, calm);
    if Records(c, d) != Records(c, d0) || st.Go? {
      AfterObservation(c, d0, d, id, obs.value);
      IdleIsInv(c, d, g);
    }
    if !st.Go? { return; }
    var d1 := d;
    var digest := c.H(c.format(g));
    MayContinue(c, d1, id, TYPE_PLAN_DIGEST, EncodePlanDigest(digest, Count(g.ops)));
    PlanDigestFits(digest, Count(g.ops));
    d, st := Write(c, d1, id, TYPE_PLAN_DIGEST, EncodePlanDigest(digest, Count(g.ops)), calm);
    AddsTransitive(c, d0, d1, d, {id});
    if Records(c, d) != Records(c, d1) || st.Go? {
      AfterPlanDigest(c, d1, d, id, digest, Count(g.ops));
      IdleIsInv(c, d, g);
    } else {
      InvSame(c, d1, d, g);
    }
    if !st.Go? { return; }
    var d2 := d;
    MayContinue(c, d2, id, TYPE_AUTHORIZATION, EncodeAuthz(digest));
    AuthzFits(digest);
    d, st := Write(c, d2, id, TYPE_AUTHORIZATION, EncodeAuthz(digest), calm);
    AddsTransitive(c, d0, d2, d, {id});
    if Records(c, d) != Records(c, d2) || st.Go? {
      AfterAuthorization(c, d2, d, g, id, EncodeAuthz(digest));
      HeldIsInv(c, d, g, id, 0);
    } else {
      InvSame(c, d2, d, g);
    }
  }

  function Count(ops: seq<Op>): (n: u32)
    requires Small(ops)
    ensures n == |ops|
  {
    |ops|
  }

  lemma InvSame(c: Config, d: Disk, d': Disk, g: Plan)
    requires Inv(c, d, g) && d' == d.(log := d'.log) && JournalInv(c, d') && Records(c, d') == Records(c, d)
    ensures Inv(c, d', g)
  {
    hide JournalInv, TreeClosed, Progressed, StagingDirs, AllHold, Transferred;
  }

  lemma ObservationFits(c: Config)
    requires Usable(c)
    ensures var p := EncodeObservation(c.roots);
      p.Some? && |p.value| <= MAX_PAYLOAD_BYTES && DecodeObservation(p.value) == Some(c.roots)
  {
    hide DecodeObservation;
    ObservationRoundTrip(c.roots);
    PutLength(c.roots.source);
    PutLength(c.roots.destination);
  }

  lemma MayObserve(c: Config, d: Disk, id: TxnId, payload: Bytes)
    requires id !in Ids(Records(c, d)) && DecodeObservation(payload) == Some(c.roots)
    ensures MayAppend(c, d, id, TYPE_OBSERVATION, payload)
  {
  }

  lemma MayContinue(c: Config, d: Disk, id: TxnId, rtype: u16, payload: Bytes)
    requires Current(c, d).found && Current(c, d).txn.id == id && !Current(c, d).txn.confirmed
    requires rtype != TYPE_OBSERVATION
    ensures MayAppend(c, d, id, rtype, payload)
  {
  }

  lemma AuthzFits(d: Digest)
    ensures |EncodeAuthz(d)| <= MAX_PAYLOAD_BYTES
  {
  }

  lemma PlanDigestFits(d: Digest, n: u32)
    ensures |EncodePlanDigest(d, n)| <= MAX_PAYLOAD_BYTES
  {
    hide LE32;
  }

  /** beginNewTxn: cancel what was left unfinished, store the plan, then announce the transaction. */
  method BeginNewTxn(c: Config, d0: Disk, g: Plan, id: TxnId, ghost last: Plan, calm: bool)
    returns (d: Disk, st: Status, ghost now: Plan)
    requires Usable(c) && Ready(c.H, d0.log) && Inv(c, d0, last) && !Open(Current(c, d0))
    requires id !in Ids(Records(c, d0))
    requires Small(g.ops) && LawfulOps(c, g.ops) && g.roots == c.roots && Fresh(c.H, g.ops, d0.dest)
    ensures d.dest == d0.dest && Adds(c, d0, d, {id})
    ensures st.Go? ==> Ready(c.H, d.log) && Held(c, d, g, id, 0) && Current(c, d).txn.nextOp == 0
    ensures !st.Go? ==> Inv(c, d, now) && (Open(Current(c, d)) ==> now == g)
    ensures (st.Fail? ==> st.why.JournalFull?) && (calm ==> !st.Stop?)
  {
    hide Ready, Adds, JournalInv, TreeClosed, Records, Current, Wrote, Held, Idle, Fresh, Small, LawfulOps, Inspect,
         EncodeCancellation, Inv, Open, Settled;
    InvUnfolds(c, d0, last);
    AddsNothing(c, d0, {id});
    d, now := d0, last;
    var t := InspectPrefix(Records(c, d0));
    InspectIsCurrent(c, d0);
    if t.Some? && !t.value.confirmed {
      var pay := EncodeCancellation(SUPERSEDED);
      CancellationFits();
      MayContinue(c, d0, t.value.id, TYPE_CANCELLATION, pay.value);
      d, st := Write(c, d0, t.value.id, TYPE_CANCELLATION, pay.value, calm);
      if Records(c, d) != Records(c, d0) || st.Go? {
        AfterCancellation(c, d0, d, pay.value);
        IdleIsInv(c, d, last);
        NotOpenWhenIdle(c, d);
      } else {
        InvSame(c, d0, d, last);
        CurrentSame(c, d0, d);
      }
      NamedAdds(c, d0, d, t.value.id, id);
      if !st.Go? { return; }
    }
    var stop := Stops(calm);
    if stop { return d, Stop, now; }
    var d1 := d;
    d := d.(snapshot := Some(c.format(g)));
    SnapshotKeepsInv(c, d1, d, last);
    var d2 := d;
    AddsNothing(c, d2, {id});
    AddsThroughSnapshot(c, d0, d1, d2, d2, id);
    stop := Stops(calm);
    if stop { return d, Stop, now; }
    InvUnfolds(c, d2, last);
    d, st := Announce(c, d2, g, id, calm);
    AddsThroughSnapshot(c, d0, d1, d2, d, id);
    if !st.Go? {
      if Records(c, d) == Records(c, d2) {
        InvSame(c, d2, d, last);
        CurrentSame(c, d2, d);
      } else {
        now := g;
      }
    }
  }

  lemma InvUnfolds(c: Config, d: Disk, g: Plan)
    requires Inv(c, d, g)
    ensures JournalInv(c, d) && TreeClosed(d.dest)
    ensures !Open(Current(c, d)) ==> d.temps == {}
  {
    hide JournalInv, TreeClosed, OpenInv, SettledInv;
  }

  lemma InspectIsCurrent(c: Config, d: Disk)
    ensures var t := Current(c, d);
      Inspect(Records(c, d)) == if t.found && !t.txn.cancelled then Some(t.txn) else None
  {
  }

  lemma NotOpenWhenIdle(c: Config, d: Disk)
    requires Idle(c, d)
    ensures !Open(Current(c, d))
  {
  }

  lemma CurrentSame(c: Config, d: Disk, d': Disk)
    requires Records(c, d') == Records(c, d)
    ensures Current(c, d') == Current(c, d)
  {
  }

  lemma CancellationFits()
    ensures EncodeCancellation(SUPERSEDED).Some? && |EncodeCancellation(SUPERSEDED).value| <= MAX_PAYLOAD_BYTES
  {
  }

  /** Records of the transaction the journal ends with name no new transaction. */
  lemma NamedAdds(c: Config, d0: Disk, d: Disk, id: TxnId, other: TxnId)
    requires Current(c, d0).found && Current(c, d0).txn.id == id && Adds(c, d0, d, {id})
    ensures Adds(c, d0, d, {other}) && Ids(Records(c, d)) == Ids(Records(c, d0))
  {
    FoundIsNamed(Records(c, d0));
    IdsMonotone(Records(c, d0), Records(c, d));
  }

  lemma IdsMonotone(rs: seq<Record>, rs': seq<Record>)
    requires rs <= rs'
    ensures Ids(rs) <= Ids(rs')
  {
    forall k | k in Ids(rs)
      ensures k in Ids(rs')
    {
      var r :| r in rs && r.txid == k;
      assert r in rs';
    }
  }

  lemma SnapshotKeepsInv(c: Config, d: Disk, d': Disk, g: Plan)
    requires Inv(c, d, g) && !Open(Current(c, d)) && d' == d.(snapshot := d'.snapshot)
    ensures Inv(c, d', g) && !Open(Current(c, d')) && Records(c, d') == Records(c, d)
  {
    hide TreeClosed, Sane, Confirmations;
  }

  lemma AddsThroughSnapshot(c: Config, d0: Disk, d1: Disk, d2: Disk, d: Disk, id: TxnId)
    requires Adds(c, d0, d1, {id}) && Records(c, d2) == Records(c, d1) && Adds(c, d2, d, {id})
    ensures Adds(c, d0, d, {id})
  {
  }

  // ---------- a whole run ----------

  datatype Report = Report(plan: Plan, completed: nat, skipped: nat, bytes: nat, resumed: bool, applied: bool,
    id: TxnId)

  /** The counters are those of the plan. */
  predicate Tallied(r: Report)
  {
    r.completed == Completed(r.plan.ops) && r.skipped == Skipped(r.plan.ops)
  }

  datatype Outcome = Success(report: Report) | Interrupted | Failed(why: Failure)

  function Total(m: seq<Entry>): nat
  {
    if m == [] then 0 else Total(m[..|m| - 1]) + m[|m| - 1].size
  }

  /** Fewer than 2^32 entries and less than 2^63 bytes: what the counters of the source can hold. */
  ghost predicate Bounded(H: Hash, src: Tree)
  {
    forall m | IsManifest(H, m, src) :: |m| < 0x1_0000_0000 && Total(m) < 0x8000_0000_0000_0000
  }

  lemma {:induction false} CoveredTransfer(ops: seq<Op>, m: seq<Entry>)
    requires Covers(ops, m)
    ensures Transferred(ops) <= Total(m)
  {
    if m != [] {
      var n := |m| - 1;
      assert Matches(ops[n], m[n]);
      forall i | 0 <= i < n
        ensures Matches(ops[..n][i], m[..n][i])
      {
        assert Matches(ops[i], m[i]);
      }
      CoveredTransfer(ops[..n], m[..n]);
    }
  }

  /** g was made for this source: the premise under which an interrupted run may be resumed. */
  ghost predicate PlannedFor(c: Config, src: Tree, g: Plan)
  {
    exists m | IsManifest(c.H, m, src) :: Covers(g.ops, m)
  }

  lemma PlannedForMeaning(c: Config, src: Tree, m: seq<Entry>, g: Plan)
    requires IsManifest(c.H, m, src) && Covers(g.ops, m)
    ensures PlannedFor(c, src, g)
  {
  }

  /** Scan: the sorted listing of a tree, whatever order the walk meets its entries in; refused for an unlawful path. */
  method ScanTree(c: Config, t: Tree) returns (r: Option<seq<Entry>>)
    ensures r.Some? <==> LawfulTree(c, t)
    ensures r.Some? ==> IsManifest(c.H, r.value, t)
  {
    hide Less, EntryOf, WithinBudget;
    var m: seq<Entry> := [];
    var rest := t.Keys;
    while rest != {}
      invariant rest <= t.Keys
      invariant forall p | p in t.Keys - rest :: Lawful(c, p)
      invariant Sorted(m)
      invariant forall i | 0 <= i < |m| :: m[i].rel in t.Keys - rest && m[i] == EntryOf(c.H, m[i].rel, t[m[i].rel])
      invariant forall p | p in t.Keys - rest :: Lists(m, p)
      decreases |rest|
    {
      var p :| p in rest;
      if !Lawful(c, p) { return None; }
      EntryRel(c.H, p, t[p]);
      m := InsertSorted(m, EntryOf(c.H, p, t[p]), t.Keys - rest);
      rest := rest - {p};
    }
    return Some(m);
  }

  lemma EntryRel(H: Hash, p: Path, node: Node)
    ensures EntryOf(H, p, node).rel == p
  {
  }

  method InsertSorted(m: seq<Entry>, e: Entry, ghost seen: set<Path>) returns (r: seq<Entry>)
    requires Sorted(m) && e.rel !in seen
    requires forall i | 0 <= i < |m| :: m[i].rel in seen
    ensures Sorted(r) && |r| == |m| + 1
    ensures forall i | 0 <= i < |r| :: r[i] == e || r[i] in m
    ensures Lists(r, e.rel) && forall p | Lists(m, p) :: Lists(r, p)
  {
    hide Less;
    var k := 0;
    while k < |m| && Less(m[k].rel, e.rel)
      invariant 0 <= k <= |m|
      invariant forall i | 0 <= i < k :: Less(m[i].rel, e.rel)
    {
      k := k + 1;
    }
    forall i | k <= i < |m|
      ensures Less(e.rel, m[i].rel)
    {
      LessTotal(m[k].rel, e.rel);
      if i > k {
        LessTransitive(e.rel, m[k].rel, m[i].rel);
      }
    }
    r := m[..k] + [e] + m[k..];
    assert r[k] == e;
    forall p | Lists(m, p)
      ensures Lists(r, p)
    {
      var i :| 0 <= i < |m| && m[i].rel == p;
      assert r[if i < k then i else i + 1] == m[i];
    }
  }

  // ---------- resuming ----------

  lemma ReopenKeepsInv(c: Config, d: Disk, g: Plan)
    requires Inv(c, d, g)
    ensures var d' := d.(log := Reopen(c.H, d.log));
      Ready(c.H, d'.log) && Inv(c, d', g) && Records(c, d') == Records(c, d) && Current(c, d') == Current(c, d)
  {
    hide Reopen, TreeClosed, Progressed, StagingDirs, AllHold, Transferred, Ready, Scan;
    ReopenKeeps(c.H, d.log);
    var d' := d.(log := Reopen(c.H, d.log));
    JournalSame(c, d, d');
    InvSame(c, d, d', g);
  }

  /** A recovery record changes nothing but the journal's length. */
  lemma AfterRecovery(c: Config, d: Disk, d': Disk, g: Plan, id: TxnId, n: nat, payload: Bytes)
    requires Held(c, d, g, id, n) && JournalInv(c, d') && d' == d.(log := d'.log)
    requires Wrote(c, d, d', id, TYPE_RECOVERY, payload)
    ensures Held(c, d', g, id, n) && Current(c, d').txn.nextOp == Current(c, d).txn.nextOp
  {
    hide JournalInv, TreeClosed, Records, Current, Progressed, StagingDirs, Transferred;
  }

  lemma OpenIsHeld(c: Config, d: Disk, g: Plan)
    requires Inv(c, d, g) && Open(Current(c, d))
    ensures var t := Current(c, d).txn;
      Held(c, d, g, t.id, t.nextOp) && d.snapshot == Some(c.format(g)) && t.planDigest == c.H(c.format(g))
      && g.roots == c.roots && t.nextOp <= |g.ops| && Small(g.ops) && t.bytesCum == Transferred(g.ops[..t.nextOp])
  {
    hide JournalInv, TreeClosed, Current, StagingDirs, Transferred, Holds, Applicable;
  }

  lemma RecoveryFits(n: u32)
    ensures EncodeRecovery(n, RESUME).Some? && |EncodeRecovery(n, RESUME).value| <= MAX_PAYLOAD_BYTES
  {
    hide LE32;
  }

  /** What every run, resumed or fresh, guarantees when it returns success after applying plan g. */
  ghost predicate Delivered(c: Config, d: Disk, g: Plan, r: Report)
  {
    && r.plan == g && r.applied
    && r.completed == Completed(g.ops) && r.skipped == Skipped(g.ops) && r.bytes == Transferred(g.ops)
    && Settled(Current(c, d)) && d.temps == {} && AllHold(c.H, g.ops, d.dest)
    && ConfirmedBy(c, d, g, r.id)
  }

  /** The resume branch of syncJournaled. Neither of its conflicts can occur. */
  method Resume(c: Config, src: Tree, d0: Disk, t: Txn, ghost g: Plan, calm: bool) returns (d: Disk, out: Outcome)
    requires Usable(c) && Ready(c.H, d0.log) && Inv(c, d0, g) && TreeClosed(src)
    requires Open(Current(c, d0)) && Current(c, d0).txn == t && PlannedFor(c, src, g)
    ensures Inv(c, d, g)
    ensures OnlyTowards(src, d0.dest, d.dest) && Adds(c, d0, d, {t.id})
    ensures out.Success? ==> Delivered(c, d, g, out.report) && out.report.resumed
    ensures (out.Failed? ==> out.why.JournalFull?) && (calm ==> !out.Interrupted?)
  {
    hide Ready, Adds, JournalInv, TreeClosed, Records, Current, Wrote, Held, Inv, Open, Settled, OnlyTowards, AllHold,
         Transferred, Completed, Skipped, ConfirmedBy, EncodeRecovery, Small;
    OpenIsHeld(c, d0, g);
    AddsNothing(c, d0, {t.id});
    OnlyTowardsSelf(src, d0.dest);
    if d0.snapshot.None? { return d0, Failed(SnapshotMissing); }
    var parsed := c.parse(d0.snapshot.value);
    if parsed.None? { return d0, Failed(SnapshotUnreadable); }
    if c.H(d0.snapshot.value) != t.planDigest { return d0, Failed(SnapshotMismatch); }
    var plan := parsed.value.(roots := c.roots);
    assert plan == g;
    if t.nextOp > |plan.ops| { return d0, Failed(ProgressBeyondPlan); }
    SmallCount(plan.ops, t.nextOp);
    RecoveryFits(t.nextOp);
    var pay := EncodeRecovery(t.nextOp, RESUME);
    if pay.None? { return d0, Failed(FieldTooLong); }
    OpenMayAppend(c, d0, g, TYPE_RECOVERY, pay.value);
    var d1, st := Write(c, d0, t.id, TYPE_RECOVERY, pay.value, calm);
    if Records(c, d1) != Records(c, d0) || st.Go? {
      AfterRecovery(c, d0, d1, g, t.id, t.nextOp, pay.value);
    } else {
      HeldWithJournal(c, d0, d1, g, t.id, t.nextOp);
      CurrentSame(c, d0, d1);
    }
    HeldIsInv(c, d1, g, t.id, t.nextOp);
    match st {
      case Stop => return d1, Interrupted;
      case Fail(why) => return d1, Failed(why);
      case Go =>
    }
    ghost var ms :| IsManifest(c.H, ms, src) && Covers(g.ops, ms);
    var completed, skipped, bytes;
    d, st, completed, skipped, bytes := FinishApply(c, src, ms, d1, plan, t.id, t.nextOp, t.bytesCum, calm);
    AddsTransitive(c, d0, d1, d, {t.id});
    match st {
      case Stop => out := Interrupted;
      case Fail(why) => out := Failed(why);
      case Go => out := Success(Report(plan, completed, skipped, bytes, true, true, t.id));
    }
  }

  lemma SmallCount(ops: seq<Op>, n: nat)
    requires Small(ops) && n <= |ops|
    ensures n < 0x1_0000_0000
  {
  }

  lemma OpenMayAppend(c: Config, d: Disk, g: Plan, rtype: u16, payload: Bytes)
    requires Inv(c, d, g) && Open(Current(c, d)) && rtype != TYPE_OBSERVATION
    ensures JournalInv(c, d) && MayAppend(c, d, Current(c, d).txn.id, rtype, payload)
  {
    hide TreeClosed, OpenInv, SettledInv;
  }

  lemma HeldWithJournal(c: Config, d: Disk, d': Disk, g: Plan, id: TxnId, n: nat)
    requires Held(c, d, g, id, n) && d' == d.(log := d'.log) && JournalInv(c, d') && Records(c, d') == Records(c, d)
    ensures Held(c, d', g, id, n)
  {
    hide TreeClosed, Progressed, StagingDirs, Transferred;
  }

  // ---------- the fast path ----------

  /** A plan of skips only moves no bytes, in any prefix. */
  lemma {:induction false} SkipsMoveNothing(ops: seq<Op>, n: nat)
    requires n <= |ops| && forall i | 0 <= i < |ops| :: ops[i].action.Skip?
    ensures Transferred(ops[..n]) == 0
    decreases n
  {
    if n > 0 {
      CountersStep(ops, n - 1);
      SkipsMoveNothing(ops, n - 1);
    }
  }

  /**
   The confirmed-digest fast path does nothing only when nothing is needed: a fresh plan with the
   digest of the confirmed one is that plan, and skips everything, or the two documents collide.
   */
  lemma FastPathIsSound(c: Config, ops: seq<Op>, d: Disk, g: Plan)
    requires Usable(c) && SettledInv(c, d, g) && Fresh(c.H, ops, d.dest)
    requires c.H(c.format(Plan(c.roots, ops))) == Current(c, d).txn.planDigest
    ensures var plan := Plan(c.roots, ops);
      || IsCollision(c.H, c.format(g), c.format(plan))
      || (&& plan == g && AllHold(c.H, ops, d.dest)
          && (forall i | 0 <= i < |ops| :: ops[i].action.Skip?)
          && Current(c, d).txn.bytesCum == Transferred(ops))
  {
    hide Current, Transferred, Holds, Applicable;
    var plan := Plan(c.roots, ops);
    if c.format(g) == c.format(plan) {
      assert c.parse(c.format(g)) == Some(g) && c.parse(c.format(plan)) == Some(plan);
      SkipsMoveNothing(ops, Current(c, d).txn.nextOp);
      SkipsMoveNothing(ops, |ops|);
      assert ops[..|ops|] == ops;
    }
  }

  /** The counting loop of the fast path. */
  method CountOps(ops: seq<Op>) returns (completed: nat, skipped: nat)
    ensures completed == Completed(ops) && skipped == Skipped(ops)
  {
    hide Completed, Skipped, Transferred;
    completed, skipped := 0, 0;
    CountersStart(ops);
    for k := 0 to |ops|
      invariant completed == Completed(ops[..k]) && skipped == Skipped(ops[..k])
    {
      CountersStep(ops, k);
      if ops[k].action.Skip? { skipped := skipped + 1; } else { completed := completed + 1; }
    }
    assert ops[..|ops|] == ops;
  }

  // ---------- a fresh transaction ----------

  lemma FreshPlan(c: Config, src: Tree, ms: seq<Entry>, md: seq<Entry>, dest: Tree, ops: seq<Op>)
    requires IsManifest(c.H, ms, src) && IsManifest(c.H, md, dest) && Bounded(c.H, src)
    requires PlanOps(ms, md) == Some(ops)
    ensures Covers(ops, ms) && Fresh(c.H, ops, dest) && Small(ops)
  {
    hide PlanOps, Holds, Applicable, Matches, Transferred, Total, IsManifest;
    PlanMeaning(c.H, ms, src, md, dest);
    CoveredTransfer(ops, ms);
  }

  lemma CoveredLawful(c: Config, src: Tree, ms: seq<Entry>, ops: seq<Op>)
    requires IsManifest(c.H, ms, src) && Covers(ops, ms) && LawfulTree(c, src)
    ensures LawfulOps(c, ops)
  {
    hide WithinBudget, EntryOf;
    forall i | 0 <= i < |ops|
      ensures Lawful(c, ops[i].rel)
    {
      assert Matches(ops[i], ms[i]);
    }
  }

  /** Why a plan is not made: a path the grammar refuses, or a directory and a file at the same path. */
  predicate Refusal(c: Config, src: Tree, dest: Tree, why: Failure)
  {
    || (why.PathUnsafe? && !(LawfulTree(c, src) && LawfulTree(c, dest)))
    || (why.PlanConflict? && Conflicting(src, dest))
  }

  /** The branch of syncJournaled that plans afresh: the fast path, or a new transaction. */
  method PlanAndApply(c: Config, src: Tree, d0: Disk, t: Option<Txn>, id: TxnId, ghost last: Plan, calm: bool)
    returns (d: Disk, out: Outcome, ghost now: Plan)
    requires Usable(c) && Ready(c.H, d0.log) && Inv(c, d0, last) && TreeClosed(src) && Bounded(c.H, src)
    requires !Open(Current(c, d0)) && t == Inspect(Records(c, d0))
    requires id !in Ids(Records(c, d0))
    ensures Inv(c, d, now) && (Open(Current(c, d)) ==> PlannedFor(c, src, now))
    ensures OnlyTowards(src, d0.dest, d.dest) && Adds(c, d0, d, {id})
    ensures out.Success? && out.report.applied ==>
      Delivered(c, d, now, out.report) && InSync(c.H, src, d.dest) && !out.report.resumed && out.report.id == id
    ensures out.Success? && !out.report.applied ==> d == d0 && now == last && t.Some? && out.report.id == t.value.id
    ensures out.Success? ==> Tallied(out.report)
    ensures out.Success? && !out.report.applied ==>
      FastPathReport(c, src, d, out.report) || IsCollision(c.H, c.format(last), c.format(out.report.plan))
    ensures out.Failed? ==> out.why.JournalFull? || (d == d0 && Refusal(c, src, d0.dest, out.why))
    ensures calm ==> !out.Interrupted?
  {
    hide Ready, Adds, JournalInv, TreeClosed, Records, Current, Held, Inv, Open, Settled, OnlyTowards, AllHold,
         Transferred, Completed, Skipped, ConfirmedBy, Small, Fresh, Covers, IsManifest, PlanOps, Inspect, Sorted,
         Bounded, PlannedFor, InSync, LawfulOps, LawfulTree, Conflicting;
    d, now := d0, last;
    AddsNothing(c, d0, {id});
    OnlyTowardsSelf(src, d0.dest);
    var scanned := ScanTree(c, src);
    if scanned.None? { return d0, Failed(PathUnsafe), last; }
    var ms := scanned.value;
    scanned := ScanTree(c, d0.dest);
    if scanned.None? { return d0, Failed(PathUnsafe), last; }
    var md := scanned.value;
    ConflictsExactlyWhen(c.H, ms, src, md, d0.dest);
    ManifestSorted(c.H, ms, src);
    ManifestSorted(c.H, md, d0.dest);
    var ops := BuildPlan(ms, md);
    if ops.None? {
      return d0, Failed(PlanConflict), last;
    }
    FreshPlan(c, src, ms, md, d0.dest, ops.value);
    CoveredLawful(c, src, ms, ops.value);
    var plan := Plan(c.roots, ops.value);
    PlannedForMeaning(c, src, ms, plan);
    HoldMeansInSync(c.H, plan.ops, ms, src, d0.dest);
    var digest := c.H(c.format(plan));
    InspectIsCurrent(c, d0);
    if t.Some? && t.value.hasPlan && t.value.planDigest == digest && t.value.confirmed {
      var completed, skipped := CountOps(plan.ops);
      SettledUnfolds(c, d0, last);
      FastPathIsSound(c, plan.ops, d0, last);
      CountersAddUp(plan.ops);
      return d0, Success(Report(plan, completed, skipped, t.value.bytesCum, false, false, t.value.id)), last;
    }
    var st;
    d, st, now := BeginNewTxn(c, d0, plan, id, last, calm);
    if !st.Go? {
      OnlyTowardsEqual(src, d0.dest, d.dest);
      return d, (match st case Fail(why) => Failed(why) case _ => Interrupted), now;
    }
    now := plan;
    var d1 := d;
    HeldUnfolds(c, d1, plan, id, 0);
    CountersStart(plan.ops);
    PlannedMeaning(c, src, ms, plan);
    var completed, skipped, bytes;
    d, st, completed, skipped, bytes := FinishApply(c, src, ms, d1, plan, id, 0, 0, calm);
    AddsTransitive(c, d0, d1, d, {id});
    HoldMeansInSync(c.H, plan.ops, ms, src, d.dest);
    match st {
      case Stop => out := Interrupted;
      case Fail(why) => out := Failed(why);
      case Go => out := Success(Report(plan, completed, skipped, bytes, false, true, id));
    }
  }

  /** A fast-path success: the destination is in sync, nothing was counted as work, no staging is left. */
  ghost predicate FastPathReport(c: Config, src: Tree, d: Disk, r: Report)
  {
    && InSync(c.H, src, d.dest) && d.temps == {}
    && r.completed == Completed(r.plan.ops) && r.skipped == Skipped(r.plan.ops) && r.bytes == Transferred(r.plan.ops)
    && (forall i | 0 <= i < |r.plan.ops| :: r.plan.ops[i].action.Skip?)
  }

  lemma ManifestSorted(H: Hash, m: seq<Entry>, t: Tree)
    requires IsManifest(H, m, t)
    ensures Sorted(m)
  {
  }

  lemma PlannedMeaning(c: Config, src: Tree, ms: seq<Entry>, g: Plan)
    requires IsManifest(c.H, ms, src) && TreeClosed(src) && Covers(g.ops, ms)
    ensures Planned(c, src, ms, g)
  {
  }

  lemma OnlyTowardsEqual(src: Tree, a: Tree, b: Tree)
    requires a == b
    ensures OnlyTowards(src, a, b)
  {
  }

  lemma SettledUnfolds(c: Config, d: Disk, g: Plan)
    requires Inv(c, d, g)
    ensures Settled(Current(c, d)) ==> SettledInv(c, d, g) && d.temps == {}
    ensures var t := Current(c, d); t.found && !t.txn.cancelled && t.txn.hasPlan && t.txn.confirmed ==> Settled(t)
  {
    hide JournalInv, TreeClosed, OpenInv, SettledInv;
  }

  /**
   Sync. From any state that satisfies the invariant, whatever is interrupted where:
   the invariant is kept; only source paths of the destination change, and only to what the
   source has; records are only added; and no failure but a full journal, an unlawful path or a
   directory and a file at the same path can occur. On success the destination is in sync, no
   staging file is left and the transaction is confirmed, unless the plan and the confirmed plan
   are a digest collision. A calm run, one that nothing interrupts, ends in success or in one of
   those failures.
   */
  method Sync(c: Config, src: Tree, d0: Disk, id: TxnId, ghost last: Plan, calm: bool)
    returns (d: Disk, out: Outcome, ghost now: Plan)
    requires Usable(c) && Inv(c, d0, last) && TreeClosed(src) && Bounded(c.H, src)
    requires id !in Ids(Records(c, d0))
    requires Open(Current(c, d0)) ==> PlannedFor(c, src, last)
    ensures Inv(c, d, now) && (Open(Current(c, d)) ==> PlannedFor(c, src, now))
    ensures OnlyTowards(src, d0.dest, d.dest) && Adds(c, d0, d, {id})
    ensures out.Success? ==> d.temps == {}
    ensures out.Success? ==>
      InSync(c.H, src, d.dest) || (!out.report.applied && IsCollision(c.H, c.format(last), c.format(out.report.plan)))
    ensures out.Success? ==> Tallied(out.report)
    ensures out.Success? && out.report.applied ==> Delivered(c, d, now, out.report)
    ensures out.Success? && Open(Current(c, d0)) ==> out.report.applied && out.report.resumed && out.report.plan == last
    ensures out.Failed? ==>
      || out.why.JournalFull?
      || (Refusal(c, src, d0.dest, out.why) && d.dest == d0.dest && Records(c, d) == Records(c, d0))
    ensures calm ==> !out.Interrupted?
  {
    hide Ready, Adds, JournalInv, TreeClosed, Records, Current, Inv, Settled, OnlyTowards, AllHold, Transferred, Reopen,
         Completed, Skipped, ConfirmedBy, Small, Bounded, InSync, Inspect, IsCollision, Scan, IsManifest, Covers;
    d, now := d0, last;
    AddsNothing(c, d0, {id});
    OnlyTowardsSelf(src, d0.dest);
    var stop := Stops(calm);
    if stop { return d0, Interrupted, last; }
    JournalReads(c, d0, last);
    if Scan(c.H, d0.log.buf).end.Fatal? { return d0, Failed(JournalCorrupt), last; }
    ReopenKeepsInv(c, d0, last);
    var d1 := d0.(log := Reopen(c.H, d0.log));
    AddsNothing(c, d1, {id});
    SameRecordsAdds(c, d0, d1, d1, id);
    var t := InspectPrefix(Records(c, d1));
    InspectIsCurrent(c, d1);
    RootsAgree(c, d1, last);
    if t.Some? && t.value.roots == c.roots && t.value.hasPlan && t.value.authorized && !t.value.confirmed {
      d, out := Resume(c, src, d1, t.value, last, calm);
      NamedAdds(c, d1, d, t.value.id, id);
      SameRecordsAdds(c, d0, d1, d, id);
      if out.Success? {
        ghost var ms :| IsManifest(c.H, ms, src) && Covers(last.ops, ms);
        HoldMeansInSync(c.H, last.ops, ms, src, d.dest);
      }
      return d, out, last;
    }
    InvUnfolds(c, d1, last);
    d, out, now := PlanAndApply(c, src, d1, t, id, last, calm);
    SameRecordsAdds(c, d0, d1, d, id);
  }

  lemma JournalReads(c: Config, d: Disk, g: Plan)
    requires Inv(c, d, g)
    ensures !Scan(c.H, d.log.buf).end.Fatal?
  {
    hide Scan, TreeClosed, OpenInv, SettledInv;
  }

  lemma RootsAgree(c: Config, d: Disk, g: Plan)
    requires Inv(c, d, g)
    ensures Current(c, d).found ==> Current(c, d).txn.roots == c.roots
  {
    hide Scan, TreeClosed, OpenInv, SettledInv;
  }

  lemma SameRecordsAdds(c: Config, d0: Disk, d1: Disk, d: Disk, id: TxnId)
    requires Records(c, d1) == Records(c, d0) && Adds(c, d1, d, {id})
    ensures Adds(c, d0, d, {id})
  {
  }

  // ---------- any number of runs ----------

  /** One unused transaction id per run. */
  predicate UnusedIds(c: Config, d: Disk, ids: seq<TxnId>)
  {
    && (forall i, j | 0 <= i < j < |ids| :: ids[i] != ids[j])
    && (forall i | 0 <= i < |ids| :: ids[i] !in Ids(Records(c, d)))
  }

  lemma UnusedAfter(c: Config, d: Disk, d': Disk, ids: seq<TxnId>)
    requires ids != [] && UnusedIds(c, d, ids) && Adds(c, d, d', {ids[0]})
    ensures UnusedIds(c, d', ids[1..])
  {
    hide Records;
  }

  /**
   Crash-resume convergence: run Sync again and again on one source, each run interrupted
   anywhere or not at all, until one returns success. Then every source entry is in the
   destination with the same type and digest, everything the source does not have is as it was
   before the first run, no staging file is left and no transaction has two confirmations.
   Until then the invariant holds after every run. If the last run allowed is calm, and no path is
   unlawful or a directory on one side and a file on the other, it succeeds unless the journal is
   full. `before` is the plan known when the successful run started.
   */
  method SyncUntilSuccess(c: Config, src: Tree, d0: Disk, ids: seq<TxnId>, ghost last: Plan, calm: bool)
    returns (d: Disk, out: Outcome, runs: nat, ghost before: Plan, ghost now: Plan)
    requires Usable(c) && Inv(c, d0, last) && TreeClosed(src) && Bounded(c.H, src)
    requires UnusedIds(c, d0, ids)
    requires Open(Current(c, d0)) ==> PlannedFor(c, src, last)
    ensures runs <= |ids| && (!out.Success? ==> runs == |ids|)
    ensures Inv(c, d, now) && Records(c, d0) <= Records(c, d)
    ensures forall p | p !in src :: (p in d.dest <==> p in d0.dest) && (p in d0.dest ==> d.dest[p] == d0.dest[p])
    ensures forall p | p in src && p in d.dest ::
      (p in d0.dest && d.dest[p] == d0.dest[p]) || SameNode(src[p], d.dest[p])
    ensures forall k :: Confirmations(Records(c, d), k) <= 1
    ensures out.Success? ==> d.temps == {} && out.report.completed + out.report.skipped == |out.report.plan.ops|
    ensures out.Success? ==>
      Same(c.H, src, d.dest) || (!out.report.applied && IsCollision(c.H, c.format(before), c.format(out.report.plan)))
    ensures calm && ids != [] && Clear(c, src, d0.dest) ==> out.Success? || out == Failed(JournalFull)
    decreases |ids|
  {
    hide Adds, JournalInv, TreeClosed, Records, Current, Inv, OnlyTowards, Bounded, PlannedFor, InSync, UnusedIds, Open,
         Confirmations, Delivered, SameNode, LawfulTree, Conflicting, Same, Finished;
    d, out, runs, before, now := d0, Interrupted, 0, last, last;
    OnlyTowardsSelf(src, d0.dest);
    AddsNothing(c, d0, {});
    var rest := ids;
    while runs < |ids| && !out.Success?
      invariant 0 <= runs <= |ids| && rest == ids[runs..]
      invariant Inv(c, d, now) && (Open(Current(c, d)) ==> PlannedFor(c, src, now))
      invariant UnusedIds(c, d, rest)
      invariant OnlyTowards(src, d0.dest, d.dest) && Records(c, d0) <= Records(c, d)
      invariant out.Success? ==> Finished(c, src, d, out.report, before)
      invariant calm && Clear(c, src, d0.dest) && 0 < runs == |ids| ==> out.Success? || out == Failed(JournalFull)
    {
      before := now;
      NextIdUnused(c, d, rest);
      var d1;
      d1, out, now := Sync(c, src, d, rest[0], now, calm && runs + 1 == |ids|);
      if Clear(c, src, d0.dest) { StaysClear(c, src, d0.dest, d.dest); }
      OnlyTowardsTransitive(src, d0.dest, d.dest, d1.dest);
      RecordsGrow(c, d0, d, d1, {rest[0]});
      UnusedAfter(c, d, d1, rest);
      if out.Success? {
        ReportAddsUp(c, src, d1, out.report, before, now);
      }
      d, rest, runs := d1, rest[1..], runs + 1;
    }
    OnlyTowardsMeaning(src, d0.dest, d.dest);
    AtMostOnce(c, d, now);
    if out.Success? { FinishedMeaning(c, src, d, out.report, before); }
  }

  /** Every source entry is there with its type; a file with its content, or one that collides with it. */
  predicate Same(H: Hash, src: Tree, dest: Tree)
  {
    forall p | p in src ::
      && p in dest && (src[p].Dir? <==> dest[p].Dir?)
      && (src[p].File? ==> dest[p].content == src[p].content || IsCollision(H, src[p].content, dest[p].content))
  }

  lemma FinishedMeaning(c: Config, src: Tree, d: Disk, r: Report, before: Plan)
    requires Finished(c, src, d, r, before)
    ensures d.temps == {} && r.completed + r.skipped == |r.plan.ops|
    ensures Same(c.H, src, d.dest) || (!r.applied && IsCollision(c.H, c.format(before), c.format(r.plan)))
  {
    if InSync(c.H, src, d.dest) {
      forall p | p in src
        ensures p in d.dest && (src[p].Dir? <==> d.dest[p].Dir?)
        ensures src[p].File? ==>
          d.dest[p].content == src[p].content || IsCollision(c.H, src[p].content, d.dest[p].content)
      {
        if src[p].File? { InSyncContents(c.H, src, d.dest, p); }
      }
    }
  }

  /** Nothing stands in the way of a plan. */
  predicate Clear(c: Config, src: Tree, dest: Tree)
  {
    LawfulTree(c, src) && LawfulTree(c, dest) && !Conflicting(src, dest)
  }

  /** Changing only towards the source keeps the way clear. */
  lemma StaysClear(c: Config, src: Tree, a: Tree, b: Tree)
    requires Clear(c, src, a) && OnlyTowards(src, a, b)
    ensures Clear(c, src, b)
  {
    hide Lawful;
    forall p | p in src && p in b
      ensures src[p].Dir? == b[p].Dir?
    {
    }
  }

  ghost predicate Finished(c: Config, src: Tree, d: Disk, r: Report, before: Plan)
  {
    && d.temps == {} && r.completed + r.skipped == |r.plan.ops|
    && (InSync(c.H, src, d.dest) || (!r.applied && IsCollision(c.H, c.format(before), c.format(r.plan))))
  }

  lemma NextIdUnused(c: Config, d: Disk, ids: seq<TxnId>)
    requires ids != [] && UnusedIds(c, d, ids)
    ensures ids[0] !in Ids(Records(c, d))
  {
  }

  lemma RecordsGrow(c: Config, d0: Disk, d: Disk, d': Disk, ids: set<TxnId>)
    requires Records(c, d0) <= Records(c, d) && Adds(c, d, d', ids)
    ensures Records(c, d0) <= Records(c, d')
  {
  }

  lemma ReportAddsUp(c: Config, src: Tree, d: Disk, r: Report, before: Plan, now: Plan)
    requires d.temps == {}
    requires r.completed == Completed(r.plan.ops) && r.skipped == Skipped(r.plan.ops)
    requires InSync(c.H, src, d.dest) || (!r.applied && IsCollision(c.H, c.format(before), c.format(r.plan)))
    ensures Finished(c, src, d, r, before)
  {
    hide Completed, Skipped, InSync;
    CountersAddUp(r.plan.ops);
  }

  lemma OnlyTowardsMeaning(src: Tree, a: Tree, b: Tree)
    requires OnlyTowards(src, a, b)
    ensures forall p | p !in src :: (p in b <==> p in a) && (p in a ==> b[p] == a[p])
    ensures forall p | p in src && p in b :: (p in a && b[p] == a[p]) || SameNode(src[p], b[p])
  {
    hide SameNode;
  }

  lemma AtMostOnce(c: Config, d: Disk, g: Plan)
    requires Inv(c, d, g)
    ensures forall k :: Confirmations(Records(c, d), k) <= 1
  {
    hide TreeClosed, OpenInv, SettledInv, Confirmations, Sane;
  }
}
