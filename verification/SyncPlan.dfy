/**
 Planning a local sync (internal/localsync/plan.go, lookup in internal/localsync/scan.go).

 A tree is a map from slash-separated relative paths to directories and files. A manifest
 is its sorted listing with a digest per file. `PlanOps` is the meaning of `BuildPlan`.
 */
module SyncPlan {
  import opened Bytes
  import opened Lex
  import opened JournalPayload
  import InsertionSort

  type Path = Bytes

  const SLASH: byte := 47

  datatype Node = Dir(mode: u32) | File(mode: u32, content: Bytes)

  type Tree = map<Path, Node>

  /** The paths above p: its prefixes that end just before a slash. */
  function Ancestors(p: Path): set<Path>
  {
    set i | 0 < i < |p| && p[i] == SLASH :: p[..i]
  }

  // ---------- the path budget ----------

  const MAX_COMPONENTS := 1024
  const MAX_PATH_BYTES := 4096

  function Slashes(p: Path): (n: nat)
    ensures n <= |p|
  {
    if p == [] then 0 else Slashes(p[..|p| - 1]) + if p[|p| - 1] == SLASH then 1 else 0
  }

  /** The grammar's limits on a joined path: its components, and the sum of their bytes. */
  predicate WithinBudget(p: Path)
  {
    Slashes(p) < MAX_COMPONENTS && |p| - Slashes(p) <= MAX_PATH_BYTES
  }

  // ---------- trees and manifests ----------

  /** What a file system guarantees: whatever is above an entry is a directory. */
  predicate TreeClosed(t: Tree)
  {
    forall p, a | p in t && a in Ancestors(p) :: a in t && t[a].Dir?
  }

  datatype EntryType = EntryDir | EntryFile

  datatype Entry = Entry(rel: Path, etype: EntryType, size: nat, mode: u32, digest: Option<Digest>)

  function EntryOf(H: Hash, rel: Path, node: Node): Entry
  {
    match node
    case Dir(mode) => Entry(rel, EntryDir, 0, mode, None)
    case File(mode, content) => Entry(rel, EntryFile, |content|, mode, Some(H(content)))
  }

  predicate Sorted(m: seq<Entry>)
  {
    forall i, j | 0 <= i < j < |m| :: Less(m[i].rel, m[j].rel)
  }

  predicate Lists(m: seq<Entry>, p: Path)
  {
    exists i | 0 <= i < |m| :: m[i].rel == p
  }

  /** m is the sorted listing of tree t. */
  predicate IsManifest(H: Hash, m: seq<Entry>, t: Tree)
  {
    && Sorted(m)
    && (forall i | 0 <= i < |m| :: m[i].rel in t && m[i] == EntryOf(H, m[i].rel, t[m[i].rel]))
    && (forall p | p in t :: Lists(m, p))
  }

  // ---------- lookup ----------

  function Find(m: seq<Entry>, rel: Path): Option<Entry>
  {
    if m == [] then None
    else if m[0].rel == rel then Some(m[0])
    else Find(m[1..], rel)
  }

  lemma {:induction false} FindAt(m: seq<Entry>, rel: Path, i: nat)
    requires i < |m| && m[i].rel == rel
    requires forall j | 0 <= j < i :: m[j].rel != rel
    ensures Find(m, rel) == Some(m[i])
    decreases i
  {
    if i > 0 {
      assert m[1..][i - 1] == m[i];
      forall j | 0 <= j < i - 1
        ensures m[1..][j].rel != rel
      {
        assert m[1..][j] == m[j + 1];
      }
      FindAt(m[1..], rel, i - 1);
    }
  }

  lemma {:induction false} FindNone(m: seq<Entry>, rel: Path)
    requires forall j | 0 <= j < |m| :: m[j].rel != rel
    ensures Find(m, rel) == None
  {
    if m != [] {
      FindNone(m[1..], rel);
    }
  }

  lemma SortedDistinct(m: seq<Entry>, i: nat, j: nat)
    requires Sorted(m) && i < |m| && j < |m| && m[i].rel == m[j].rel
    ensures i == j
  {
    LessIrreflexive(m[i].rel);
  }

  lemma FindSorted(m: seq<Entry>, i: nat)
    requires Sorted(m) && i < |m|
    ensures Find(m, m[i].rel) == Some(m[i])
  {
    forall j | 0 <= j < i
      ensures m[j].rel != m[i].rel
    {
      LessIrreflexive(m[i].rel);
    }
    FindAt(m, m[i].rel, i);
  }

  /** Looking a path up in a tree's manifest answers what the tree holds there. */
  lemma FindInManifest(H: Hash, m: seq<Entry>, t: Tree, rel: Path)
    requires IsManifest(H, m, t)
    ensures Find(m, rel) == if rel in t then Some(EntryOf(H, rel, t[rel])) else None
  {
    if rel in t {
      assert Lists(m, rel);
      var i :| 0 <= i < |m| && m[i].rel == rel;
      FindSorted(m, i);
    } else {
      FindNone(m, rel);
    }
  }

  /** lookup: the binary search finds what a scan from the front would find. */
  method Lookup(m: seq<Entry>, rel: Path) returns (r: Option<Entry>)
    requires Sorted(m)
    ensures r == Find(m, rel)
  {
    var i, j := 0, |m|;
    while i < j
      invariant 0 <= i <= j <= |m|
      invariant forall k | 0 <= k < i :: Less(m[k].rel, rel)
      invariant forall k | j <= k < |m| :: !Less(m[k].rel, rel)
    {
      var h := (i + j) / 2;
      if Less(m[h].rel, rel) {
        forall k | 0 <= k < h
          ensures Less(m[k].rel, rel)
        {
          LessTransitive(m[k].rel, m[h].rel, rel);
        }
        i := h + 1;
      } else {
        forall k | h < k < |m|
          ensures !Less(m[k].rel, rel)
        {
          if Less(m[k].rel, rel) {
            LessTransitive(m[h].rel, m[k].rel, rel);
          }
        }
        j := h;
      }
    }
    LessIrreflexive(rel);
    if i < |m| && m[i].rel == rel {
      FindAt(m, rel, i);
      return Some(m[i]);
    }
    forall k | 0 <= k < |m|
      ensures m[k].rel != rel
    {
      if k > i {
        assert Less(m[i].rel, m[k].rel);
      }
    }
    FindNone(m, rel);
    return None;
  }

  // ---------- the plan ----------

  datatype Action = Mkdir | Copy | Replace | Skip

  datatype Reason = Missing | DigestDiffers | Identical | DirExists

  datatype Initial = Absent | Directory | FileIdentical | FileDifferent

  datatype Final = FinalDirectory | FinalFile

  datatype Op = Op(
    action: Action, rel: Path, reason: Reason, size: nat, mode: u32, digest: Option<Digest>,
    initial: Initial, final: Final)

  /** The operation for one source entry, given what the destination has there; None is a conflict. */
  function OpFor(s: Entry, d: Option<Entry>): Option<Op>
  {
    match s.etype
    case EntryDir =>
      if d.None? then Some(Op(Mkdir, s.rel, Missing, 0, s.mode, None, Absent, FinalDirectory))
      else if !d.value.etype.EntryDir? then None
      else Some(Op(Skip, s.rel, DirExists, 0, s.mode, None, Directory, FinalDirectory))
    case EntryFile =>
      if d.None? then Some(Op(Copy, s.rel, Missing, s.size, s.mode, s.digest, Absent, FinalFile))
      else if !d.value.etype.EntryFile? then None
      else if d.value.digest.Some? && s.digest.Some? && d.value.digest == s.digest then
        Some(Op(Skip, s.rel, Identical, s.size, s.mode, s.digest, FileIdentical, FinalFile))
      else Some(Op(Replace, s.rel, DigestDiffers, s.size, s.mode, s.digest, FileDifferent, FinalFile))
  }

  /** The operations of a plan, one per source entry in order, or None on the first conflict. */
  function PlanOps(src: seq<Entry>, dst: seq<Entry>): (r: Option<seq<Op>>)
    ensures r.Some? ==> |r.value| == |src|
  {
    if src == [] then Some([])
    else
      match OpFor(src[0], Find(dst, src[0].rel))
      case None => None
      case Some(op) =>
        match PlanOps(src[1..], dst)
        case None => None
        case Some(ops) => Some([op] + ops)
  }

  lemma {:induction false} PlanOpsAt(src: seq<Entry>, dst: seq<Entry>, i: nat)
    requires PlanOps(src, dst).Some? && i < |src|
    ensures OpFor(src[i], Find(dst, src[i].rel)) == Some(PlanOps(src, dst).value[i])
    decreases i
  {
    if i > 0 {
      PlanOpsAt(src[1..], dst, i - 1);
    }
  }

  lemma {:induction false} PlanOpsOf(src: seq<Entry>, dst: seq<Entry>, ops: seq<Op>)
    requires |ops| == |src|
    requires forall i | 0 <= i < |src| :: OpFor(src[i], Find(dst, src[i].rel)) == Some(ops[i])
    ensures PlanOps(src, dst) == Some(ops)
  {
    if src != [] {
      assert ops == [ops[0]] + ops[1..];
      forall i | 0 <= i < |src[1..]|
        ensures OpFor(src[1..][i], Find(dst, src[1..][i].rel)) == Some(ops[1..][i])
      {
        assert src[1..][i] == src[i + 1];
      }
      PlanOpsOf(src[1..], dst, ops[1..]);
    }
  }

  lemma {:induction false} PlanOpsConflict(src: seq<Entry>, dst: seq<Entry>, i: nat)
    requires i < |src| && OpFor(src[i], Find(dst, src[i].rel)) == None
    ensures PlanOps(src, dst) == None
    decreases i
  {
    if i > 0 {
      assert src[1..][i - 1] == src[i];
      PlanOpsConflict(src[1..], dst, i - 1);
    }
  }

  /** Some path is a directory on one side and a file on the other. */
  predicate Conflicting(src: Tree, dst: Tree)
  {
    exists p | p in src && p in dst :: src[p].Dir? != dst[p].Dir?
  }

  lemma {:induction false} PlanOpsFails(src: seq<Entry>, dst: seq<Entry>) returns (i: nat)
    requires PlanOps(src, dst) == None
    ensures i < |src| && OpFor(src[i], Find(dst, src[i].rel)) == None
  {
    if OpFor(src[0], Find(dst, src[0].rel)) == None {
      i := 0;
    } else {
      var j := PlanOpsFails(src[1..], dst);
      assert src[1..][j] == src[j + 1];
      i := j + 1;
    }
  }

  lemma OpForFails(H: Hash, md: seq<Entry>, src: Tree, dst: Tree, p: Path)
    requires IsManifest(H, md, dst) && p in src
    ensures OpFor(EntryOf(H, p, src[p]), Find(md, p)) == None <==> p in dst && src[p].Dir? != dst[p].Dir?
  {
    hide IsManifest;
    FindInManifest(H, md, dst, p);
  }

  /** Planning fails exactly on a directory and a file at the same path. */
  lemma ConflictsExactlyWhen(H: Hash, ms: seq<Entry>, src: Tree, md: seq<Entry>, dst: Tree)
    requires IsManifest(H, ms, src) && IsManifest(H, md, dst)
    ensures PlanOps(ms, md).None? <==> Conflicting(src, dst)
  {
    hide OpFor, Find, PlanOps;
    if PlanOps(ms, md).None? {
      var i := PlanOpsFails(ms, md);
      OpForFails(H, md, src, dst, ms[i].rel);
    }
    if Conflicting(src, dst) {
      var p :| p in src && p in dst && src[p].Dir? != dst[p].Dir?;
      assert Lists(ms, p);
      var i :| 0 <= i < |ms| && ms[i].rel == p;
      OpForFails(H, md, src, dst, p);
      PlanOpsConflict(ms, md, i);
    }
  }

  // ---------- sorting the operations ----------

  // The order of the action names: "copy", "mkdir", "replace", "skip".
  function ActionRank(a: Action): nat
  {
    match a
    case Copy => 0
    case Mkdir => 1
    case Replace => 2
    case Skip => 3
  }

  /** By path, then by action name. */
  function CompareOps(a: Op, b: Op): int
  {
    if a.rel != b.rel then Compare(a.rel, b.rel) else ActionRank(a.action) - ActionRank(b.action)
  }

  /** Sorting a plan whose paths already increase changes nothing. */
  lemma SortedOps(ops: seq<Op>)
    requires forall i, j | 0 <= i < j < |ops| :: Less(ops[i].rel, ops[j].rel)
    ensures InsertionSort.SortBy(ops, CompareOps) == ops
  {
    hide Compare;
    forall i, j | 0 <= i < j < |ops|
      ensures CompareOps(ops[i], ops[j]) <= 0
    {
      assert Less(ops[i].rel, ops[j].rel);
      LessIrreflexive(ops[j].rel);
    }
    InsertionSort.SortOfSorted(ops, CompareOps);
  }

  /** BuildPlan: the loop and the final sort yield PlanOps. */
  method BuildPlan(src: seq<Entry>, dst: seq<Entry>) returns (r: Option<seq<Op>>)
    requires Sorted(src) && Sorted(dst)
    ensures r == PlanOps(src, dst)
  {
    hide Find, Sorted, PlanOps, OpFor;
    var ops: seq<Op> := [];
    var k := 0;
    while k < |src|
      invariant 0 <= k <= |src| && |ops| == k
      invariant forall i | 0 <= i < k :: OpFor(src[i], Find(dst, src[i].rel)) == Some(ops[i])
    {
      var d := Lookup(dst, src[k].rel);
      var op := OpFor(src[k], d);
      if op.None? {
        PlanOpsConflict(src, dst, k);
        return None;
      }
      ops := ops + [op.value];
      k := k + 1;
    }
    PlanOpsOf(src, dst, ops);
    OpsSorted(src, dst, ops);
    SortedOps(ops);
    var sorted := InsertionSort.Sort(ops, CompareOps);
    return Some(sorted);
  }

  lemma OpsSorted(src: seq<Entry>, dst: seq<Entry>, ops: seq<Op>)
    requires Sorted(src) && PlanOps(src, dst) == Some(ops)
    ensures forall i, j | 0 <= i < j < |ops| :: Less(ops[i].rel, ops[j].rel)
  {
    hide Find, PlanOps;
    forall i | 0 <= i < |ops|
      ensures ops[i].rel == src[i].rel
    {
      PlanOpsAt(src, dst, i);
    }
  }

  // ---------- what a plan means ----------

  /** The state op aims at: a directory, or a file with the planned digest. */
  predicate Holds(H: Hash, op: Op, t: Tree)
  {
    op.rel in t && match op.final
      case FinalDirectory => t[op.rel].Dir?
      case FinalFile => t[op.rel].File? && op.digest == Some(H(t[op.rel].content))
  }

  predicate AllHold(H: Hash, ops: seq<Op>, t: Tree)
  {
    forall i | 0 <= i < |ops| :: Holds(H, ops[i], t)
  }

  /** op is an operation for source entry s, whatever the destination held. */
  predicate Matches(op: Op, s: Entry)
  {
    && op.rel == s.rel && op.digest == s.digest && op.size == s.size && op.mode == s.mode
    && match s.etype
       case EntryDir => op.final.FinalDirectory? && (op.action.Mkdir? || op.action.Skip?)
       case EntryFile => op.final.FinalFile? && !op.action.Mkdir?
  }

  /** ops has exactly one operation per entry of the source manifest, in its order. */
  predicate Covers(ops: seq<Op>, src: seq<Entry>)
  {
    |ops| == |src| && forall i | 0 <= i < |src| :: Matches(ops[i], src[i])
  }

  /** Carrying op out can meet neither a file where a directory goes nor the reverse. */
  predicate Applicable(op: Op, t: Tree)
  {
    op.rel in t ==> match op.final
      case FinalDirectory => t[op.rel].Dir?
      case FinalFile => t[op.rel].File?
  }

  /** The destination has every source entry with the same type and, for files, the same digest. */
  predicate InSync(H: Hash, src: Tree, dst: Tree)
  {
    forall p | p in src ::
      && p in dst
      && (src[p].Dir? <==> dst[p].Dir?)
      && (src[p].File? ==> H(src[p].content) == H(dst[p].content))
  }

  /** In sync means equal contents, or the two contents are a digest collision. */
  lemma InSyncContents(H: Hash, src: Tree, dst: Tree, p: Path)
    requires InSync(H, src, dst) && p in src && src[p].File?
    ensures p in dst && dst[p].File?
    ensures dst[p].content == src[p].content || IsCollision(H, src[p].content, dst[p].content)
  {
  }

  lemma OpForMeaning(H: Hash, s: Entry, node: Node, t: Tree)
    requires s == EntryOf(H, s.rel, node)
    ensures var d := if s.rel in t then Some(EntryOf(H, s.rel, t[s.rel])) else None; var op := OpFor(s, d);
      && (op.Some? ==> Matches(op.value, s) && Applicable(op.value, t))
      && (op.Some? ==> (op.value.action.Skip? <==> Holds(H, op.value, t)))
  {
  }

  /** A successful plan covers the source, is applicable, and skips exactly what already holds. */
  lemma PlanMeaning(H: Hash, ms: seq<Entry>, src: Tree, md: seq<Entry>, dst: Tree)
    requires IsManifest(H, ms, src) && IsManifest(H, md, dst)
    requires PlanOps(ms, md).Some?
    ensures var ops := PlanOps(ms, md).value;
      && Covers(ops, ms)
      && forall i | 0 <= i < |ops| :: Applicable(ops[i], dst) && (ops[i].action.Skip? <==> Holds(H, ops[i], dst))
  {
    hide Find, OpFor, PlanOps, Matches, Applicable, Holds;
    var ops := PlanOps(ms, md).value;
    forall i | 0 <= i < |ops|
      ensures Matches(ops[i], ms[i]) && Applicable(ops[i], dst) && (ops[i].action.Skip? <==> Holds(H, ops[i], dst))
    {
      PlanOpsAt(ms, md, i);
      FindInManifest(H, md, dst, ms[i].rel);
      OpForMeaning(H, ms[i], src[ms[i].rel], dst);
    }
  }

  /** If every operation of a covering plan holds, the destination is in sync, and conversely. */
  lemma HoldMeansInSync(H: Hash, ops: seq<Op>, ms: seq<Entry>, src: Tree, dst: Tree)
    requires IsManifest(H, ms, src) && Covers(ops, ms)
    ensures AllHold(H, ops, dst) <==> InSync(H, src, dst)
  {
    hide Sorted, Less;
    if AllHold(H, ops, dst) {
      forall p | p in src
        ensures p in dst && (src[p].Dir? <==> dst[p].Dir?)
        ensures src[p].File? ==> H(src[p].content) == H(dst[p].content)
      {
        assert Lists(ms, p);
        var i :| 0 <= i < |ms| && ms[i].rel == p;
        assert Matches(ops[i], ms[i]) && Holds(H, ops[i], dst);
      }
    }
    if InSync(H, src, dst) {
      forall i | 0 <= i < |ops|
        ensures Holds(H, ops[i], dst)
      {
        assert Matches(ops[i], ms[i]);
      }
    }
  }

  /**
   Replanning after applying gives only skips: wherever every operation of a plan holds,
   planning the same source again succeeds and every operation is a skip.
   */
  lemma ReplanOnlySkips(H: Hash, ms: seq<Entry>, src: Tree, ops: seq<Op>, md: seq<Entry>, dst: Tree)
    requires IsManifest(H, ms, src) && Covers(ops, ms)
    requires IsManifest(H, md, dst) && AllHold(H, ops, dst)
    ensures PlanOps(ms, md).Some? && forall i | 0 <= i < |ms| :: PlanOps(ms, md).value[i].action.Skip?
  {
    hide Find, PlanOps, Sorted;
    var again := seq(|ms|, i requires 0 <= i < |ms| => SkipOf(ms[i]));
    forall i | 0 <= i < |ms|
      ensures OpFor(ms[i], Find(md, ms[i].rel)) == Some(again[i])
    {
      FindInManifest(H, md, dst, ms[i].rel);
      assert Matches(ops[i], ms[i]) && Holds(H, ops[i], dst);
      SkipWhenHeld(H, ops[i], ms[i], src[ms[i].rel], dst);
    }
    PlanOpsOf(ms, md, again);
  }

  function SkipOf(s: Entry): Op
  {
    match s.etype
    case EntryDir => Op(Skip, s.rel, DirExists, 0, s.mode, None, Directory, FinalDirectory)
    case EntryFile => Op(Skip, s.rel, Identical, s.size, s.mode, s.digest, FileIdentical, FinalFile)
  }

  lemma SkipWhenHeld(H: Hash, op: Op, s: Entry, node: Node, t: Tree)
    requires s == EntryOf(H, s.rel, node) && Matches(op, s) && Holds(H, op, t)
    ensures OpFor(s, Some(EntryOf(H, s.rel, t[s.rel]))) == Some(SkipOf(s))
  {
  }

  /** Parents come first: every directory above an operation's path has an earlier operation of its own. */
  lemma ParentsFirst(H: Hash, ops: seq<Op>, ms: seq<Entry>, src: Tree, j: nat, a: Path) returns (i: nat)
    requires IsManifest(H, ms, src) && Covers(ops, ms) && TreeClosed(src)
    requires j < |ops| && a in Ancestors(ops[j].rel)
    ensures i < j && ops[i].rel == a && ops[i].final.FinalDirectory?
  {
    hide Less;
    assert Matches(ops[j], ms[j]);
    assert a in src && src[a].Dir?;
    assert Lists(ms, a);
    i :| 0 <= i < |ms| && ms[i].rel == a;
    assert Matches(ops[i], ms[i]);
    AncestorLess(ms[j].rel, a);
    if i >= j {
      LessIrreflexive(a);
      LessTotal(a, ms[j].rel);
    }
  }

  lemma AncestorLess(p: Path, a: Path)
    requires a in Ancestors(p)
    ensures Less(a, p) && a != p
  {
    var k :| 0 < k < |p| && a == p[..k];
    PrefixLess(p, k);
  }

  // ---------- counters ----------

  function Skipped(ops: seq<Op>): nat
  {
    if ops == [] then 0 else Skipped(ops[..|ops| - 1]) + if ops[|ops| - 1].action.Skip? then 1 else 0
  }

  function Completed(ops: seq<Op>): nat
  {
    if ops == [] then 0 else Completed(ops[..|ops| - 1]) + if ops[|ops| - 1].action.Skip? then 0 else 1
  }

  /** The bytes that carrying out ops copies. */
  function Transferred(ops: seq<Op>): nat
  {
    if ops == [] then 0
    else Transferred(ops[..|ops| - 1]) + TransferredBy(ops[|ops| - 1])
  }

  function TransferredBy(op: Op): nat
  {
    if op.action.Copy? || op.action.Replace? then op.size else 0
  }

  lemma {:induction false} CountersAddUp(ops: seq<Op>)
    ensures Completed(ops) + Skipped(ops) == |ops|
  {
    if ops != [] {
      CountersAddUp(ops[..|ops| - 1]);
    }
  }

  lemma CountersStep(ops: seq<Op>, i: nat)
    requires i < |ops|
    ensures Skipped(ops[..i + 1]) == Skipped(ops[..i]) + if ops[i].action.Skip? then 1 else 0
    ensures Completed(ops[..i + 1]) == Completed(ops[..i]) + if ops[i].action.Skip? then 0 else 1
    ensures Transferred(ops[..i + 1]) == Transferred(ops[..i]) + TransferredBy(ops[i])
  {
    assert ops[..i + 1][..i] == ops[..i];
  }

  lemma {:induction false} TransferredMonotone(ops: seq<Op>, i: nat)
    requires i <= |ops|
    ensures Transferred(ops[..i]) <= Transferred(ops)
    decreases |ops| - i
  {
    if i == |ops| {
      assert ops[..i] == ops;
    } else {
      CountersStep(ops, i);
      TransferredMonotone(ops, i + 1);
    }
  }
}
