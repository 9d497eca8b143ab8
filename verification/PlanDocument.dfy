/**
 The planner's rows, their canonical order and their binary form (internal/plan/types.go,
 sort.go, encode.go).
 */
module PlanDocument {
  import opened Bytes
  import Lex
  import opened InsertionSort
  import opened JournalPayload

  type Path = seq<Bytes>

  datatype Classification = Classification(path: Path, cap: u16, action: u16, result: u16, reps: seq<u16>, aux: Digest)

  datatype Entry = Entry(path: Path, cap: u16, action: u16, result: u16, rep: u16, aux: Digest)

  datatype Key = Key(path: Path, cap: u16, action: u16)

  const ACTION_QUARANTINE_DELETE: u16 := 4

  // ---------- the canonical order ----------

  /** Component by component, then by component count. */
  function ComparePaths(a: Path, b: Path): (c: int)
    ensures -1 <= c <= 1
  {
    if a == [] then if b == [] then 0 else -1
    else if b == [] then 1
    else if Lex.Compare(a[0], b[0]) != 0 then Lex.Compare(a[0], b[0])
    else ComparePaths(a[1..], b[1..])
  }

  function CompareU16(a: u16, b: u16): int
  {
    if a < b then -1 else if a > b then 1 else 0
  }

  function CompareKeys(a: Key, b: Key): int
  {
    if ComparePaths(a.path, b.path) != 0 then ComparePaths(a.path, b.path)
    else if a.cap != b.cap then CompareU16(a.cap, b.cap)
    else CompareU16(a.action, b.action)
  }

  function KeyOf(c: Classification): Key
  {
    Key(c.path, c.cap, c.action)
  }

  function EntryKey(e: Entry): Key
  {
    Key(e.path, e.cap, e.action)
  }

  function CompareClassifications(a: Classification, b: Classification): int
  {
    CompareKeys(KeyOf(a), KeyOf(b))
  }

  function CompareEntries(a: Entry, b: Entry): int
  {
    CompareKeys(EntryKey(a), EntryKey(b))
  }

  /** comparePathComponents: the loop. */
  method ComparePathComponents(a: Path, b: Path) returns (c: int)
    ensures c == ComparePaths(a, b)
  {
    hide Lex.Compare;
    var n := if |b| < |a| then |b| else |a|;
    assert a[0..] == a && b[0..] == b;
    for i := 0 to n
      invariant ComparePaths(a[i..], b[i..]) == ComparePaths(a, b)
    {
      assert a[i..][1..] == a[i + 1..] && b[i..][1..] == b[i + 1..];
      var d := Lex.Compare(a[i], b[i]);
      if d != 0 { return d; }
    }
    if |a| < |b| { return -1; }
    if |a| > |b| { return 1; }
    return 0;
  }

  lemma {:induction false} PathsEqual(a: Path, b: Path)
    ensures ComparePaths(a, b) == 0 <==> a == b
  {
    hide Lex.Compare;
    if a != [] && b != [] {
      Lex.CompareEqual(a[0], b[0]);
      PathsEqual(a[1..], b[1..]);
      assert a == [a[0]] + a[1..] && b == [b[0]] + b[1..];
    }
  }

  lemma {:induction false} PathsFlip(a: Path, b: Path)
    ensures ComparePaths(b, a) == -ComparePaths(a, b)
  {
    hide Lex.Compare;
    if a != [] && b != [] {
      Lex.CompareFlip(a[0], b[0]);
      PathsFlip(a[1..], b[1..]);
    }
  }

  lemma {:induction false} PathsTransitive(a: Path, b: Path, c: Path)
    requires ComparePaths(a, b) < 0 && ComparePaths(b, c) < 0
    ensures ComparePaths(a, c) < 0
  {
    hide Lex.Compare;
    if a != [] && b != [] && c != [] {
      Lex.CompareEqual(a[0], b[0]);
      Lex.CompareEqual(b[0], c[0]);
      Lex.CompareEqual(a[0], c[0]);
      if a[0] == b[0] == c[0] {
        PathsTransitive(a[1..], b[1..], c[1..]);
      } else if a[0] != b[0] && b[0] != c[0] {
        Lex.LessTransitive(a[0], b[0], c[0]);
      }
    }
  }

  lemma KeysEqual(a: Key, b: Key)
    ensures CompareKeys(a, b) == 0 <==> a == b
  {
    PathsEqual(a.path, b.path);
  }

  lemma KeysFlip(a: Key, b: Key)
    ensures CompareKeys(a, b) > 0 <==> CompareKeys(b, a) < 0
  {
    hide ComparePaths;
    PathsFlip(a.path, b.path);
    PathsEqual(a.path, b.path);
  }

  lemma KeysTransitive(a: Key, b: Key, c: Key)
    requires CompareKeys(a, b) <= 0 && CompareKeys(b, c) <= 0
    ensures CompareKeys(a, c) <= 0
  {
    hide ComparePaths;
    PathsEqual(a.path, b.path);
    PathsEqual(b.path, c.path);
    PathsEqual(a.path, c.path);
    if a.path != b.path && b.path != c.path {
      PathsTransitive(a.path, b.path, c.path);
    }
  }

  /** The canonical order is an order, on classifications, on entries and on identifiers. */
  lemma ClassificationsOrdered()
    ensures Orders(CompareClassifications)
  {
    hide CompareKeys;
    forall a, b
      ensures CompareClassifications(a, b) > 0 <==> CompareClassifications(b, a) < 0
    {
      KeysFlip(KeyOf(a), KeyOf(b));
    }
    forall a, b, c | CompareClassifications(a, b) <= 0 && CompareClassifications(b, c) <= 0
      ensures CompareClassifications(a, c) <= 0
    {
      KeysTransitive(KeyOf(a), KeyOf(b), KeyOf(c));
    }
  }

  lemma U16Ordered()
    ensures Orders(CompareU16)
  {
  }

  // ---------- the binary form ----------

  const PLAN_VERSION: u16 := 1

  // "INTPLAN1"
  const PLAN_MAGIC: Bytes := [73, 78, 84, 80, 76, 65, 78, 49]

  predicate PathFits(p: Path)
  {
    |p| < 0x1_0000 && forall i | 0 <= i < |p| :: |p[i]| < 0x1_0000
  }

  function EncodeComponents(p: Path): Bytes
    requires forall i | 0 <= i < |p| :: |p[i]| < 0x1_0000
  {
    if p == [] then [] else LE16(|p[0]|) + p[0] + EncodeComponents(p[1..])
  }

  function EncodePath(p: Path): Bytes
    requires PathFits(p)
  {
    LE16(|p|) + EncodeComponents(p)
  }

  function EncodeFields(e: Entry): (b: Bytes)
    ensures |b| == 40
  {
    LE16(e.cap) + LE16(e.action) + LE16(e.result) + LE16(e.rep) + e.aux
  }

  function EncodeEntry(e: Entry): (b: Bytes)
    requires PathFits(e.path)
  {
    EncodePath(e.path) + EncodeFields(e)
  }

  predicate AllFit(es: seq<Entry>)
  {
    forall i | 0 <= i < |es| :: PathFits(es[i].path)
  }

  function EncodeEntries(es: seq<Entry>): Bytes
    requires AllFit(es)
  {
    if es == [] then [] else EncodeEntry(es[0]) + EncodeEntries(es[1..])
  }

  predicate IsDestructive(e: Entry)
  {
    e.action == ACTION_QUARANTINE_DELETE
  }

  /** The destructive entries; one that does not encode contributes nothing. */
  function Destructive(es: seq<Entry>): (r: seq<Entry>)
    ensures AllFit(r)
  {
    if es == [] then []
    else
      var e := es[|es| - 1];
      Destructive(es[..|es| - 1]) + if IsDestructive(e) && PathFits(e.path) then [e] else []
  }

  datatype Digests = Digests(manifest: Digest, capabilities: Digest, configuration: Digest)

  function PlanHeader(d: Digests, n: u32): (b: Bytes)
    ensures |b| == 110
  {
    PLAN_MAGIC + LE16(PLAN_VERSION) + d.manifest + d.capabilities + d.configuration + LE32(n)
  }

  /** Everything the plan's own digest covers. */
  function PlanBody(d: Digests, es: seq<Entry>, destructive: Digest): Bytes
    requires AllFit(es) && |es| < 0x1_0000_0000
  {
    PlanHeader(d, |es|) + EncodeEntries(es) + destructive
  }

  function PlanBytes(H: Hash, d: Digests, es: seq<Entry>, destructive: Digest): Bytes
    requires AllFit(es) && |es| < 0x1_0000_0000
  {
    PlanBody(d, es, destructive) + H(PlanBody(d, es, destructive))
  }

  // ---------- injectivity ----------

  /** A two-byte length tells where what it counts ends. */
  lemma LengthPrefix(n: u16, m: u16, x: Bytes, y: Bytes)
    requires LE16(n) + x == LE16(m) + y
    ensures n == m && x == y
  {
    hide LE16, U16LE;
    assert (LE16(n) + x)[..2] == LE16(n) && (LE16(m) + y)[..2] == LE16(m);
    assert (LE16(n) + x)[2..] == x && (LE16(m) + y)[2..] == y;
    ReadWrite16(n);
    ReadWrite16(m);
  }

  lemma {:induction false} ComponentsInjective(p: Path, q: Path, s: Bytes, t: Bytes)
    requires |p| == |q|
    requires forall i | 0 <= i < |p| :: |p[i]| < 0x1_0000
    requires forall i | 0 <= i < |q| :: |q[i]| < 0x1_0000
    requires EncodeComponents(p) + s == EncodeComponents(q) + t
    ensures p == q && s == t
  {
    hide LE16;
    if p == [] {
      assert [] + s == s && [] + t == t;
    } else {
      var x := p[0] + (EncodeComponents(p[1..]) + s);
      var y := q[0] + (EncodeComponents(q[1..]) + t);
      assert EncodeComponents(p) + s == LE16(|p[0]|) + x;
      assert EncodeComponents(q) + t == LE16(|q[0]|) + y;
      LengthPrefix(|p[0]|, |q[0]|, x, y);
      assert x[..|p[0]|] == p[0] && y[..|q[0]|] == q[0];
      assert x[|p[0]|..] == EncodeComponents(p[1..]) + s && y[|q[0]|..] == EncodeComponents(q[1..]) + t;
      ComponentsInjective(p[1..], q[1..], s, t);
      assert p == [p[0]] + p[1..] && q == [q[0]] + q[1..];
    }
  }

  lemma PathInjective(p: Path, q: Path, s: Bytes, t: Bytes)
    requires PathFits(p) && PathFits(q)
    requires EncodePath(p) + s == EncodePath(q) + t
    ensures p == q && s == t
  {
    hide LE16;
    assert EncodePath(p) + s == LE16(|p|) + (EncodeComponents(p) + s);
    assert EncodePath(q) + t == LE16(|q|) + (EncodeComponents(q) + t);
    LengthPrefix(|p|, |q|, EncodeComponents(p) + s, EncodeComponents(q) + t);
    ComponentsInjective(p, q, s, t);
  }

  lemma FieldsInjective(d: Entry, e: Entry)
    requires EncodeFields(d) == EncodeFields(e)
    ensures d.cap == e.cap && d.action == e.action && d.result == e.result && d.rep == e.rep && d.aux == e.aux
  {
    hide LE16;
    var x, y := EncodeFields(d), EncodeFields(e);
    assert x[..2] == LE16(d.cap) && x[2..4] == LE16(d.action) && x[4..6] == LE16(d.result) &&
      x[6..8] == LE16(d.rep) && x[8..] == d.aux;
    assert y[..2] == LE16(e.cap) && y[2..4] == LE16(e.action) && y[4..6] == LE16(e.result) &&
      y[6..8] == LE16(e.rep) && y[8..] == e.aux;
    U16Injective(d.cap, e.cap);
    U16Injective(d.action, e.action);
    U16Injective(d.result, e.result);
    U16Injective(d.rep, e.rep);
  }

  lemma U16Injective(a: u16, b: u16)
    ensures LE16(a) == LE16(b) ==> a == b
  {
    hide LE16, U16LE;
    ReadWrite16(a);
    ReadWrite16(b);
  }

  /** An encoded entry delimits itself. */
  lemma EntryInjective(d: Entry, e: Entry, s: Bytes, t: Bytes)
    requires PathFits(d.path) && PathFits(e.path)
    requires EncodeEntry(d) + s == EncodeEntry(e) + t
    ensures d == e && s == t
  {
    hide EncodePath, EncodeFields;
    assert EncodeEntry(d) + s == EncodePath(d.path) + (EncodeFields(d) + s);
    assert EncodeEntry(e) + t == EncodePath(e.path) + (EncodeFields(e) + t);
    PathInjective(d.path, e.path, EncodeFields(d) + s, EncodeFields(e) + t);
    assert (EncodeFields(d) + s)[..40] == EncodeFields(d) && (EncodeFields(d) + s)[40..] == s;
    assert (EncodeFields(e) + t)[..40] == EncodeFields(e) && (EncodeFields(e) + t)[40..] == t;
    FieldsInjective(d, e);
  }

  lemma {:induction false} EntriesInjective(ds: seq<Entry>, es: seq<Entry>, s: Bytes, t: Bytes)
    requires AllFit(ds) && AllFit(es) && |ds| == |es|
    requires EncodeEntries(ds) + s == EncodeEntries(es) + t
    ensures ds == es && s == t
  {
    hide EncodeEntry;
    if ds == [] {
      assert [] + s == s && [] + t == t;
    } else {
      assert EncodeEntries(ds) + s == EncodeEntry(ds[0]) + (EncodeEntries(ds[1..]) + s);
      assert EncodeEntries(es) + t == EncodeEntry(es[0]) + (EncodeEntries(es[1..]) + t);
      EntryInjective(ds[0], es[0], EncodeEntries(ds[1..]) + s, EncodeEntries(es[1..]) + t);
      EntriesInjective(ds[1..], es[1..], s, t);
      assert ds == [ds[0]] + ds[1..] && es == [es[0]] + es[1..];
    }
  }

  lemma HeaderInjective(d: Digests, n: u32, e: Digests, m: u32)
    requires PlanHeader(d, n) == PlanHeader(e, m)
    ensures d == e && n == m
  {
    hide LE16, LE32, U32LE;
    var x, y := PlanHeader(d, n), PlanHeader(e, m);
    assert x[10..42] == d.manifest && x[42..74] == d.capabilities && x[74..106] == d.configuration &&
      x[106..] == LE32(n);
    assert y[10..42] == e.manifest && y[42..74] == e.capabilities && y[74..106] == e.configuration &&
      y[106..] == LE32(m);
    ReadWrite32(n);
    ReadWrite32(m);
  }

  /** Two different (digests, entries) inputs never encode to the same plan bytes. */
  lemma PlanInjective(H: Hash, d: Digests, ds: seq<Entry>, x: Digest, e: Digests, es: seq<Entry>, y: Digest)
    requires AllFit(ds) && |ds| < 0x1_0000_0000 && AllFit(es) && |es| < 0x1_0000_0000
    requires PlanBytes(H, d, ds, x) == PlanBytes(H, e, es, y)
    ensures d == e && ds == es && x == y
  {
    hide EncodeEntries, PlanHeader, AllFit;
    var s, t := x + H(PlanBody(d, ds, x)), y + H(PlanBody(e, es, y));
    var p, q := PlanBytes(H, d, ds, x), PlanBytes(H, e, es, y);
    assert p == PlanHeader(d, |ds|) + (EncodeEntries(ds) + s);
    assert q == PlanHeader(e, |es|) + (EncodeEntries(es) + t);
    assert p[..110] == PlanHeader(d, |ds|) && q[..110] == PlanHeader(e, |es|);
    assert p[110..] == EncodeEntries(ds) + s && q[110..] == EncodeEntries(es) + t;
    HeaderInjective(d, |ds|, e, |es|);
    EntriesInjective(ds, es, s, t);
    assert s[..32] == x && t[..32] == y;
  }

  // ---------- the encoders ----------

  lemma {:induction false} ComponentsSnoc(p: Path, i: nat)
    requires i < |p| && forall k | 0 <= k < |p| :: |p[k]| < 0x1_0000
    ensures EncodeComponents(p[..i + 1]) == EncodeComponents(p[..i]) + LE16(|p[i]|) + p[i]
    decreases i
  {
    hide LE16;
    if i == 0 {
      assert p[..1][1..] == [];
    } else {
      assert p[..i + 1][1..] == p[1..][..i] && p[..i][1..] == p[1..][..i - 1];
      ComponentsSnoc(p[1..], i - 1);
    }
  }

  /** encodeEntry: refuses what two-byte counts cannot hold. */
  method EncodeEntryBytes(e: Entry) returns (r: Option<Bytes>)
    ensures r == if PathFits(e.path) then Some(EncodeEntry(e)) else None
  {
    hide EncodeFields, LE16;
    if |e.path| > 65535 { return None; }
    for i := 0 to |e.path|
      invariant forall k | 0 <= k < i :: |e.path[k]| < 0x1_0000
    {
      if |e.path[i]| > 65535 { return None; }
    }
    var buf := LE16(|e.path|);
    assert e.path[..0] == [];
    for i := 0 to |e.path|
      invariant buf == LE16(|e.path|) + EncodeComponents(e.path[..i])
    {
      ComponentsSnoc(e.path, i);
      buf := buf + LE16(|e.path[i]|);
      buf := buf + e.path[i];
    }
    assert e.path[..|e.path|] == e.path;
    return Some(buf + EncodeFields(e));
  }

  lemma {:induction false} EntriesSnoc(es: seq<Entry>, e: Entry)
    requires AllFit(es) && PathFits(e.path)
    ensures AllFit(es + [e]) && EncodeEntries(es + [e]) == EncodeEntries(es) + EncodeEntry(e)
  {
    hide EncodeEntry, PathFits;
    if es == [] {
      assert [e][1..] == [] && es + [e] == [e];
    } else {
      EntriesSnoc(es[1..], e);
      assert (es + [e])[1..] == es[1..] + [e];
      assert (es + [e])[0] == es[0];
    }
  }

  lemma EmptyEntries()
    ensures EncodeEntries([]) == [] && Destructive([]) == [] && AllFit([])
  {
  }

  lemma DestructiveSnoc(es: seq<Entry>, i: nat)
    requires i < |es|
    ensures Destructive(es[..i + 1])
         == Destructive(es[..i]) + if IsDestructive(es[i]) && PathFits(es[i].path) then [es[i]] else []
  {
    assert es[..i + 1][..i] == es[..i];
  }

  /** encodeDestructiveSubset. */
  method EncodeDestructiveSubset(es: seq<Entry>) returns (buf: Bytes)
    ensures buf == EncodeEntries(Destructive(es))
  {
    hide EncodeEntries, EncodeEntry, PathFits, Destructive;
    buf := [];
    EmptyEntries();
    assert es[..0] == [];
    for i := 0 to |es|
      invariant buf == EncodeEntries(Destructive(es[..i]))
    {
      DestructiveSnoc(es, i);
      if IsDestructive(es[i]) {
        var enc := EncodeEntryBytes(es[i]);
        if enc.Some? {
          EntriesSnoc(Destructive(es[..i]), es[i]);
          buf := buf + enc.value;
        } else {
          assert Destructive(es[..i + 1]) == Destructive(es[..i]);
        }
      } else {
        assert Destructive(es[..i + 1]) == Destructive(es[..i]);
      }
    }
    assert es[..|es|] == es;
  }

  /** encodePlan: refuses what its counts cannot hold. */
  method EncodePlan(H: Hash, d: Digests, es: seq<Entry>, destructive: Digest) returns (r: Option<(Bytes, Digest)>)
    ensures r.Some? <==> AllFit(es) && |es| < 0x1_0000_0000
    ensures r.Some? ==> r.value == (PlanBytes(H, d, es, destructive), H(PlanBody(d, es, destructive)))
  {
    hide EncodeEntries, EncodeEntry, PathFits, LE16, LE32;
    if |es| > 0xFFFF_FFFF { return None; }
    var buf := PLAN_MAGIC + LE16(PLAN_VERSION) + d.manifest + d.capabilities + d.configuration + LE32(|es|);
    ghost var header := buf;
    EmptyEntries();
    assert es[..0] == [] && header + [] == header;
    for i := 0 to |es|
      invariant AllFit(es[..i]) && buf == header + EncodeEntries(es[..i])
    {
      var enc := EncodeEntryBytes(es[i]);
      if enc.None? { return None; }
      assert es[..i + 1] == es[..i] + [es[i]];
      EntriesSnoc(es[..i], es[i]);
      buf := buf + enc.value;
    }
    assert es[..|es|] == es;
    buf := buf + destructive;
    var digest := H(buf);
    return Some((buf + digest, digest));
  }
}
