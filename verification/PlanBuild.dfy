/**
 The planner (internal/plan/build.go): canonical order in, one entry per classification
 out, or a preflight that says what blocks, or a typed rejection.

 `validPath` stands for the path rules of internal/path.
 */
module PlanBuild {
  import opened Bytes
  import opened InsertionSort
  import opened JournalPayload
  import opened PlanDocument

  const LOSSLESS: u16 := 1
  const WRAPPED: u16 := 2
  const POLICY_FORBIDDEN: u16 := 4
  const UNKNOWN: u16 := 5

  const MAX_DEFAULT_ENTRIES: u32 := 0x10_0000
  const MAX_DEFAULT_PLAN_BYTES: u32 := 0x100_0000
  const MAX_DEFAULT_COMPARISONS: u32 := 0x100_0000

  datatype Limits = Limits(entries: u32, planBytes: u32, comparisons: u32)

  function Resolved(l: Limits): Limits
  {
    Limits(
      if l.entries == 0 then MAX_DEFAULT_ENTRIES else l.entries,
      if l.planBytes == 0 then MAX_DEFAULT_PLAN_BYTES else l.planBytes,
      if l.comparisons == 0 then MAX_DEFAULT_COMPARISONS else l.comparisons)
  }

  datatype Input = Input(digests: Digests, rows: seq<Classification>, wrapAllow: seq<u16>, repAllow: seq<u16>,
    limits: Limits)

  datatype Kind = Limit | NonCanonical | Unsupported

  datatype Blocking = Blocking(path: Path, cap: u16, result: u16)

  /** A plan; or the preflight of a refusal; or an error with neither. */
  datatype Outcome = Built(bytes: Bytes, digest: Digest) | Refused(blocking: seq<Blocking>) | Rejected(kind: Kind)

  type PathRule = Path -> bool

  // ---------- one classification ----------

  predicate KnownCapability(cap: u16)
  {
    1 <= cap <= 20
  }

  predicate BlocksAuthorization(result: u16)
  {
    3 <= result <= 5
  }

  /** validateClassification; None is valid. */
  function Validate(c: Classification, validPath: PathRule): Option<Kind>
  {
    if !validPath(c.path) then Some(NonCanonical)
    else if !(1 <= c.action <= 5) then Some(Unsupported)
    else if !(1 <= c.result <= 5) then Some(Unsupported)
    else if c.cap == 0 then Some(Unsupported)
    else if !KnownCapability(c.cap) then None
    else if |c.reps| > MAX_DEFAULT_COMPARISONS then Some(Limit)
    else None
  }

  predicate Eligible(id: u16, allow: seq<u16>, emptyAllowAll: bool)
  {
    id != 0 && if |allow| > 0 then id in allow else emptyAllowAll
  }

  function Least(ids: seq<u16>, allow: seq<u16>, emptyAllowAll: bool): Option<u16>
  {
    if ids == [] then None
    else
      var best := Least(ids[..|ids| - 1], allow, emptyAllowAll);
      var id := ids[|ids| - 1];
      if Eligible(id, allow, emptyAllowAll) && (best.None? || id < best.value) then Some(id) else best
  }

  /** The identifier pickRepresentation returns, and whether it counts. */
  function Pick(candidates: seq<u16>, allow: seq<u16>, emptyAllowAll: bool): (u16, bool)
  {
    var best := Least(SortBy(candidates, CompareU16), allow, emptyAllowAll);
    if best.Some? then (best.value, true) else (0, emptyAllowAll && |candidates| == 0)
  }

  datatype Row = Admitted(entry: Entry) | Blocked(result: u16) | Unhandled

  /** resolveClassification */
  function Resolve(c: Classification, wrapAllow: seq<u16>, repAllow: seq<u16>): Row
  {
    if !KnownCapability(c.cap) then Blocked(UNKNOWN)
    else if BlocksAuthorization(c.result) then Blocked(c.result)
    else if c.result == LOSSLESS then
      var p := Pick(c.reps, repAllow, true);
      if !p.1 && |c.reps| > 0 then Blocked(POLICY_FORBIDDEN) else Admitted(EntryFor(c, p.0))
    else if c.result == WRAPPED then
      var p := Pick(c.reps, wrapAllow, false);
      if !p.1 then Blocked(POLICY_FORBIDDEN) else Admitted(EntryFor(c, p.0))
    else Unhandled
  }

  function EntryFor(c: Classification, rep: u16): Entry
  {
    Entry(c.path, c.cap, c.action, c.result, rep, c.aux)
  }

  // ---------- the pass over the sorted classifications ----------

  datatype Pass = Rows(entries: seq<Entry>, blocking: seq<Blocking>) | Bad(kind: Kind)

  /** One turn of the loop: c comes after `prev`. */
  function Turn(
    p: Pass, prev: seq<Classification>, c: Classification, wrapAllow: seq<u16>, repAllow: seq<u16>, validPath: PathRule)
    : Pass
  {
    if p.Bad? then p
    else if Validate(c, validPath).Some? then Bad(Validate(c, validPath).value)
    else if prev != [] && CompareClassifications(prev[|prev| - 1], c) == 0 then Bad(NonCanonical)
    else
      match Resolve(c, wrapAllow, repAllow)
      case Admitted(e) => Rows(p.entries + [e], p.blocking)
      case Blocked(result) => Rows(p.entries, p.blocking + [Blocking(c.path, c.cap, result)])
      case Unhandled => Bad(Unsupported)
  }

  function Collect(s: seq<Classification>, wrapAllow: seq<u16>, repAllow: seq<u16>, validPath: PathRule): Pass
  {
    if s == [] then Rows([], [])
    else
      var n := |s| - 1;
      Turn(Collect(s[..n], wrapAllow, repAllow, validPath), s[..n], s[n], wrapAllow, repAllow, validPath)
  }

  predicate WithinCounts(i: Input)
  {
    |i.rows| <= Resolved(i.limits).comparisons && |i.rows| <= Resolved(i.limits).entries
  }

  function Canonical(i: Input): seq<Classification>
  {
    SortBy(i.rows, CompareClassifications)
  }

  function PassOver(i: Input, validPath: PathRule): Pass
  {
    Collect(Canonical(i), SortBy(i.wrapAllow, CompareU16), SortBy(i.repAllow, CompareU16), validPath)
  }

  predicate Encodes(es: seq<Entry>)
  {
    AllFit(es) && |es| < 0x1_0000_0000
  }

  function DocumentOf(H: Hash, d: Digests, es: seq<Entry>): Bytes
    requires Encodes(es)
  {
    PlanBytes(H, d, es, H(EncodeEntries(Destructive(es))))
  }

  function DigestOf(H: Hash, d: Digests, es: seq<Entry>): Digest
    requires Encodes(es)
  {
    H(PlanBody(d, es, H(EncodeEntries(Destructive(es)))))
  }

  function Finish(H: Hash, i: Input, es: seq<Entry>): Outcome
  {
    if !Encodes(es) then Rejected(Limit)
    else if |DocumentOf(H, i.digests, es)| > Resolved(i.limits).planBytes then Rejected(Limit)
    else Built(DocumentOf(H, i.digests, es), DigestOf(H, i.digests, es))
  }

  /** What Build returns. */
  function Planned(H: Hash, i: Input, validPath: PathRule): Outcome
  {
    if !WithinCounts(i) then Rejected(Limit)
    else
      var p := PassOver(i, validPath);
      if p.Bad? then Rejected(p.kind)
      else if p.blocking != [] then Refused(p.blocking)
      else Finish(H, i, SortBy(p.entries, CompareEntries))
  }

  // ---------- the loops ----------

  /** pickRepresentation */
  method PickRepresentation(candidates: seq<u16>, allow: seq<u16>, emptyAllowAll: bool) returns (id: u16, ok: bool)
    ensures (id, ok) == Pick(candidates, allow, emptyAllowAll)
  {
    var sorted := Sort(candidates, CompareU16);
    var best: u16, found := 0, false;
    assert sorted[..0] == [];
    for k := 0 to |sorted|
      invariant Least(sorted[..k], allow, emptyAllowAll) == if found then Some(best) else None
      invariant !found ==> best == 0
    {
      assert sorted[..k + 1][..k] == sorted[..k];
      if sorted[k] == 0 { continue; }
      var eligible := emptyAllowAll && |allow| == 0;
      if |allow| > 0 { eligible := sorted[k] in allow; }
      if !eligible { continue; }
      if !found || sorted[k] < best { best, found := sorted[k], true; }
    }
    assert sorted[..|sorted|] == sorted;
    if !found && |sorted| == 0 && emptyAllowAll { return 0, true; }
    return best, found;
  }

  lemma {:induction false} BadStays(s: seq<Classification>, n: nat, wrapAllow: seq<u16>, repAllow: seq<u16>,
    validPath: PathRule)
    requires n <= |s| && Collect(s[..n], wrapAllow, repAllow, validPath).Bad?
    ensures Collect(s, wrapAllow, repAllow, validPath) == Collect(s[..n], wrapAllow, repAllow, validPath)
  {
    hide Validate, Resolve;
    if n == |s| {
      assert s[..n] == s;
    } else {
      assert s[..|s| - 1][..n] == s[..n];
      BadStays(s[..|s| - 1], n, wrapAllow, repAllow, validPath);
    }
  }

  /** The loop of Build. */
  method Walk(s: seq<Classification>, wrapAllow: seq<u16>, repAllow: seq<u16>, validPath: PathRule) returns (p: Pass)
    ensures p == Collect(s, wrapAllow, repAllow, validPath)
  {
    hide Validate, Resolve, CompareClassifications;
    var entries: seq<Entry>, blocking: seq<Blocking> := [], [];
    for i := 0 to |s|
      invariant Collect(s[..i], wrapAllow, repAllow, validPath) == Rows(entries, blocking)
    {
      assert s[..i + 1][..i] == s[..i];
      assert i > 0 ==> s[..i][|s[..i]| - 1] == s[i - 1];
      var invalid := Validate(s[i], validPath);
      if invalid.Some? {
        BadStays(s, i + 1, wrapAllow, repAllow, validPath);
        return Bad(invalid.value);
      }
      if i > 0 && CompareClassifications(s[i - 1], s[i]) == 0 {
        BadStays(s, i + 1, wrapAllow, repAllow, validPath);
        return Bad(NonCanonical);
      }
      match Resolve(s[i], wrapAllow, repAllow)
      case Admitted(e) => entries := entries + [e];
      case Blocked(result) => blocking := blocking + [Blocking(s[i].path, s[i].cap, result)];
      case Unhandled =>
        BadStays(s, i + 1, wrapAllow, repAllow, validPath);
        return Bad(Unsupported);
    }
    assert s[..|s|] == s;
    return Rows(entries, blocking);
  }

  /** Build */
  method Build(H: Hash, i: Input, validPath: PathRule) returns (r: Outcome)
    ensures r == Planned(H, i, validPath)
  {
    hide Collect, AllFit, Destructive, EncodeEntries, PlanBytes, PlanBody;
    var limits := Resolved(i.limits);
    if |i.rows| > limits.comparisons { return Rejected(Limit); }
    if |i.rows| > limits.entries { return Rejected(Limit); }
    var sorted := Sort(i.rows, CompareClassifications);
    var wrapAllow := Sort(i.wrapAllow, CompareU16);
    var repAllow := Sort(i.repAllow, CompareU16);
    var p := Walk(sorted, wrapAllow, repAllow, validPath);
    if p.Bad? { return Rejected(p.kind); }
    if |p.blocking| > 0 { return Refused(p.blocking); }
    var entries := Sort(p.entries, CompareEntries);
    var subset := EncodeDestructiveSubset(entries);
    var document := EncodePlan(H, i.digests, entries, H(subset));
    if document.None? { return Rejected(Limit); }
    if |document.value.0| > limits.planBytes { return Rejected(Limit); }
    return Built(document.value.0, document.value.1);
  }

  // ---------- the least eligible representation ----------

  lemma {:induction false} LeastIsLeast(ids: seq<u16>, allow: seq<u16>, emptyAllowAll: bool)
    ensures Least(ids, allow, emptyAllowAll).Some? <==> exists id | id in ids :: Eligible(id, allow, emptyAllowAll)
    ensures var r := Least(ids, allow, emptyAllowAll);
            r.Some? ==> r.value in ids && Eligible(r.value, allow, emptyAllowAll)
                        && forall id | id in ids && Eligible(id, allow, emptyAllowAll) :: r.value <= id
  {
    if ids != [] {
      LeastIsLeast(ids[..|ids| - 1], allow, emptyAllowAll);
      assert ids == ids[..|ids| - 1] + [ids[|ids| - 1]];
    }
  }
}
