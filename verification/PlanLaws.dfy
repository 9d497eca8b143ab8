/**
 What the planner promises of every input: when it builds, refuses or rejects, what a
 built plan holds, and that the order its input was acquired in does not show.
 */
module PlanLaws {
  import opened Bytes
  import opened InsertionSort
  import opened JournalPayload
  import opened PlanDocument
  import opened PlanBuild

  // ---------- one classification ----------

  /** rep is the least eligible candidate. */
  predicate IsLeastEligible(rep: u16, candidates: seq<u16>, allow: seq<u16>, emptyAllowAll: bool)
  {
    && rep in candidates
    && Eligible(rep, allow, emptyAllowAll)
    && forall id | id in candidates && Eligible(id, allow, emptyAllowAll) :: rep <= id
  }

  predicate HasEligible(candidates: seq<u16>, allow: seq<u16>, emptyAllowAll: bool)
  {
    exists id | id in candidates :: Eligible(id, allow, emptyAllowAll)
  }

  /** The policy admits c. */
  predicate Admissible(c: Classification, i: Input)
  {
    && KnownCapability(c.cap)
    && (|| (c.result == LOSSLESS && (c.reps == [] || HasEligible(c.reps, i.repAllow, true)))
        || (c.result == WRAPPED && HasEligible(c.reps, i.wrapAllow, false)))
  }

  /** e is what c becomes: its own fields, and the least representation the policy allows. */
  predicate Represents(e: Entry, c: Classification, i: Input)
  {
    && EntryKey(e) == KeyOf(c) && e.result == c.result && e.aux == c.aux
    && (if c.result == WRAPPED then IsLeastEligible(e.rep, c.reps, i.wrapAllow, false)
        else if c.reps == [] then e.rep == 0
        else IsLeastEligible(e.rep, c.reps, i.repAllow, true))
  }

  /** Why c is not admitted: an unknown capability, its own classification, or the policy. */
  function WhyBlocked(c: Classification): u16
  {
    if !KnownCapability(c.cap) then UNKNOWN
    else if c.result == LOSSLESS || c.result == WRAPPED then POLICY_FORBIDDEN
    else c.result
  }

  /** The rows of s the policy does not admit, in order, each with its reason. */
  function Blockers(s: seq<Classification>, i: Input): seq<Blocking>
  {
    if s == [] then []
    else
      var c := s[|s| - 1];
      Blockers(s[..|s| - 1], i) + if Admissible(c, i) then [] else [Blocking(c.path, c.cap, WhyBlocked(c))]
  }

  lemma SortMembers<T>(s: seq<T>, cmp: Comparison<T>, x: T)
    ensures x in SortBy(s, cmp) <==> x in s
  {
    SortPermutes(s, cmp);
    assert x in SortBy(s, cmp) <==> x in multiset(SortBy(s, cmp));
    assert x in s <==> x in multiset(s);
  }

  lemma EligibleSorted(id: u16, allow: seq<u16>, emptyAllowAll: bool)
    ensures Eligible(id, SortBy(allow, CompareU16), emptyAllowAll) <==> Eligible(id, allow, emptyAllowAll)
  {
    SortMembers(allow, CompareU16, id);
  }

  /** pickRepresentation picks the least eligible identifier, and fails only for want of one. */
  lemma PickIsLeast(candidates: seq<u16>, allow: seq<u16>, emptyAllowAll: bool)
    ensures var p := Pick(candidates, SortBy(allow, CompareU16), emptyAllowAll);
            && (p.1 <==> HasEligible(candidates, allow, emptyAllowAll) || (emptyAllowAll && candidates == []))
            && (HasEligible(candidates, allow, emptyAllowAll) ==>
                IsLeastEligible(p.0, candidates, allow, emptyAllowAll))
            && (!HasEligible(candidates, allow, emptyAllowAll) ==> p.0 == 0)
  {
    hide Eligible, SortBy;
    var ids, sorted := SortBy(candidates, CompareU16), SortBy(allow, CompareU16);
    LeastIsLeast(ids, sorted, emptyAllowAll);
    forall id: u16
      ensures id in ids <==> id in candidates
    {
      SortMembers(candidates, CompareU16, id);
    }
    forall id: u16
      ensures Eligible(id, sorted, emptyAllowAll) <==> Eligible(id, allow, emptyAllowAll)
    {
      EligibleSorted(id, allow, emptyAllowAll);
    }
  }

  function RowOf(c: Classification, i: Input): Row
  {
    Resolve(c, SortBy(i.wrapAllow, CompareU16), SortBy(i.repAllow, CompareU16))
  }

  lemma RowMeaning(c: Classification, i: Input)
    ensures RowOf(c, i).Admitted? <==> Admissible(c, i)
    ensures RowOf(c, i).Admitted? ==> Represents(RowOf(c, i).entry, c, i)
    ensures RowOf(c, i).Blocked? ==> RowOf(c, i).result == WhyBlocked(c)
    ensures 1 <= c.result <= 5 ==> !RowOf(c, i).Unhandled?
  {
    hide Pick, HasEligible, IsLeastEligible;
    PickIsLeast(c.reps, i.repAllow, true);
    PickIsLeast(c.reps, i.wrapAllow, false);
    if c.reps == [] {
      NoneEligible(i.repAllow, true);
    }
  }

  lemma NoneEligible(allow: seq<u16>, emptyAllowAll: bool)
    ensures !HasEligible([], allow, emptyAllowAll)
  {
  }

  // ---------- the pass ----------

  predicate Clean(s: seq<Classification>, validPath: PathRule)
  {
    && (forall k | 0 <= k < |s| :: Validate(s[k], validPath).None?)
    && (forall k | 0 < k < |s| :: KeyOf(s[k - 1]) != KeyOf(s[k]))
  }

  predicate AllAdmissible(s: seq<Classification>, i: Input)
  {
    forall k | 0 <= k < |s| :: Admissible(s[k], i)
  }

  predicate RepresentAll(es: seq<Entry>, s: seq<Classification>, i: Input)
  {
    |es| == |s| && forall k | 0 <= k < |s| :: Represents(es[k], s[k], i)
  }

  function PassFor(s: seq<Classification>, i: Input, validPath: PathRule): Pass
  {
    Collect(s, SortBy(i.wrapAllow, CompareU16), SortBy(i.repAllow, CompareU16), validPath)
  }

  lemma CleanSnoc(s: seq<Classification>, c: Classification, validPath: PathRule)
    ensures Clean(s + [c], validPath)
      <==> Clean(s, validPath) && Validate(c, validPath).None? && (s != [] ==> KeyOf(s[|s| - 1]) != KeyOf(c))
  {
    hide Validate;
    var t := s + [c];
    if Clean(t, validPath) {
      forall k | 0 <= k < |s|
        ensures Validate(s[k], validPath).None?
      {
        assert t[k] == s[k];
      }
      forall k | 0 < k < |s|
        ensures KeyOf(s[k - 1]) != KeyOf(s[k])
      {
        assert t[k - 1] == s[k - 1] && t[k] == s[k];
      }
      assert t[|s|] == c && (s != [] ==> t[|s| - 1] == s[|s| - 1]);
    }
  }

  lemma AdmissibleSnoc(s: seq<Classification>, c: Classification, i: Input)
    ensures AllAdmissible(s + [c], i) <==> AllAdmissible(s, i) && Admissible(c, i)
  {
    hide Admissible;
    var t := s + [c];
    assert t[|s|] == c;
    assert forall k | 0 <= k < |s| :: t[k] == s[k];
  }

  /** The pass fails exactly on unclean input, and blocks exactly what the policy does not admit. */
  lemma {:induction false} PassMeaning(s: seq<Classification>, i: Input, validPath: PathRule)
    ensures var p := PassFor(s, i, validPath);
            && (p.Rows? <==> Clean(s, validPath))
            && (p.Rows? ==> p.blocking == Blockers(s, i) && (p.blocking == [] <==> AllAdmissible(s, i)))
            && (p.Rows? && p.blocking == [] ==> RepresentAll(p.entries, s, i))
  {
    hide Validate, Resolve, Admissible, WhyBlocked, Represents, Clean, AllAdmissible, CompareClassifications;
    if s == [] {
      NothingIsClean(i, validPath);
    } else {
      var n := |s| - 1;
      assert s == s[..n] + [s[n]];
      PassMeaning(s[..n], i, validPath);
      CleanSnoc(s[..n], s[n], validPath);
      AdmissibleSnoc(s[..n], s[n], i);
      RowMeaning(s[n], i);
      ValidResult(s[n], validPath);
      if n > 0 {
        assert s[..n][n - 1] == s[n - 1];
        SameKey(s[n - 1], s[n]);
      }
    }
  }

  lemma NothingIsClean(i: Input, validPath: PathRule)
    ensures Clean([], validPath) && AllAdmissible([], i)
  {
  }

  lemma ValidResult(c: Classification, validPath: PathRule)
    ensures Validate(c, validPath).None? ==> 1 <= c.result <= 5
  {
  }

  lemma SameKey(a: Classification, b: Classification)
    ensures CompareClassifications(a, b) == 0 <==> KeyOf(a) == KeyOf(b)
  {
    KeysEqual(KeyOf(a), KeyOf(b));
  }

  // ---------- distinct keys ----------

  predicate Distinct(ks: seq<Key>)
  {
    forall a, b | 0 <= a < b < |ks| :: ks[a] != ks[b]
  }

  function Keys(s: seq<Classification>): seq<Key>
  {
    Map(KeyOf, s)
  }

  lemma {:induction false} DistinctCounts(ks: seq<Key>, k: Key)
    requires Distinct(ks)
    ensures multiset(ks)[k] <= 1
  {
    if ks != [] {
      var n := |ks| - 1;
      assert ks == ks[..n] + [ks[n]];
      DistinctCounts(ks[..n], k);
      if ks[n] == k {
        assert k !in ks[..n];
        assert k !in multiset(ks[..n]);
      }
    }
  }

  lemma TwiceCounts(ks: seq<Key>, a: nat, b: nat)
    requires a < b < |ks| && ks[a] == ks[b]
    ensures multiset(ks)[ks[a]] >= 2
  {
    var k := ks[a];
    assert ks == ks[..b] + ([k] + ks[b + 1..]);
    assert multiset(ks) == multiset(ks[..b]) + multiset([k] + ks[b + 1..]);
    assert ks[..b][a] == k;
    assert k in multiset(ks[..b]) && k in multiset([k] + ks[b + 1..]);
  }

  lemma DistinctPermutes(ks: seq<Key>, ls: seq<Key>)
    requires multiset(ks) == multiset(ls) && Distinct(ks)
    ensures Distinct(ls)
  {
    if !Distinct(ls) {
      var a, b :| 0 <= a < b < |ls| && ls[a] == ls[b];
      TwiceCounts(ls, a, b);
      DistinctCounts(ks, ls[a]);
      assert false;
    }
  }

  lemma KeysSort(s: seq<Classification>)
    ensures Keys(SortBy(s, CompareClassifications)) == SortBy(Keys(s), CompareKeys)
    ensures multiset(Keys(SortBy(s, CompareClassifications))) == multiset(Keys(s))
  {
    hide CompareKeys;
    assert SeenThrough(KeyOf, CompareClassifications, CompareKeys);
    MapSort(KeyOf, s, CompareClassifications, CompareKeys);
    SortPermutes(Keys(s), CompareKeys);
  }

  /** In canonical order keys that differ from their neighbour increase throughout. */
  lemma NeighboursSuffice(s: seq<Classification>, a: nat, b: nat)
    requires Sorted(s, CompareClassifications) && a < b < |s|
    requires forall k | 0 < k < |s| :: KeyOf(s[k - 1]) != KeyOf(s[k])
    ensures CompareKeys(KeyOf(s[a]), KeyOf(s[b])) < 0
  {
    hide CompareKeys;
    var x, y, z := KeyOf(s[a]), KeyOf(s[a + 1]), KeyOf(s[b]);
    assert CompareClassifications(s[a], s[b]) <= 0 && CompareClassifications(s[a], s[a + 1]) <= 0;
    KeysEqual(x, z);
    if x == z {
      assert s[a + 1 - 1] == s[a];
      assert a + 1 == b || CompareClassifications(s[a + 1], s[b]) <= 0;
      KeysEqual(x, y);
      KeysFlip(x, y);
      KeysFlip(y, x);
      assert false;
    }
  }

  lemma NeighboursAreDistinct(s: seq<Classification>)
    requires Sorted(s, CompareClassifications)
    ensures (forall k | 0 < k < |s| :: KeyOf(s[k - 1]) != KeyOf(s[k])) <==> Distinct(Keys(s))
  {
    hide CompareKeys;
    if forall k | 0 < k < |s| :: KeyOf(s[k - 1]) != KeyOf(s[k]) {
      forall a, b | 0 <= a < b < |s|
        ensures Keys(s)[a] != Keys(s)[b]
      {
        NeighboursSuffice(s, a, b);
        KeysEqual(KeyOf(s[a]), KeyOf(s[b]));
      }
    } else {
      var k :| 0 < k < |s| && KeyOf(s[k - 1]) == KeyOf(s[k]);
      assert Keys(s)[k - 1] == Keys(s)[k];
    }
  }

  predicate AllValid(s: seq<Classification>, validPath: PathRule)
  {
    forall c | c in s :: Validate(c, validPath).None?
  }

  lemma CanonicalIsClean(i: Input, validPath: PathRule)
    ensures Clean(Canonical(i), validPath) <==> AllValid(i.rows, validPath) && Distinct(Keys(i.rows))
  {
    hide Validate, CompareClassifications, Distinct;
    var s := Canonical(i);
    ClassificationsOrdered();
    SortSorts(i.rows, CompareClassifications);
    NeighboursAreDistinct(s);
    KeysSort(i.rows);
    if Distinct(Keys(s)) { DistinctPermutes(Keys(s), Keys(i.rows)); }
    if Distinct(Keys(i.rows)) { DistinctPermutes(Keys(i.rows), Keys(s)); }
    forall c
      ensures c in s <==> c in i.rows
    {
      SortMembers(i.rows, CompareClassifications, c);
    }
    assert AllValid(s, validPath) <==> AllValid(i.rows, validPath);
    assert AllValid(s, validPath) <==> forall k | 0 <= k < |s| :: Validate(s[k], validPath).None?;
  }

  lemma CanonicalIsAdmissible(i: Input)
    ensures AllAdmissible(Canonical(i), i) <==> forall c | c in i.rows :: Admissible(c, i)
  {
    hide Admissible, CompareClassifications;
    var s := Canonical(i);
    forall c
      ensures c in s <==> c in i.rows
    {
      SortMembers(i.rows, CompareClassifications, c);
    }
    assert AllAdmissible(s, i) <==> forall c | c in s :: Admissible(c, i);
  }

  // ---------- when it builds, refuses or rejects ----------

  /** Counts within limits, every row valid, no (path, capability, action) twice. */
  predicate Acceptable(i: Input, validPath: PathRule)
  {
    WithinCounts(i) && AllValid(i.rows, validPath) && Distinct(Keys(i.rows))
  }

  predicate PolicyAdmits(i: Input)
  {
    forall c | c in i.rows :: Admissible(c, i)
  }

  lemma PassOverMeaning(i: Input, validPath: PathRule)
    ensures var p := PassOver(i, validPath);
            && (p.Rows? <==> AllValid(i.rows, validPath) && Distinct(Keys(i.rows)))
            && (p.Rows? ==> p.blocking == Blockers(Canonical(i), i) && (p.blocking == [] <==> PolicyAdmits(i)))
            && (p.Rows? && p.blocking == [] ==> RepresentAll(p.entries, Canonical(i), i))
  {
    hide Collect, Clean, AllAdmissible, Canonical, AllValid, Distinct, Admissible, RepresentAll, Blockers;
    PassMeaning(Canonical(i), i, validPath);
    CanonicalIsClean(i, validPath);
    CanonicalIsAdmissible(i);
  }

  /** A refusal exactly when a row is not admitted; its preflight lists exactly those rows, in canonical order. */
  lemma RefusedExactlyWhen(H: Hash, i: Input, validPath: PathRule)
    ensures Planned(H, i, validPath).Refused? <==> Acceptable(i, validPath) && !PolicyAdmits(i)
    ensures Planned(H, i, validPath).Refused? ==> Planned(H, i, validPath).blocking == Blockers(Canonical(i), i)
  {
    hide PassOver, Finish, Blockers, AllValid, Distinct, PolicyAdmits, RepresentAll, SortBy;
    PassOverMeaning(i, validPath);
    FinishNeverRefuses(H, i, SortBy(PassedEntries(i, validPath), CompareEntries));
  }

  function PassedEntries(i: Input, validPath: PathRule): seq<Entry>
  {
    var p := PassOver(i, validPath);
    if p.Rows? then p.entries else []
  }

  lemma FinishNeverRefuses(H: Hash, i: Input, es: seq<Entry>)
    ensures !Finish(H, i, es).Refused?
    ensures Finish(H, i, es).Built? <==> Encodes(es) && |DocumentOf(H, i.digests, es)| <= Resolved(i.limits).planBytes
  {
  }

  // ---------- what a plan holds ----------

  /** Strictly increasing canonical order. */
  predicate StrictlyOrdered(es: seq<Entry>)
  {
    forall a, b | 0 <= a < b < |es| :: CompareEntries(es[a], es[b]) < 0
  }

  lemma EntriesOrdered(i: Input, validPath: PathRule, es: seq<Entry>)
    requires Clean(Canonical(i), validPath) && RepresentAll(es, Canonical(i), i)
    ensures StrictlyOrdered(es) && SortBy(es, CompareEntries) == es
  {
    hide CompareKeys, Validate, SortBy;
    var s := Canonical(i);
    ClassificationsOrdered();
    SortSorts(i.rows, CompareClassifications);
    forall a, b | 0 <= a < b < |es|
      ensures CompareEntries(es[a], es[b]) < 0
    {
      NeighboursSuffice(s, a, b);
      assert Represents(es[a], s[a], i) && Represents(es[b], s[b], i);
    }
    SortOfSorted(es, CompareEntries);
  }

  /** The entries of a plan for i. */
  function PlanEntries(i: Input, validPath: PathRule): seq<Entry>
  {
    SortBy(PassedEntries(i, validPath), CompareEntries)
  }

  /** Admitted input: one entry per row, each its row's own, strictly in canonical order. */
  lemma EntriesAreSound(i: Input, validPath: PathRule)
    requires Acceptable(i, validPath) && PolicyAdmits(i)
    ensures RepresentAll(PlanEntries(i, validPath), Canonical(i), i)
    ensures multiset(Canonical(i)) == multiset(i.rows)
    ensures StrictlyOrdered(PlanEntries(i, validPath))
  {
    hide PassOver, Clean, AllValid, Distinct, PolicyAdmits, RepresentAll, SortBy, StrictlyOrdered;
    PassOverMeaning(i, validPath);
    CanonicalIsClean(i, validPath);
    EntriesOrdered(i, validPath, PassedEntries(i, validPath));
    SortPermutes(i.rows, CompareClassifications);
  }

  /** A plan is built exactly for admitted input whose document fits, and holds those entries. */
  lemma BuiltExactlyWhen(H: Hash, i: Input, validPath: PathRule)
    ensures var es, r := PlanEntries(i, validPath), Planned(H, i, validPath);
            && (r.Built? <==> Acceptable(i, validPath) && PolicyAdmits(i) && Encodes(es)
                              && |DocumentOf(H, i.digests, es)| <= Resolved(i.limits).planBytes)
            && (r.Built? ==> r.bytes == DocumentOf(H, i.digests, es) && r.digest == DigestOf(H, i.digests, es))
  {
    hide PassOver, Encodes, DocumentOf, DigestOf, AllValid, Distinct, PolicyAdmits, RepresentAll, SortBy;
    PassOverMeaning(i, validPath);
  }

  /** Equal plan bytes come from equal digests and equal entries. */
  lemma BuiltIsInjective(H: Hash, i: Input, j: Input, validPath: PathRule)
    requires Planned(H, i, validPath).Built? && Planned(H, j, validPath).Built?
    requires Planned(H, i, validPath).bytes == Planned(H, j, validPath).bytes
    ensures i.digests == j.digests && PlanEntries(i, validPath) == PlanEntries(j, validPath)
  {
    hide Planned, PlanEntries, PlanBytes, Acceptable, PolicyAdmits, AllFit;
    BuiltExactlyWhen(H, i, validPath);
    BuiltExactlyWhen(H, j, validPath);
    var ds, es := PlanEntries(i, validPath), PlanEntries(j, validPath);
    PlanInjective(H, i.digests, ds, H(EncodeEntries(Destructive(ds))), j.digests, es,
      H(EncodeEntries(Destructive(es))));
  }

  // ---------- order independence ----------

  /** c with its candidates in ascending order. */
  function Norm(c: Classification): Classification
  {
    Classification(c.path, c.cap, c.action, c.result, SortBy(c.reps, CompareU16), c.aux)
  }

  /** The same input acquired in another order: rows, candidates and allow-lists permuted. */
  predicate SameUpToOrder(i: Input, j: Input)
  {
    && i.digests == j.digests && i.limits == j.limits
    && multiset(Map(Norm, i.rows)) == multiset(Map(Norm, j.rows))
    && multiset(i.wrapAllow) == multiset(j.wrapAllow)
    && multiset(i.repAllow) == multiset(j.repAllow)
  }

  lemma U16Forgets(s: seq<u16>, t: seq<u16>)
    requires multiset(s) == multiset(t)
    ensures SortBy(s, CompareU16) == SortBy(t, CompareU16)
  {
    U16Ordered();
    SortForgetsOrder(s, t, CompareU16);
  }

  /** Norm is what permuting the candidates leaves. */
  lemma NormForgets(c: Classification, d: Classification)
    requires c.(reps := []) == d.(reps := []) && multiset(c.reps) == multiset(d.reps)
    ensures Norm(c) == Norm(d)
  {
    U16Forgets(c.reps, d.reps);
  }

  lemma SortTwice(s: seq<u16>)
    ensures SortBy(SortBy(s, CompareU16), CompareU16) == SortBy(s, CompareU16)
  {
    SortPermutes(s, CompareU16);
    U16Forgets(SortBy(s, CompareU16), s);
  }

  lemma NormUnseen(c: Classification, wrapAllow: seq<u16>, repAllow: seq<u16>, validPath: PathRule)
    ensures Validate(Norm(c), validPath) == Validate(c, validPath)
    ensures Resolve(Norm(c), wrapAllow, repAllow) == Resolve(c, wrapAllow, repAllow)
  {
    hide Least, SortBy;
    SortTwice(c.reps);
  }

  lemma {:induction false} CollectUnseen(s: seq<Classification>, wrapAllow: seq<u16>, repAllow: seq<u16>,
    validPath: PathRule)
    ensures Collect(Map(Norm, s), wrapAllow, repAllow, validPath) == Collect(s, wrapAllow, repAllow, validPath)
  {
    hide Validate, Resolve, CompareKeys, SortBy;
    if s != [] {
      var n := |s| - 1;
      CollectUnseen(s[..n], wrapAllow, repAllow, validPath);
      NormUnseen(s[n], wrapAllow, repAllow, validPath);
      assert Map(Norm, s)[..n] == Map(Norm, s[..n]);
      assert n > 0 ==> Map(Norm, s[..n])[n - 1] == Norm(s[n - 1]) && s[..n][n - 1] == s[n - 1];
    }
  }

  lemma NormDiscerned(s: seq<Classification>)
    requires Distinct(Keys(s))
    ensures Discerns(Map(Norm, s), CompareClassifications)
  {
    hide CompareKeys, SortBy;
    var t := Map(Norm, s);
    forall x, y | x in t && y in t && CompareClassifications(x, y) == 0
      ensures x == y
    {
      KeysEqual(KeyOf(x), KeyOf(y));
      var a :| 0 <= a < |t| && t[a] == x;
      var b :| 0 <= b < |t| && t[b] == y;
      assert Keys(s)[a] == KeyOf(x) && Keys(s)[b] == KeyOf(y);
      assert !(a < b) && !(b < a);
    }
  }

  lemma CanonicalForgets(i: Input, j: Input)
    requires SameUpToOrder(i, j) && Distinct(Keys(i.rows))
    ensures Map(Norm, Canonical(i)) == Map(Norm, Canonical(j))
  {
    hide CompareKeys, SortBy, Orders;
    assert SeenThrough(Norm, CompareClassifications, CompareClassifications);
    MapSort(Norm, i.rows, CompareClassifications, CompareClassifications);
    MapSort(Norm, j.rows, CompareClassifications, CompareClassifications);
    ClassificationsOrdered();
    NormDiscerned(i.rows);
    SortForgetsOrder(Map(Norm, i.rows), Map(Norm, j.rows), CompareClassifications);
  }

  lemma SameCount(i: Input, j: Input)
    requires SameUpToOrder(i, j)
    ensures |i.rows| == |j.rows|
  {
    SameLength(Map(Norm, i.rows), Map(Norm, j.rows));
  }

  /** With distinct keys the whole outcome is the same, errors and preflight included. */
  lemma DistinctForgetsOrder(H: Hash, i: Input, j: Input, validPath: PathRule)
    requires SameUpToOrder(i, j) && Distinct(Keys(i.rows))
    ensures Planned(H, i, validPath) == Planned(H, j, validPath)
  {
    hide Distinct, Collect, Finish, SortBy, Norm;
    SameCount(i, j);
    CanonicalForgets(i, j);
    U16Forgets(i.wrapAllow, j.wrapAllow);
    U16Forgets(i.repAllow, j.repAllow);
    var w, r := SortBy(i.wrapAllow, CompareU16), SortBy(i.repAllow, CompareU16);
    CollectUnseen(Canonical(i), w, r, validPath);
    CollectUnseen(Canonical(j), w, r, validPath);
    FinishForgets(H, i, j, PlanEntries(i, validPath));
  }

  lemma FinishForgets(H: Hash, i: Input, j: Input, es: seq<Entry>)
    requires i.digests == j.digests && i.limits == j.limits
    ensures Finish(H, i, es) == Finish(H, j, es)
  {
  }

  /** A key given twice is rejected, whatever else the input holds. */
  lemma DuplicatesAreRejected(H: Hash, i: Input, validPath: PathRule)
    requires !Distinct(Keys(i.rows))
    ensures Planned(H, i, validPath).Rejected?
  {
    hide PassOver, Finish, AllValid, Distinct, PolicyAdmits, RepresentAll;
    PassOverMeaning(i, validPath);
  }

  /** Acquisition order never changes a plan or a preflight, nor turns a rejection into either. */
  lemma OrderIsInvisible(H: Hash, i: Input, j: Input, validPath: PathRule)
    requires SameUpToOrder(i, j)
    ensures Planned(H, i, validPath) == Planned(H, j, validPath)
      || (Planned(H, i, validPath).Rejected? && Planned(H, j, validPath).Rejected?)
  {
    hide Planned, Distinct, SameUpToOrder;
    if Distinct(Keys(i.rows)) {
      DistinctForgetsOrder(H, i, j, validPath);
    } else if Distinct(Keys(j.rows)) {
      OrderIsSymmetric(i, j);
      DistinctForgetsOrder(H, j, i, validPath);
    } else {
      DuplicatesAreRejected(H, i, validPath);
      DuplicatesAreRejected(H, j, validPath);
    }
  }

  lemma OrderIsSymmetric(i: Input, j: Input)
    requires SameUpToOrder(i, j)
    ensures SameUpToOrder(j, i)
  {
  }
}
