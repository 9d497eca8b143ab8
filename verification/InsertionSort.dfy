/**
 The planner's insertion sort (internal/plan/sort.go). `SortBy` is the meaning of the
 in-place loops; it yields the one sorted arrangement of its input, whatever order the
 input came in, as soon as elements that compare equal are equal.
 */
module InsertionSort {

  type Comparison<!T> = (T, T) -> int

  /** cmp orders T: comparing the other way flips the sign, and at-most is transitive. */
  ghost predicate Orders<T(!new)>(cmp: Comparison<T>)
  {
    && (forall a, b :: cmp(a, b) > 0 <==> cmp(b, a) < 0)
    && (forall a, b, c :: cmp(a, b) <= 0 && cmp(b, c) <= 0 ==> cmp(a, c) <= 0)
  }

  /** x goes after everything that is not greater. */
  function Insert<T>(s: seq<T>, x: T, cmp: Comparison<T>): (r: seq<T>)
    ensures |r| == |s| + 1
  {
    if s == [] || cmp(s[|s| - 1], x) <= 0 then s + [x]
    else Insert(s[..|s| - 1], x, cmp) + [s[|s| - 1]]
  }

  function SortBy<T>(s: seq<T>, cmp: Comparison<T>): (r: seq<T>)
    ensures |r| == |s|
  {
    if s == [] then [] else Insert(SortBy(s[..|s| - 1], cmp), s[|s| - 1], cmp)
  }

  predicate Sorted<T>(s: seq<T>, cmp: Comparison<T>)
  {
    forall i, j | 0 <= i < j < |s| :: cmp(s[i], s[j]) <= 0
  }

  lemma {:induction false} InsertKeeps<T>(s: seq<T>, x: T, cmp: Comparison<T>)
    ensures multiset(Insert(s, x, cmp)) == multiset(s) + multiset{x}
  {
    if s != [] && cmp(s[|s| - 1], x) > 0 {
      InsertKeeps(s[..|s| - 1], x, cmp);
      assert s == s[..|s| - 1] + [s[|s| - 1]];
    }
  }

  /** Sorting permutes. */
  lemma {:induction false} SortPermutes<T>(s: seq<T>, cmp: Comparison<T>)
    ensures multiset(SortBy(s, cmp)) == multiset(s)
  {
    if s != [] {
      var n := |s| - 1;
      SortPermutes(s[..n], cmp);
      InsertKeeps(SortBy(s[..n], cmp), s[n], cmp);
      assert s == s[..n] + [s[n]];
    }
  }

  lemma Flip<T(!new)>(cmp: Comparison<T>, a: T, b: T)
    requires Orders(cmp)
    ensures cmp(a, b) > 0 <==> cmp(b, a) < 0
  {
  }

  lemma Chain<T(!new)>(cmp: Comparison<T>, a: T, b: T, c: T)
    requires Orders(cmp) && cmp(a, b) <= 0 && cmp(b, c) <= 0
    ensures cmp(a, c) <= 0
  {
  }

  /** Nothing in s is greater than y. */
  predicate Below<T>(s: seq<T>, y: T, cmp: Comparison<T>)
  {
    forall i | 0 <= i < |s| :: cmp(s[i], y) <= 0
  }

  lemma SortedSnoc<T>(s: seq<T>, y: T, cmp: Comparison<T>)
    ensures Sorted(s + [y], cmp) <==> Sorted(s, cmp) && Below(s, y, cmp)
  {
    var r := s + [y];
    if Sorted(r, cmp) {
      forall i, j | 0 <= i < j < |s|
        ensures cmp(s[i], s[j]) <= 0
      {
        assert r[i] == s[i] && r[j] == s[j];
      }
      forall i | 0 <= i < |s|
        ensures cmp(s[i], y) <= 0
      {
        assert r[i] == s[i] && r[|s|] == y;
      }
    }
  }

  lemma {:induction false} InsertBelow<T>(s: seq<T>, x: T, y: T, cmp: Comparison<T>)
    requires Below(s, y, cmp) && cmp(x, y) <= 0
    ensures Below(Insert(s, x, cmp), y, cmp)
  {
    if s != [] && cmp(s[|s| - 1], x) > 0 {
      InsertBelow(s[..|s| - 1], x, y, cmp);
    }
  }

  lemma {:induction false} InsertSorts<T(!new)>(s: seq<T>, x: T, cmp: Comparison<T>)
    requires Orders(cmp) && Sorted(s, cmp)
    ensures Sorted(Insert(s, x, cmp), cmp)
  {
    hide Orders, Sorted;
    if s == [] {
      SortedSnoc(s, x, cmp);
    } else {
      var n := |s| - 1;
      var y := s[n];
      assert s == s[..n] + [y];
      SortedSnoc(s[..n], y, cmp);
      if cmp(y, x) <= 0 {
        forall i | 0 <= i < |s|
          ensures cmp(s[i], x) <= 0
        {
          if i < n {
            assert s[..n][i] == s[i];
            Chain(cmp, s[i], y, x);
          }
        }
        SortedSnoc(s, x, cmp);
      } else {
        Flip(cmp, y, x);
        InsertSorts(s[..n], x, cmp);
        InsertBelow(s[..n], x, y, cmp);
        SortedSnoc(Insert(s[..n], x, cmp), y, cmp);
      }
    }
  }

  /** Sorting sorts. */
  lemma {:induction false} SortSorts<T(!new)>(s: seq<T>, cmp: Comparison<T>)
    requires Orders(cmp)
    ensures Sorted(SortBy(s, cmp), cmp)
  {
    if s != [] {
      SortSorts(s[..|s| - 1], cmp);
      InsertSorts(SortBy(s[..|s| - 1], cmp), s[|s| - 1], cmp);
    }
  }

  /** Elements of s that compare equal are equal. */
  predicate Discerns<T(==)>(s: seq<T>, cmp: Comparison<T>)
  {
    forall a, b | a in s && b in s && cmp(a, b) == 0 :: a == b
  }

  /** There is one sorted arrangement. */
  lemma {:induction false} SortedUnique<T(!new)>(r: seq<T>, s: seq<T>, cmp: Comparison<T>)
    requires Orders(cmp) && Sorted(r, cmp) && Sorted(s, cmp)
    requires multiset(r) == multiset(s) && Discerns(r, cmp)
    ensures r == s
    decreases |r|
  {
    hide Orders, Sorted, Discerns;
    SameLength(r, s);
    if r != [] {
      var n := |r| - 1;
      SameLast(r, s, cmp);
      SameRest(r, s);
      assert r == r[..n] + [r[n]] && s == s[..n] + [s[n]];
      SortedSnoc(r[..n], r[n], cmp);
      SortedSnoc(s[..n], s[n], cmp);
      DiscernsPrefix(r, n, cmp);
      SortedUnique(r[..n], s[..n], cmp);
    }
  }

  lemma SameLength<T>(r: seq<T>, s: seq<T>)
    requires multiset(r) == multiset(s)
    ensures |r| == |s|
  {
    assert |multiset(r)| == |r| && |multiset(s)| == |s|;
  }

  lemma SameRest<T>(r: seq<T>, s: seq<T>)
    requires multiset(r) == multiset(s) && |r| == |s| > 0 && r[|r| - 1] == s[|s| - 1]
    ensures multiset(r[..|r| - 1]) == multiset(s[..|s| - 1])
  {
    var n := |r| - 1;
    assert r == r[..n] + [r[n]];
    assert s == s[..n] + [s[n]];
    assert multiset(r[..n]) == multiset(r) - multiset{r[n]};
    assert multiset(s[..n]) == multiset(s) - multiset{s[n]};
  }

  lemma DiscernsPrefix<T>(s: seq<T>, n: nat, cmp: Comparison<T>)
    requires Discerns(s, cmp) && n <= |s|
    ensures Discerns(s[..n], cmp)
  {
    assert forall a | a in s[..n] :: a in s;
  }

  lemma SameLast<T(!new)>(r: seq<T>, s: seq<T>, cmp: Comparison<T>)
    requires Orders(cmp) && Sorted(r, cmp) && Sorted(s, cmp)
    requires multiset(r) == multiset(s) && Discerns(r, cmp) && r != [] && |r| == |s|
    ensures r[|r| - 1] == s[|s| - 1]
  {
    hide Orders;
    var n := |r| - 1;
    var x, y := r[n], s[n];
    assert x in multiset(s) && y in multiset(r);
    assert x in s && y in r;
    var i :| 0 <= i < |s| && s[i] == x;
    var j :| 0 <= j < |r| && r[j] == y;
    assert i == n || cmp(s[i], s[n]) <= 0;
    assert j == n || cmp(r[j], r[n]) <= 0;
    if i != n && j != n {
      Flip(cmp, x, y);
      Flip(cmp, y, x);
      assert cmp(x, y) == 0;
    }
  }

  /** Order independence: permutations of what cmp discerns sort alike. */
  lemma SortForgetsOrder<T(!new)>(s: seq<T>, t: seq<T>, cmp: Comparison<T>)
    requires Orders(cmp) && multiset(s) == multiset(t) && Discerns(s, cmp)
    ensures SortBy(s, cmp) == SortBy(t, cmp)
  {
    SortPermutes(s, cmp);
    SortPermutes(t, cmp);
    SortSorts(s, cmp);
    SortSorts(t, cmp);
    var r := SortBy(s, cmp);
    forall a, b | a in r && b in r && cmp(a, b) == 0
      ensures a == b
    {
      assert a in multiset(r) && b in multiset(r);
      assert a in s && b in s;
    }
    SortedUnique(r, SortBy(t, cmp), cmp);
  }

  /** Sorting what is sorted changes nothing. */
  lemma {:induction false} SortOfSorted<T>(s: seq<T>, cmp: Comparison<T>)
    requires Sorted(s, cmp)
    ensures SortBy(s, cmp) == s
  {
    if s != [] {
      var n := |s| - 1;
      SortOfSorted(s[..n], cmp);
      assert s == s[..n] + [s[n]];
      assert n > 0 ==> cmp(s[n - 1], s[n]) <= 0;
    }
  }

  // ---------- sorting and renaming ----------

  function Map<S, T>(f: S -> T, s: seq<S>): (r: seq<T>)
    ensures |r| == |s| && forall i | 0 <= i < |s| :: r[i] == f(s[i])
  {
    seq(|s|, i requires 0 <= i < |s| => f(s[i]))
  }

  /** The order sees only what f shows. */
  ghost predicate SeenThrough<S(!new), T>(f: S -> T, cs: Comparison<S>, ct: Comparison<T>)
  {
    forall a, b :: cs(a, b) == ct(f(a), f(b))
  }

  lemma {:induction false} MapInsert<S(!new), T>(f: S -> T, s: seq<S>, x: S, cs: Comparison<S>, ct: Comparison<T>)
    requires SeenThrough(f, cs, ct)
    ensures Map(f, Insert(s, x, cs)) == Insert(Map(f, s), f(x), ct)
  {
    if s != [] && cs(s[|s| - 1], x) > 0 {
      MapInsert(f, s[..|s| - 1], x, cs, ct);
      assert Map(f, s)[..|s| - 1] == Map(f, s[..|s| - 1]);
    }
  }

  /** Sorting commutes with looking through f. */
  lemma {:induction false} MapSort<S(!new), T>(f: S -> T, s: seq<S>, cs: Comparison<S>, ct: Comparison<T>)
    requires SeenThrough(f, cs, ct)
    ensures Map(f, SortBy(s, cs)) == SortBy(Map(f, s), ct)
  {
    hide SeenThrough;
    if s != [] {
      var n := |s| - 1;
      MapSort(f, s[..n], cs, ct);
      MapInsert(f, SortBy(s[..n], cs), s[n], cs, ct);
      assert Map(f, s)[..n] == Map(f, s[..n]);
    }
  }

  // ---------- in place ----------

  /** Where x belongs in s. */
  lemma {:induction false} InsertAt<T>(s: seq<T>, x: T, cmp: Comparison<T>, j: nat)
    requires j <= |s|
    requires forall k | j <= k < |s| :: cmp(s[k], x) > 0
    requires j == 0 || cmp(s[j - 1], x) <= 0
    ensures Insert(s, x, cmp) == s[..j] + [x] + s[j..]
    decreases |s| - j
  {
    if j == |s| {
      assert s[..j] == s;
    } else {
      var n := |s| - 1;
      InsertAt(s[..n], x, cmp, j);
      assert s[..n][..j] == s[..j] && s[..n][j..] + [s[n]] == s[j..];
    }
  }

  /** The inner loop: sink a[i] into the sorted part before it by swapping. */
  method Sink<T>(a: array<T>, i: nat, cmp: Comparison<T>)
    requires i < a.Length
    modifies a
    ensures a[..] == Insert(old(a[..i]), old(a[i]), cmp) + old(a[i + 1..])
  {
    hide Placed;
    ghost var s, x, rest := a[..i], a[i], a[i + 1..];
    var j := i;
    PlacedEnd(s, x, rest);
    assert a[..] == a[..i] + [a[i]] + a[i + 1..];
    while j > 0 && cmp(a[j - 1], a[j]) > 0
      invariant 0 <= j <= i
      invariant a[..] == Placed(s, x, rest, j)
      invariant forall k | j <= k < i :: cmp(s[k], x) > 0
    {
      ghost var before := a[..];
      PlacedAt(s, x, rest, j);
      assert a[j - 1] == before[j - 1] == s[j - 1] && a[j] == before[j] == x;
      a[j - 1], a[j] := a[j], a[j - 1];
      assert a[..] == before[j - 1 := x][j := s[j - 1]];
      j := j - 1;
    }
    PlacedAt(s, x, rest, j);
    assert a[j] == a[..][j] == x && (j > 0 ==> a[j - 1] == a[..][j - 1] == s[j - 1]);
    InsertAt(s, x, cmp, j);
    PlacedMeaning(s, x, rest, j);
  }

  /** s with x at position j, then rest. */
  ghost function Placed<T>(s: seq<T>, x: T, rest: seq<T>, j: nat): (r: seq<T>)
    requires j <= |s|
    ensures |r| == |s| + 1 + |rest|
  {
    s[..j] + [x] + s[j..] + rest
  }

  lemma PlacedMeaning<T>(s: seq<T>, x: T, rest: seq<T>, j: nat)
    requires j <= |s|
    ensures Placed(s, x, rest, j) == s[..j] + [x] + s[j..] + rest
  {
  }

  lemma PlacedEnd<T>(s: seq<T>, x: T, rest: seq<T>)
    ensures Placed(s, x, rest, |s|) == s + [x] + rest
  {
    assert s[..|s|] == s && s[|s|..] == [];
  }

  lemma PlacedAt<T>(s: seq<T>, x: T, rest: seq<T>, j: nat)
    requires j <= |s|
    ensures Placed(s, x, rest, j)[j] == x
    ensures j > 0 ==> Placed(s, x, rest, j)[j - 1] == s[j - 1]
    ensures j > 0 ==> Placed(s, x, rest, j)[j - 1 := x][j := s[j - 1]] == Placed(s, x, rest, j - 1)
  {
    if j > 0 {
      var after := Placed(s, x, rest, j)[j - 1 := x][j := s[j - 1]];
      var goal := Placed(s, x, rest, j - 1);
      forall k | 0 <= k < |after|
        ensures after[k] == goal[k]
      {
      }
    }
  }

  /** The planner's sorts: copy, then insertion sort in place. */
  method Sort<T(0)>(input: seq<T>, cmp: Comparison<T>) returns (r: seq<T>)
    ensures r == SortBy(input, cmp)
  {
    var n := |input|;
    if n == 0 { return []; }
    var a := new T[n](i requires 0 <= i < n => input[i]);
    assert a[..] == input;
    assert input[..1] == [input[0]];
    OneIsSorted(input, cmp);
    var i := 1;
    while i < n
      invariant 1 <= i <= n
      invariant a[..i] == SortBy(input[..i], cmp) && a[i..] == input[i..]
    {
      ghost var done := a[..i];
      assert a[i] == a[i..][0] == input[i];
      assert a[i + 1..] == a[i..][1..] == input[i + 1..];
      Sink(a, i, cmp);
      assert input[..i + 1][..i] == input[..i];
      assert a[..i + 1] == Insert(done, input[i], cmp);
      assert a[i + 1..] == input[i + 1..];
      i := i + 1;
    }
    assert input[..n] == input && a[..n] == a[..];
    return a[..];
  }

  lemma OneIsSorted<T>(s: seq<T>, cmp: Comparison<T>)
    requires s != []
    ensures SortBy(s[..1], cmp) == s[..1]
  {
    assert SortBy(s[..1][..0], cmp) == [];
    assert s[..1] == [s[0]];
  }
}
