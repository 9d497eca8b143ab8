/** Bytewise lexicographic order, as Go compares strings and byte slices. */
module Lex {
  import opened Bytes

  function Compare(a: Bytes, b: Bytes): (c: int)
    ensures -1 <= c <= 1
  {
    if a == [] && b == [] then 0
    else if a == [] then -1
    else if b == [] then 1
    else if a[0] < b[0] then -1
    else if a[0] > b[0] then 1
    else Compare(a[1..], b[1..])
  }

  predicate Less(a: Bytes, b: Bytes)
  {
    Compare(a, b) < 0
  }

  lemma {:induction false} CompareEqual(a: Bytes, b: Bytes)
    ensures Compare(a, b) == 0 <==> a == b
  {
    if a != [] && b != [] && a[0] == b[0] {
      CompareEqual(a[1..], b[1..]);
      assert a == [a[0]] + a[1..] && b == [b[0]] + b[1..];
    }
  }

  lemma {:induction false} CompareFlip(a: Bytes, b: Bytes)
    ensures Compare(b, a) == -Compare(a, b)
  {
    if a != [] && b != [] && a[0] == b[0] {
      CompareFlip(a[1..], b[1..]);
    }
  }

  lemma {:induction false} LessTransitive(a: Bytes, b: Bytes, c: Bytes)
    requires Less(a, b) && Less(b, c)
    ensures Less(a, c)
  {
    if a != [] && b != [] && c != [] && a[0] == b[0] == c[0] {
      LessTransitive(a[1..], b[1..], c[1..]);
    }
  }

  lemma LessIrreflexive(a: Bytes)
    ensures !Less(a, a)
  {
    CompareEqual(a, a);
  }

  /** Of two different strings exactly one comes first. */
  lemma LessTotal(a: Bytes, b: Bytes)
    requires a != b
    ensures Less(a, b) <==> !Less(b, a)
  {
    CompareEqual(a, b);
    CompareFlip(a, b);
  }

  /** A proper prefix comes before what it is a prefix of. */
  lemma {:induction false} PrefixLess(b: Bytes, n: nat)
    requires n < |b|
    ensures Less(b[..n], b)
    decreases n
  {
    if n > 0 {
      PrefixLess(b[1..], n - 1);
      assert b[..n][1..] == b[1..][..n - 1];
    }
  }
}
