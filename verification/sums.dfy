/** Sums over a sequence: they split where it splits, and its order cannot be seen in them. */
module Sums {
  import opened Orders

  function Sum<T>(f: T -> int, xs: seq<T>): int {
    if xs == [] then 0 else f(xs[0]) + Sum(f, xs[1..])
  }

  lemma {:induction false} SumConcat<T>(f: T -> int, a: seq<T>, b: seq<T>)
    ensures Sum(f, a + b) == Sum(f, a) + Sum(f, b)
  {
    if a == [] {
      assert a + b == b;
    } else {
      assert (a + b)[1..] == a[1..] + b;
      SumConcat(f, a[1..], b);
    }
  }

  lemma {:induction false} SumOfSome<T>(f: T -> int, xs: seq<T>)
    requires forall x | x in xs :: f(x) >= 0
    ensures Sum(f, xs) >= 0
  {
    if xs != [] { SumOfSome(f, xs[1..]); }
  }

  lemma SumWithout<T>(f: T -> int, b: seq<T>, k: nat)
    requires k < |b|
    ensures Sum(f, b) == f(b[k]) + Sum(f, b[..k] + b[k + 1..])
  {
    assert b == b[..k] + b[k..];
    assert b[k..][1..] == b[k + 1..];
    SumConcat(f, b[..k], b[k..]);
    SumConcat(f, b[..k], b[k + 1..]);
  }

  lemma MultisetAround<T>(b: seq<T>, k: nat)
    requires k < |b|
    ensures multiset(b) == multiset(b[..k]) + multiset{b[k]} + multiset(b[k + 1..])
  {
    assert b == b[..k] + [b[k]] + b[k + 1..];
  }

  lemma MultisetLess<T>(x: T, p: multiset<T>, q: multiset<T>, r: multiset<T>)
    requires multiset{x} + p == q + multiset{x} + r
    ensures p == q + r
  {
    assert p == (multiset{x} + p) - multiset{x};
    assert q + r == (q + multiset{x} + r) - multiset{x};
  }

  lemma MultisetWithout<T>(a: seq<T>, b: seq<T>, k: nat)
    requires multiset(a) == multiset(b) && a != [] && k < |b| && b[k] == a[0]
    ensures multiset(a[1..]) == multiset(b[..k] + b[k + 1..])
  {
    MultisetAround(a, 0);
    MultisetAround(b, k);
    assert a[..0] == [] && multiset(a[..0]) == multiset{};
    MultisetLess(a[0], multiset(a[1..]), multiset(b[..k]), multiset(b[k + 1..]));
  }

  /** A rearrangement has the same sum. */
  lemma {:induction false} SumByMultiset<T>(f: T -> int, a: seq<T>, b: seq<T>)
    requires multiset(a) == multiset(b)
    ensures Sum(f, a) == Sum(f, b)
    decreases |a|
  {
    MembersByMultiset(a, b);
    if a == [] {
      assert |b| == |multiset(b)| == 0;
    } else {
      assert a[0] in b;
      var k :| 0 <= k < |b| && b[k] == a[0];
      MultisetWithout(a, b, k);
      SumByMultiset(f, a[1..], b[..k] + b[k + 1..]);
      SumWithout(f, b, k);
    }
  }
}
