/**
 * Orders on a set of elements, and the sort that JavaScript promises for them.
 *
 * `Array.prototype.sort` is specified by its outcome: a stable permutation in
 * which no element stands behind one it should precede.  `Sort` is one function
 * with that outcome; `SortedIsUnique` shows that under a strict total order
 * there is no other.
 */
module Orders {

  /** A comparator that can sort at all: asymmetric, and "not before" composes. */
  ghost predicate WeakOn<T(!new)>(before: (T, T) -> bool, s: set<T>) {
    && (forall x, y | x in s && y in s && before(x, y) :: !before(y, x))
    && (forall x, y, z | x in s && y in s && z in s && !before(y, x) && !before(z, y) :: !before(z, x))
  }

  /** A comparator that leaves no tie between different elements. */
  ghost predicate TotalOn<T(!new)>(before: (T, T) -> bool, s: set<T>) {
    && (forall x | x in s :: !before(x, x))
    && (forall x, y | x in s && y in s && x != y :: before(x, y) || before(y, x))
    && (forall x, y, z | x in s && y in s && z in s && before(x, y) && before(y, z) :: before(x, z))
  }

  /** The same over the whole type: what a locale's collation is taken to be on names. */
  ghost predicate Total<T(!new)>(before: (T, T) -> bool) {
    && (forall x :: !before(x, x))
    && (forall x, y | x != y :: before(x, y) || before(y, x))
    && (forall x, y, z | before(x, y) && before(y, z) :: before(x, z))
  }

  lemma TotalEverywhere<T(!new)>(before: (T, T) -> bool, s: set<T>)
    requires Total(before)
    ensures TotalOn(before, s)
  {}

  function Elements<T>(xs: seq<T>): (r: set<T>)
    ensures forall i | 0 <= i < |xs| :: xs[i] in r
    ensures xs == [] <==> r == {}
  {
    assert xs != [] ==> xs[0] in xs;
    set x | x in xs
  }

  /** No element stands behind one it should precede. */
  ghost predicate InOrder<T>(before: (T, T) -> bool, xs: seq<T>) {
    forall i, j | 0 <= i < j < |xs| :: !before(xs[j], xs[i])
  }

  /** Every element precedes everything behind it. */
  ghost predicate Sorted<T>(before: (T, T) -> bool, xs: seq<T>) {
    forall i, j | 0 <= i < j < |xs| :: before(xs[i], xs[j])
  }

  ghost predicate Distinct<T>(xs: seq<T>) {
    forall i, j | 0 <= i < j < |xs| :: xs[i] != xs[j]
  }

  lemma TotalIsWeak<T(!new)>(before: (T, T) -> bool, s: set<T>)
    requires TotalOn(before, s)
    ensures WeakOn(before, s)
  {
    forall x, y, z | x in s && y in s && z in s && !before(y, x) && !before(z, y)
      ensures !before(z, x)
    {
      assert x == y || before(x, y);
      assert y == z || before(y, z);
      assert x == z || before(x, z);
      assert before(x, z) && before(z, x) ==> before(x, x);
    }
  }

  // ------------------------------------------------------------------ the sort

  /** Places `x` behind every element of `ys` it need not precede. */
  function Insert<T>(before: (T, T) -> bool, ys: seq<T>, x: T): (r: seq<T>)
    ensures multiset(r) == multiset(ys) + multiset{x}
    ensures |r| == |ys| + 1
  {
    if ys == [] then [x]
    else if !before(x, ys[|ys| - 1]) then ys + [x]
    else
      assert ys == ys[..|ys| - 1] + [ys[|ys| - 1]];
      Insert(before, ys[..|ys| - 1], x) + [ys[|ys| - 1]]
  }

  /** A stable sort: equal elements keep the order they came in. */
  function Sort<T>(before: (T, T) -> bool, xs: seq<T>): (r: seq<T>)
    ensures multiset(r) == multiset(xs)
    ensures |r| == |xs|
  {
    if xs == [] then []
    else
      assert xs == xs[..|xs| - 1] + [xs[|xs| - 1]];
      Insert(before, Sort(before, xs[..|xs| - 1]), xs[|xs| - 1])
  }

  lemma MembersByMultiset<T>(xs: seq<T>, ys: seq<T>)
    requires multiset(xs) == multiset(ys)
    ensures Elements(xs) == Elements(ys)
    ensures forall x :: x in xs <==> x in ys
  {
    forall x ensures x in xs <==> x in ys {
      assert x in multiset(xs) <==> x in multiset(ys);
    }
  }

  lemma DistinctByMultiset<T>(xs: seq<T>, ys: seq<T>)
    requires multiset(xs) == multiset(ys) && Distinct(xs)
    ensures Distinct(ys)
  {
    forall i, j | 0 <= i < j < |ys| ensures ys[i] != ys[j] {
      if ys[i] == ys[j] {
        assert ys == ys[..i] + [ys[i]] + ys[i + 1..j] + [ys[j]] + ys[j + 1..];
        assert multiset(ys)[ys[i]] >= 2;
        DistinctCount(xs, ys[i]);
      }
    }
  }

  lemma {:induction false} DistinctCount<T>(xs: seq<T>, x: T)
    requires Distinct(xs)
    ensures multiset(xs)[x] == if x in xs then 1 else 0
  {
    if xs != [] {
      var front, last := xs[..|xs| - 1], xs[|xs| - 1];
      assert xs == front + [last];
      DistinctCount(front, x);
    }
  }

  lemma {:induction false} InsertInOrder<T(!new)>(before: (T, T) -> bool, ys: seq<T>, x: T)
    requires WeakOn(before, Elements(ys) + {x}) && InOrder(before, ys)
    ensures InOrder(before, Insert(before, ys, x))
  {
    if ys != [] {
      var front, last := ys[..|ys| - 1], ys[|ys| - 1];
      FrontInOrder(before, ys, x);
      if before(x, last) {
        var r := Insert(before, front, x);
        assert Insert(before, ys, x) == r + [last];
        hide *;
        InsertInOrder(before, front, x);
        InsertedMembers(before, front, x);
        AppendInOrder(before, r, last);
      } else {
        assert Insert(before, ys, x) == ys + [x];
        hide *;
        AppendInOrder(before, ys, x);
      }
    }
  }

  lemma InsertedMembers<T>(before: (T, T) -> bool, ys: seq<T>, x: T)
    ensures forall y | y in Insert(before, ys, x) :: y in ys || y == x
  {
    MembersByMultiset(Insert(before, ys, x), ys + [x]);
  }

  /** What an order says of a last element, and of one that may go behind it. */
  lemma FrontInOrder<T(!new)>(before: (T, T) -> bool, ys: seq<T>, x: T)
    requires ys != [] && WeakOn(before, Elements(ys) + {x}) && InOrder(before, ys)
    ensures var front, last := ys[..|ys| - 1], ys[|ys| - 1];
            && WeakOn(before, Elements(front) + {x}) && InOrder(before, front)
            && (forall y | y in front :: !before(last, y))
            && (before(x, last) ==> !before(last, x))
            && (!before(x, last) ==> forall y | y in ys :: !before(x, y))
  {
    var front, last := ys[..|ys| - 1], ys[|ys| - 1];
    assert ys == front + [last];
    assert Elements(front) <= Elements(ys) && last in Elements(ys);
    forall y | y in front ensures !before(last, y) && y in Elements(ys) {
      var i :| 0 <= i < |front| && front[i] == y;
      assert ys[i] == y;
    }
  }

  /** An element that precedes none of them may stand behind them. */
  lemma AppendInOrder<T>(before: (T, T) -> bool, ys: seq<T>, x: T)
    requires InOrder(before, ys) && forall y | y in ys :: !before(x, y)
    ensures InOrder(before, ys + [x])
  {
  }

  lemma {:induction false} SortInOrder<T(!new)>(before: (T, T) -> bool, xs: seq<T>)
    requires WeakOn(before, Elements(xs))
    ensures InOrder(before, Sort(before, xs))
    ensures Elements(Sort(before, xs)) == Elements(xs)
  {
    MembersByMultiset(Sort(before, xs), xs);
    if xs != [] {
      var front, last := xs[..|xs| - 1], xs[|xs| - 1];
      assert Elements(front) <= Elements(xs) && last in Elements(xs);
      SortInOrder(before, front);
      assert Elements(Sort(before, front)) + {last} <= Elements(xs);
      InsertInOrder(before, Sort(before, front), last);
    }
  }

  /** Distinct elements under a strict total order come out strictly sorted. */
  lemma SortSorted<T(!new)>(before: (T, T) -> bool, xs: seq<T>)
    requires TotalOn(before, Elements(xs)) && Distinct(xs)
    ensures Sorted(before, Sort(before, xs))
    ensures Elements(Sort(before, xs)) == Elements(xs)
  {
    TotalIsWeak(before, Elements(xs));
    SortInOrder(before, xs);
    var r := Sort(before, xs);
    DistinctByMultiset(xs, r);
    forall i, j | 0 <= i < j < |r| ensures before(r[i], r[j]) {
      assert r[i] in Elements(r) && r[j] in Elements(r);
    }
  }

  // ------------------------------------------------------------------ uniqueness

  /** Two strictly sorted lists of the same elements are the same list. */
  lemma {:induction false} SortedIsUnique<T(!new)>(before: (T, T) -> bool, xs: seq<T>, ys: seq<T>)
    requires TotalOn(before, Elements(xs))
    requires Sorted(before, xs) && Sorted(before, ys)
    requires Elements(xs) == Elements(ys)
    ensures xs == ys
  {
    hide TotalOn, Sorted;
    if xs != [] {
      HeadsAgree(before, xs, ys);
      IrreflexiveOn(before, Elements(xs), xs[0]);
      TailElements(before, xs);
      TailElements(before, ys);
      TotalOnSubset(before, Elements(xs), Elements(xs[1..]));
      SortedIsUnique(before, xs[1..], ys[1..]);
      assert xs == [xs[0]] + xs[1..] && ys == [ys[0]] + ys[1..];
    }
  }

  lemma IrreflexiveOn<T(!new)>(before: (T, T) -> bool, s: set<T>, x: T)
    requires TotalOn(before, s) && x in s
    ensures !before(x, x)
  {}

  lemma HeadsAgree<T(!new)>(before: (T, T) -> bool, xs: seq<T>, ys: seq<T>)
    requires TotalOn(before, Elements(xs))
    requires Sorted(before, xs) && Sorted(before, ys)
    requires Elements(xs) == Elements(ys) && xs != [] && ys != []
    ensures xs[0] == ys[0]
  {
    var x, y := xs[0], ys[0];
    assert x in Elements(xs) && y in Elements(xs);
    assert x in ys && y in xs;
    assert x == y || before(x, y);
    assert x == y || before(y, x);
    assert before(x, y) && before(y, x) ==> before(x, x);
  }

  lemma TailElements<T(!new)>(before: (T, T) -> bool, xs: seq<T>)
    requires xs != [] && Sorted(before, xs) && !before(xs[0], xs[0])
    ensures Elements(xs[1..]) == Elements(xs) - {xs[0]}
    ensures Sorted(before, xs[1..])
  {
    forall x | x in Elements(xs) - {xs[0]} ensures x in xs[1..] {
      var i :| 0 <= i < |xs| && xs[i] == x;
      assert xs[1..][i - 1] == x;
    }
  }

  lemma SortedIsDistinct<T(!new)>(before: (T, T) -> bool, xs: seq<T>)
    requires TotalOn(before, Elements(xs)) && Sorted(before, xs)
    ensures Distinct(xs)
  {
    forall i, j | 0 <= i < j < |xs| ensures xs[i] != xs[j] {
      assert xs[i] in Elements(xs) && before(xs[i], xs[j]);
    }
  }

  // ------------------------------------------------------------------ listings

  ghost predicate IsLeast<T(!new)>(before: (T, T) -> bool, s: set<T>, m: T) {
    m in s && forall y | y in s && y != m :: before(m, y)
  }

  lemma LeastOfMore<T(!new)>(before: (T, T) -> bool, s: set<T>, x: T, m: T)
    requires TotalOn(before, s) && x in s && IsLeast(before, s - {x}, m)
    ensures IsLeast(before, s, if before(x, m) then x else m)
  {
    var least := if before(x, m) then x else m;
    forall y | y in s && y != least ensures before(least, y) {
      if y != x && y != m { assert y in s - {x} && before(m, y); }
    }
  }

  /** A set that is not empty has a least element. */
  lemma {:induction false} LeastOf<T(!new)>(before: (T, T) -> bool, s: set<T>) returns (m: T)
    requires TotalOn(before, s) && s != {}
    ensures IsLeast(before, s, m)
    decreases |s|
  {
    var x :| x in s;
    var rest := s - {x};
    if rest == {} {
      forall y | y in s ensures y == x { assert y != x ==> y in rest; }
      m := x;
    } else {
      TotalOnSubset(before, s, rest);
      hide *;
      m := LeastOf(before, rest);
      LeastOfMore(before, s, x, m);
      m := if before(x, m) then x else m;
    }
  }

  lemma LeastExists<T(!new)>(before: (T, T) -> bool, s: set<T>)
    requires TotalOn(before, s) && s != {}
    ensures exists m :: IsLeast(before, s, m)
  {
    var m := LeastOf(before, s);
  }

  /** The elements of a set, smallest first. */
  ghost function Listing<T(!new)>(before: (T, T) -> bool, s: set<T>): (r: seq<T>)
    requires TotalOn(before, s)
    ensures Sorted(before, r) && Elements(r) == s
  {
    if s == {} then []
    else
      LeastExists(before, s);
      var m :| IsLeast(before, s, m);
      var rest := Listing(before, s - {m});
      ConsSorted(before, m, rest);
      [m] + rest
  }

  lemma ConsSorted<T(!new)>(before: (T, T) -> bool, m: T, rest: seq<T>)
    requires Sorted(before, rest) && forall y | y in Elements(rest) :: before(m, y)
    ensures Sorted(before, [m] + rest)
    ensures Elements([m] + rest) == {m} + Elements(rest)
  {
    var r := [m] + rest;
    forall i, j | 0 <= i < j < |r| ensures before(r[i], r[j]) {
      assert r[j] == rest[j - 1] && rest[j - 1] in Elements(rest);
      if i > 0 { assert r[i] == rest[i - 1]; }
    }
    assert forall x :: x in r <==> x == m || x in rest;
  }

  /** Sorting a duplicate-free list yields the listing of its elements. */
  lemma SortIsListing<T(!new)>(before: (T, T) -> bool, xs: seq<T>)
    requires TotalOn(before, Elements(xs)) && Distinct(xs)
    ensures Sort(before, xs) == Listing(before, Elements(xs))
  {
    SortSorted(before, xs);
    SortedIsUnique(before, Sort(before, xs), Listing(before, Elements(xs)));
  }

  lemma TotalOnSubset<T(!new)>(before: (T, T) -> bool, s: set<T>, t: set<T>)
    requires TotalOn(before, s) && t <= s
    ensures TotalOn(before, t)
  {}
}
