/** Go's sort.Slice: what it promises for a strict weak order, and when the
    result is unique. */
module Sorting {
  ghost predicate StrictWeakOrder<T(!new)>(less: (T, T) -> bool) {
    && (forall a, b :: less(a, b) ==> !less(b, a))
    && (forall a, b, c :: less(a, c) ==> less(a, b) || less(b, c))
  }

  ghost predicate Sorted<T>(less: (T, T) -> bool, xs: seq<T>) {
    forall i, j | 0 <= i < j < |xs| :: !less(xs[j], xs[i])
  }

  ghost predicate StrictlySorted<T>(less: (T, T) -> bool, xs: seq<T>) {
    forall i, j | 0 <= i < j < |xs| :: less(xs[i], xs[j])
  }

  /** Any two different elements are ordered one way or the other. */
  ghost predicate Ranked<T>(less: (T, T) -> bool, xs: seq<T>) {
    forall x, y | x in xs && y in xs && x != y :: less(x, y) || less(y, x)
  }

  function Insert<T>(less: (T, T) -> bool, x: T, xs: seq<T>): (r: seq<T>)
    ensures multiset(r) == multiset(xs) + multiset{x}
  {
    if xs == [] || !less(xs[0], x) then [x] + xs
    else
      assert xs == [xs[0]] + xs[1..];
      [xs[0]] + Insert(less, x, xs[1..])
  }

  function Sort<T>(less: (T, T) -> bool, xs: seq<T>): (r: seq<T>)
    ensures multiset(r) == multiset(xs)
  {
    if xs == [] then []
    else
      assert xs == [xs[0]] + xs[1..];
      Insert(less, xs[0], Sort(less, xs[1..]))
  }

  lemma {:induction false} InsertSorts<T(!new)>(less: (T, T) -> bool, x: T, xs: seq<T>)
    requires StrictWeakOrder(less) && Sorted(less, xs)
    ensures Sorted(less, Insert(less, x, xs))
  {
    if xs != [] && less(xs[0], x) {
      InsertSorts(less, x, xs[1..]);
      var rest := Insert(less, x, xs[1..]);
      forall j | 0 <= j < |rest|
        ensures !less(rest[j], xs[0])
      {
        assert rest[j] in multiset(rest);
        assert rest[j] == x || rest[j] in xs[1..];
      }
    } else if xs != [] {
      forall j | 0 <= j < |xs|
        ensures !less(xs[j], x)
      {
        assert j > 0 ==> !less(xs[j], xs[0]);
      }
    }
  }

  lemma {:induction false} SortSorts<T(!new)>(less: (T, T) -> bool, xs: seq<T>)
    requires StrictWeakOrder(less)
    ensures Sorted(less, Sort(less, xs))
  {
    if xs != [] {
      SortSorts(less, xs[1..]);
      InsertSorts(less, xs[0], Sort(less, xs[1..]));
    }
  }

  lemma FirstIsLeast<T(!new)>(less: (T, T) -> bool, xs: seq<T>, x: T)
    requires StrictWeakOrder(less) && Sorted(less, xs) && x in xs
    ensures !less(x, xs[0])
  {
    var i :| 0 <= i < |xs| && xs[i] == x;
  }

  /** Two sorted arrangements of the same elements are equal, when no two
      different elements tie. So it does not matter how sort.Slice orders ties,
      nor in which order it was given the elements. */
  lemma {:induction false} SortedUnique<T(!new)>(less: (T, T) -> bool, a: seq<T>, b: seq<T>)
    requires StrictWeakOrder(less) && Ranked(less, a)
    requires Sorted(less, a) && Sorted(less, b) && multiset(a) == multiset(b)
    ensures a == b
  {
    assert |a| == |multiset(a)| == |multiset(b)| == |b|;
    if a != [] {
      assert a[0] in multiset(b) && b[0] in multiset(a);
      FirstIsLeast(less, a, b[0]);
      FirstIsLeast(less, b, a[0]);
      assert a[0] == b[0];
      assert a == [a[0]] + a[1..] && b == [b[0]] + b[1..];
      assert multiset(a[1..]) == multiset(a) - multiset{a[0]};
      assert multiset(b[1..]) == multiset(b) - multiset{a[0]};
      RankedTail(less, a);
      hide StrictWeakOrder, Ranked;
      SortedUnique(less, a[1..], b[1..]);
    }
  }

  lemma RankedTail<T>(less: (T, T) -> bool, xs: seq<T>)
    requires Ranked(less, xs) && xs != []
    ensures Ranked(less, xs[1..])
  {
    assert forall x | x in xs[1..] :: x in xs;
  }

  /** A strictly sorted sequence is determined by its set of members. */
  lemma {:induction false} StrictlySortedUnique<T(!new)>(less: (T, T) -> bool, a: seq<T>, b: seq<T>)
    requires StrictWeakOrder(less)
    requires StrictlySorted(less, a) && StrictlySorted(less, b)
    requires forall x :: x in a <==> x in b
    ensures a == b
  {
    if b != [] {
      assert b[0] in b;
    }
    if a != [] {
      assert a[0] in b && b[0] in a;
      StrictFirst(less, a, b[0]);
      StrictFirst(less, b, a[0]);
      assert a[0] == b[0];
      forall x
        ensures x in a[1..] <==> x in b[1..]
      {
        StrictTail(less, a, x);
        StrictTail(less, b, x);
      }
      hide StrictWeakOrder;
      StrictlySortedUnique(less, a[1..], b[1..]);
      assert a == [a[0]] + a[1..] && b == [b[0]] + b[1..];
    }
  }

  lemma StrictFirst<T(!new)>(less: (T, T) -> bool, xs: seq<T>, x: T)
    requires StrictWeakOrder(less) && StrictlySorted(less, xs) && x in xs
    ensures x == xs[0] || less(xs[0], x)
    ensures x != xs[0] ==> !less(x, xs[0])
  {
    var i :| 0 <= i < |xs| && xs[i] == x;
  }

  lemma StrictTail<T(!new)>(less: (T, T) -> bool, xs: seq<T>, x: T)
    requires StrictWeakOrder(less) && StrictlySorted(less, xs) && xs != []
    ensures x in xs[1..] <==> x in xs && x != xs[0]
  {
    assert xs == [xs[0]] + xs[1..];
    if x in xs[1..] {
      var i :| 0 <= i < |xs[1..]| && xs[1..][i] == x;
      assert less(xs[0], xs[i + 1]);
      assert less(x, x) ==> !less(x, x);
    }
  }

  ghost predicate Distinct<T>(xs: seq<T>) {
    forall i, j | 0 <= i < j < |xs| :: xs[i] != xs[j]
  }

  lemma {:induction false} DistinctOccurOnce<T>(xs: seq<T>, x: T)
    requires Distinct(xs)
    ensures multiset(xs)[x] <= 1
  {
    if xs != [] {
      assert xs == [xs[0]] + xs[1..];
      assert x == xs[0] ==> x !in xs[1..];
      DistinctOccurOnce(xs[1..], x);
    }
  }

  lemma RepeatedOccursTwice<T>(xs: seq<T>, i: nat, j: nat)
    requires i < j < |xs| && xs[i] == xs[j]
    ensures multiset(xs)[xs[i]] >= 2
  {
    assert xs == xs[..j] + xs[j..];
    assert xs[..j][i] in xs[..j] && xs[j..][0] in xs[j..];
  }

  /** Sorting elements that never tie gives a strictly sorted sequence of the same
      elements. */
  lemma {:induction false} SortDistinct<T(!new)>(less: (T, T) -> bool, xs: seq<T>)
    requires StrictWeakOrder(less) && Ranked(less, xs) && Distinct(xs)
    ensures StrictlySorted(less, Sort(less, xs))
    ensures forall x :: x in Sort(less, xs) <==> x in xs
  {
    var s := Sort(less, xs);
    SortSorts(less, xs);
    forall x
      ensures x in s <==> x in xs
    {
      assert x in multiset(s) <==> x in multiset(xs);
    }
    forall i, j | 0 <= i < j < |s|
      ensures less(s[i], s[j])
    {
      DistinctOccurOnce(xs, s[i]);
      if s[i] == s[j] {
        RepeatedOccursTwice(s, i, j);
      }
      assert s[i] in xs && s[j] in xs;
    }
  }
}
