/** ORDER BY: the listing of a finite set in a strict total order. */
module Ordering {

  ghost predicate StrictTotal<T(!new)>(before: (T, T) -> bool) {
    && (forall a :: !before(a, a))
    && (forall a, b, c :: before(a, b) && before(b, c) ==> before(a, c))
    && (forall a, b :: a != b ==> before(a, b) || before(b, a))
  }

  ghost predicate SortedBy<T>(xs: seq<T>, before: (T, T) -> bool) {
    forall i, j | 0 <= i < j < |xs| :: before(xs[i], xs[j])
  }

  predicate Leads<T(==)>(x: T, s: set<T>, before: (T, T) -> bool) {
    x in s && forall y | y in s && y != x :: before(x, y)
  }

  lemma {:induction false} LeaderExists<T(!new)>(s: set<T>, before: (T, T) -> bool)
    requires StrictTotal(before) && s != {}
    ensures exists x :: Leads(x, s, before)
    decreases |s|
  {
    var y :| y in s;
    if s == {y} {
      assert Leads(y, s, before);
    } else {
      assert s - {y} != {};
      LeaderExists(s - {y}, before);
      var x :| Leads(x, s - {y}, before);
      if before(x, y) {
        assert Leads(x, s, before);
      } else {
        assert Leads(y, s, before);
      }
    }
  }

  function Sort<T(!new, ==)>(s: set<T>, before: (T, T) -> bool): seq<T>
    requires StrictTotal(before)
    decreases |s|
  {
    if s == {} then []
    else
      LeaderExists(s, before);
      var x :| x in s && Leads(x, s, before);
      [x] + Sort(s - {x}, before)
  }

  /** Sort lists every element once, in order. */
  lemma {:induction false} SortSorts<T(!new)>(s: set<T>, before: (T, T) -> bool)
    requires StrictTotal(before)
    ensures SortedBy(Sort(s, before), before)
    ensures forall x :: x in Sort(s, before) <==> x in s
    ensures |Sort(s, before)| == |s|
    decreases |s|
  {
    if s != {} {
      var xs := Sort(s, before);
      SortSorts(s - {xs[0]}, before);
      assert xs == [xs[0]] + Sort(s - {xs[0]}, before);
      assert Leads(xs[0], s, before);
    }
  }

  lemma TailMembers<T(!new)>(xs: seq<T>, x: T, before: (T, T) -> bool)
    requires StrictTotal(before) && SortedBy(xs, before) && xs != []
    ensures x in xs[1..] <==> x in xs && x != xs[0]
  {
    if x in xs[1..] {
      var i :| 0 <= i < |xs[1..]| && xs[1..][i] == x;
      assert before(xs[0], xs[i + 1]);
      assert x in xs;
    }
  }

  /** There is no other ordered listing of the same elements. */
  lemma {:induction false} SortIsUnique<T(!new)>(xs: seq<T>, ys: seq<T>, before: (T, T) -> bool)
    requires StrictTotal(before) && SortedBy(xs, before) && SortedBy(ys, before)
    requires forall x :: x in xs <==> x in ys
    ensures xs == ys
  {
    if xs != [] { assert xs[0] in xs && xs[0] in ys; }
    if ys != [] { assert ys[0] in ys && ys[0] in xs; }
    if xs != [] && ys != [] {
      assert xs[0] == ys[0];
      forall x ensures x in xs[1..] <==> x in ys[1..] {
        TailMembers(xs, x, before);
        TailMembers(ys, x, before);
      }
      SortIsUnique(xs[1..], ys[1..], before);
    }
  }

  /** Two ordered runs join into one when the second lies past the end of the first. */
  lemma SortedConcat<T(!new)>(front: seq<T>, back: seq<T>, before: (T, T) -> bool)
    requires StrictTotal(before) && SortedBy(front, before) && SortedBy(back, before)
    requires front != [] && forall x | x in back :: before(front[|front| - 1], x)
    ensures SortedBy(front + back, before)
  {
    var all := front + back;
    forall i, j | 0 <= i < j < |all| ensures before(all[i], all[j]) {
      if i < |front| <= j {
        assert all[j] in back;
        assert i == |front| - 1 || before(front[i], front[|front| - 1]);
      }
    }
  }

  /** The members of the tail after position i are those past the element at i - 1. */
  lemma TailAfter<T(!new)>(xs: seq<T>, i: nat, x: T, before: (T, T) -> bool)
    requires StrictTotal(before) && SortedBy(xs, before) && 0 < i <= |xs|
    ensures x in xs[i..] <==> x in xs && before(xs[i - 1], x)
  {
    if x in xs {
      var j :| 0 <= j < |xs| && xs[j] == x;
      if j >= i {
        assert before(xs[i - 1], xs[j]);
        assert x == xs[i..][j - i];
      } else {
        assert j == i - 1 || before(xs[j], xs[i - 1]);
        assert forall k | 0 <= k < |xs[i..]| :: before(xs[i - 1], xs[i..][k]);
      }
    }
  }
}
