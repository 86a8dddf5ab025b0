/** Stable sorting by a strict weak order, as the standard library's `sort_by` promises it. */
module StableSort {

  type Order<!T> = (T, T) -> bool

  ghost predicate WeakOrder<T(!new)>(before: Order<T>) {
    && (forall a, b :: before(a, b) ==> !before(b, a))
    && (forall a, b, c :: before(a, c) ==> before(a, b) || before(b, c))
  }

  predicate Tied<T>(before: Order<T>, a: T, b: T) { !before(a, b) && !before(b, a) }

  /** Places `x` after everything it does not come before. */
  function Insert<T>(xs: seq<T>, x: T, before: Order<T>): seq<T> {
    if xs == [] then [x]
    else if before(x, xs[|xs| - 1]) then Insert(xs[..|xs| - 1], x, before) + [xs[|xs| - 1]]
    else xs + [x]
  }

  function Sort<T>(xs: seq<T>, before: Order<T>): seq<T> {
    if xs == [] then [] else Insert(Sort(xs[..|xs| - 1], before), xs[|xs| - 1], before)
  }

  ghost predicate Sorted<T>(xs: seq<T>, before: Order<T>) {
    forall i, j :: 0 <= i < j < |xs| ==> !before(xs[j], xs[i])
  }

  /** The elements tied with `y`, in the order they stand in. */
  function TiedWith<T>(xs: seq<T>, y: T, before: Order<T>): seq<T> {
    if xs == [] then []
    else TiedWith(xs[..|xs| - 1], y, before) + if Tied(before, xs[|xs| - 1], y) then [xs[|xs| - 1]] else []
  }

  lemma {:induction false} InsertKeepsElements<T>(xs: seq<T>, x: T, before: Order<T>)
    ensures multiset(Insert(xs, x, before)) == multiset(xs) + multiset{x}
  {
    if xs != [] {
      InsertKeepsElements(xs[..|xs| - 1], x, before);
      assert xs == xs[..|xs| - 1] + [xs[|xs| - 1]];
    }
  }

  lemma AppendSorted<T(!new)>(xs: seq<T>, x: T, before: Order<T>)
    requires Sorted(xs, before) && forall i :: 0 <= i < |xs| ==> !before(x, xs[i])
    ensures Sorted(xs + [x], before)
  {
  }

  lemma {:induction false} InsertSorts<T(!new)>(xs: seq<T>, x: T, before: Order<T>)
    requires WeakOrder(before) && Sorted(xs, before)
    ensures Sorted(Insert(xs, x, before), before)
  {
    if xs != [] {
      var front, last := xs[..|xs| - 1], xs[|xs| - 1];
      if before(x, last) {
        InsertSorts(front, x, before);
        InsertKeepsElements(front, x, before);
        var r := Insert(front, x, before);
        forall i | 0 <= i < |r|
          ensures !before(last, r[i])
        {
          assert r[i] in multiset(r);
          assert r[i] in front || r[i] == x;
        }
        AppendSorted(r, last, before);
      } else {
        forall i | 0 <= i < |xs|
          ensures !before(x, xs[i])
        {
          assert i < |xs| - 1 ==> !before(last, xs[i]);
        }
        AppendSorted(xs, x, before);
      }
    }
  }

  lemma TiedWithSnoc<T>(xs: seq<T>, x: T, y: T, before: Order<T>)
    ensures TiedWith(xs + [x], y, before) == TiedWith(xs, y, before) + if Tied(before, x, y) then [x] else []
  {
    assert (xs + [x])[..|xs|] == xs;
  }

  lemma {:induction false} InsertKeepsTies<T(!new)>(xs: seq<T>, x: T, y: T, before: Order<T>)
    requires WeakOrder(before)
    ensures TiedWith(Insert(xs, x, before), y, before) == TiedWith(xs + [x], y, before)
  {
    TiedWithSnoc(xs, x, y, before);
    if xs != [] && before(x, xs[|xs| - 1]) {
      var front, last := xs[..|xs| - 1], xs[|xs| - 1];
      InsertKeepsTies(front, x, y, before);
      TiedWithSnoc(front, x, y, before);
      TiedWithSnoc(Insert(front, x, before), last, y, before);
      assert before(x, last) ==> before(x, y) || before(y, last);
    } else if xs == [] {
      assert [] + [x] == [x];
    }
  }

  /** Sorting orders the elements, loses and adds none, and leaves tied ones in their order. */
  lemma {:induction false} SortSorts<T(!new)>(xs: seq<T>, before: Order<T>)
    requires WeakOrder(before)
    ensures Sorted(Sort(xs, before), before) && multiset(Sort(xs, before)) == multiset(xs)
    ensures forall y :: TiedWith(Sort(xs, before), y, before) == TiedWith(xs, y, before)
    decreases |xs|
  {
    if xs != [] {
      var front, last := xs[..|xs| - 1], xs[|xs| - 1];
      SortSorts(front, before);
      InsertSorts(Sort(front, before), last, before);
      InsertKeepsElements(Sort(front, before), last, before);
      assert xs == front + [last];
      forall y
        ensures TiedWith(Sort(xs, before), y, before) == TiedWith(xs, y, before)
      {
        InsertKeepsTies(Sort(front, before), last, y, before);
        TiedWithSnoc(Sort(front, before), last, y, before);
        TiedWithSnoc(front, last, y, before);
      }
    }
  }

  lemma {:induction false} TiedWithHolds<T>(xs: seq<T>, y: T, before: Order<T>)
    ensures forall x | x in TiedWith(xs, y, before) :: x in xs && Tied(before, x, y)
    ensures forall x | x in xs && Tied(before, x, y) :: x in TiedWith(xs, y, before)
    decreases |xs|
  {
    if xs != [] {
      TiedWithHolds(xs[..|xs| - 1], y, before);
      assert xs == xs[..|xs| - 1] + [xs[|xs| - 1]];
    }
  }

  lemma TiedMembers<T(!new)>(xs: seq<T>, zs: seq<T>, before: Order<T>)
    requires WeakOrder(before) && forall y :: TiedWith(xs, y, before) == TiedWith(zs, y, before)
    ensures forall x | x in xs :: x in zs
  {
    forall x | x in xs
      ensures x in zs
    {
      TiedWithHolds(xs, x, before);
      TiedWithHolds(zs, x, before);
      assert x in TiedWith(zs, x, before);
    }
  }

  /** An element of one list is no later than the last of a sorted list with the same ties. */
  lemma LastIsLatest<T(!new)>(xs: seq<T>, zs: seq<T>, before: Order<T>)
    requires WeakOrder(before) && Sorted(zs, before) && xs != [] && zs != []
    requires forall y :: TiedWith(xs, y, before) == TiedWith(zs, y, before)
    ensures !before(zs[|zs| - 1], xs[|xs| - 1])
  {
    var x := xs[|xs| - 1];
    TiedMembers(xs, zs, before);
    assert x in xs;
    var i :| 0 <= i < |zs| && zs[i] == x;
    assert i < |zs| - 1 ==> !before(zs[|zs| - 1], zs[i]);
  }

  lemma LastsAgree<T(!new)>(xs: seq<T>, zs: seq<T>, before: Order<T>)
    requires WeakOrder(before) && Sorted(xs, before) && Sorted(zs, before) && xs != [] && zs != []
    requires forall y :: TiedWith(xs, y, before) == TiedWith(zs, y, before)
    ensures xs[|xs| - 1] == zs[|zs| - 1]
  {
    var x, z := xs[|xs| - 1], zs[|zs| - 1];
    LastIsLatest(xs, zs, before);
    LastIsLatest(zs, xs, before);
    assert TiedWith(xs, x, before) == TiedWith(zs, x, before);
    assert Tied(before, x, x) && Tied(before, z, x);
    assert TiedWith(xs, x, before)[|TiedWith(xs, x, before)| - 1] == x;
    assert TiedWith(zs, x, before)[|TiedWith(zs, x, before)| - 1] == z;
  }

  lemma DropTied<T>(front: seq<T>, rest: seq<T>, x: T, y: T, before: Order<T>)
    requires TiedWith(front + [x], y, before) == TiedWith(rest + [x], y, before)
    ensures TiedWith(front, y, before) == TiedWith(rest, y, before)
  {
    var a, b := TiedWith(front, y, before), TiedWith(rest, y, before);
    TiedWithSnoc(front, x, y, before);
    TiedWithSnoc(rest, x, y, before);
    if Tied(before, x, y) {
      assert a == (a + [x])[..|a|] && b == (b + [x])[..|b|];
    } else {
      assert a == a + [] && b == b + [];
    }
  }

  /** Order and ties leave nothing open: there is only one stable arrangement. */
  lemma {:induction false} ArrangementIsUnique<T(!new)>(xs: seq<T>, zs: seq<T>, before: Order<T>)
    requires WeakOrder(before) && Sorted(xs, before) && Sorted(zs, before)
    requires forall y :: TiedWith(xs, y, before) == TiedWith(zs, y, before)
    ensures xs == zs
    decreases |xs|
  {
    TiedMembers(xs, zs, before);
    TiedMembers(zs, xs, before);
    assert xs != [] ==> xs[0] in zs;
    assert zs != [] ==> zs[0] in xs;
    if xs != [] {
      var x, z := xs[|xs| - 1], zs[|zs| - 1];
      var front, rest := xs[..|xs| - 1], zs[..|zs| - 1];
      assert xs == front + [x] && zs == rest + [z];
      LastsAgree(xs, zs, before);
      forall y
        ensures TiedWith(front, y, before) == TiedWith(rest, y, before)
      {
        assert TiedWith(xs, y, before) == TiedWith(zs, y, before);
        DropTied(front, rest, x, y, before);
      }
      ArrangementIsUnique(front, rest, before);
    }
  }
}
