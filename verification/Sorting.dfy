/**
 Sorting a sequence by a comparison, as the standard sort does it: the same items, in
 order, and items that compare equal keep their places.
 */
module Sorting {

  /** `less(a, b)` says that `a` must stand before `b`. */
  type Comparison<!T> = (T, T) -> bool

  /** Places an item after every item it need not stand before. */
  function Insert<T>(less: Comparison<T>, sorted: seq<T>, x: T): seq<T> {
    if sorted == [] then [x]
    else
      var last := |sorted| - 1;
      if less(x, sorted[last]) then Insert(less, sorted[..last], x) + [sorted[last]] else sorted + [x]
  }

  function Sort<T>(less: Comparison<T>, items: seq<T>): seq<T> {
    if items == [] then []
    else
      var last := |items| - 1;
      Insert(less, Sort(less, items[..last]), items[last])
  }

  /** Standing before is irreflexive in pairs, and not standing after is transitive. */
  ghost predicate IsOrder<T(!new)>(less: Comparison<T>) {
    && (forall a, b :: less(a, b) ==> !less(b, a))
    && (forall a, b, c {:trigger less(b, a), less(c, b)} :: !less(b, a) && !less(c, b) ==> !less(c, a))
  }

  ghost predicate InOrder<T>(less: Comparison<T>, items: seq<T>) {
    forall i, j :: 0 <= i < j < |items| ==> !less(items[j], items[i])
  }

  ghost predicate AllUpTo<T>(less: Comparison<T>, items: seq<T>, x: T) {
    forall i :: 0 <= i < |items| ==> !less(x, items[i])
  }

  lemma {:induction false} InsertMembers<T>(less: Comparison<T>, sorted: seq<T>, x: T)
    ensures multiset(Insert(less, sorted, x)) == multiset(sorted) + multiset{x}
    decreases |sorted|
  {
    if sorted == [] {
    } else {
      var last := |sorted| - 1;
      assert sorted == sorted[..last] + [sorted[last]];
      if less(x, sorted[last]) { InsertMembers(less, sorted[..last], x); }
    }
  }

  lemma OrderedSnoc<T>(less: Comparison<T>, items: seq<T>, x: T)
    requires InOrder(less, items) && AllUpTo(less, items, x)
    ensures InOrder(less, items + [x])
  {
  }

  lemma OrderedInit<T>(less: Comparison<T>, items: seq<T>)
    requires InOrder(less, items) && items != []
    ensures InOrder(less, items[..|items| - 1]) && AllUpTo(less, items[..|items| - 1], items[|items| - 1])
  {
  }

  lemma UpToLast<T(!new)>(less: Comparison<T>, items: seq<T>, x: T)
    requires IsOrder(less) && InOrder(less, items) && items != [] && !less(x, items[|items| - 1])
    ensures AllUpTo(less, items, x)
  {
    var last := items[|items| - 1];
    forall i | 0 <= i < |items| ensures !less(x, items[i]) {
      if i < |items| - 1 { assert !less(last, items[i]); }
    }
  }

  lemma {:induction false} InsertBounded<T>(less: Comparison<T>, sorted: seq<T>, x: T, bound: T)
    requires AllUpTo(less, sorted, bound) && !less(bound, x)
    ensures AllUpTo(less, Insert(less, sorted, x), bound)
    decreases |sorted|
  {
    if sorted == [] {
    } else {
      var last := |sorted| - 1;
      if less(x, sorted[last]) { InsertBounded(less, sorted[..last], x, bound); }
    }
  }

  lemma {:induction false} InsertInOrder<T(!new)>(less: Comparison<T>, sorted: seq<T>, x: T)
    requires IsOrder(less) && InOrder(less, sorted)
    ensures InOrder(less, Insert(less, sorted, x))
    decreases |sorted|
  {
    if sorted == [] {
    } else {
      var last := |sorted| - 1;
      OrderedInit(less, sorted);
      if less(x, sorted[last]) {
        InsertInOrder(less, sorted[..last], x);
        InsertBounded(less, sorted[..last], x, sorted[last]);
        OrderedSnoc(less, Insert(less, sorted[..last], x), sorted[last]);
      } else {
        UpToLast(less, sorted, x);
        OrderedSnoc(less, sorted, x);
      }
    }
  }

  /** Sorting gives the same items in order. */
  lemma {:induction false} SortMeaning<T(!new)>(less: Comparison<T>, items: seq<T>)
    requires IsOrder(less)
    ensures InOrder(less, Sort(less, items)) && multiset(Sort(less, items)) == multiset(items)
    decreases |items|
  {
    if items == [] {
    } else {
      var last := |items| - 1;
      SortMeaning(less, items[..last]);
      InsertInOrder(less, Sort(less, items[..last]), items[last]);
      InsertMembers(less, Sort(less, items[..last]), items[last]);
      assert items == items[..last] + [items[last]];
    }
  }

  lemma SortMembers<T(!new)>(less: Comparison<T>, items: seq<T>)
    requires IsOrder(less)
    ensures |Sort(less, items)| == |items| && forall x :: x in Sort(less, items) <==> x in items
  {
    var sorted := Sort(less, items);
    SortMeaning(less, items);
    assert |multiset(sorted)| == |sorted| && |multiset(items)| == |items|;
    forall x ensures x in sorted <==> x in items {
      assert x in sorted <==> x in multiset(sorted);
      assert x in items <==> x in multiset(items);
    }
  }

  // ---------------------------------------------------------------- items that tie

  predicate Ties<T>(less: Comparison<T>, a: T, b: T) {
    !less(a, b) && !less(b, a)
  }

  /** The items that tie with `x`, in their order. */
  function TiedWith<T>(less: Comparison<T>, items: seq<T>, x: T): seq<T> {
    if items == [] then []
    else
      var last := |items| - 1;
      TiedWith(less, items[..last], x) + if Ties(less, items[last], x) then [items[last]] else []
  }

  lemma {:induction false} NoneTies<T>(less: Comparison<T>, items: seq<T>, x: T)
    requires forall i :: 0 <= i < |items| ==> !Ties(less, items[i], x)
    ensures TiedWith(less, items, x) == []
    decreases |items|
  {
    if items == [] {
    } else {
      NoneTies(less, items[..|items| - 1], x);
    }
  }

  lemma TiedSnoc<T>(less: Comparison<T>, items: seq<T>, y: T, x: T)
    ensures TiedWith(less, items + [y], x) == TiedWith(less, items, x) + if Ties(less, y, x) then [y] else []
  {
    assert (items + [y])[..|items|] == items;
  }

  /** An inserted item stands behind those it ties with. */
  lemma {:induction false} InsertTied<T(!new)>(less: Comparison<T>, sorted: seq<T>, y: T, x: T)
    requires IsOrder(less)
    ensures TiedWith(less, Insert(less, sorted, y), x) == TiedWith(less, sorted, x) + if Ties(less, y, x) then [y] else []
    decreases |sorted|
  {
    if sorted == [] {
      assert [y][..0] == [];
    } else {
      var last := |sorted| - 1;
      if less(y, sorted[last]) {
        InsertTied(less, sorted[..last], y, x);
        TiedSnoc(less, Insert(less, sorted[..last], y), sorted[last], x);
      } else {
        TiedSnoc(less, sorted, y, x);
      }
    }
  }

  /** Sorting is stable: items that tie keep their order. */
  lemma {:induction false} SortIsStable<T(!new)>(less: Comparison<T>, items: seq<T>, x: T)
    requires IsOrder(less)
    ensures TiedWith(less, Sort(less, items), x) == TiedWith(less, items, x)
    decreases |items|
  {
    if items == [] {
    } else {
      var last := |items| - 1;
      SortIsStable(less, items[..last], x);
      InsertTied(less, Sort(less, items[..last]), items[last], x);
    }
  }

  // ---------------------------------------------------------------- when no two items tie

  /** Each item must stand before every later one. */
  ghost predicate Increasing<T>(less: Comparison<T>, items: seq<T>) {
    forall i, j :: 0 <= i < j < |items| ==> less(items[i], items[j])
  }

  lemma IncreasingInit<T>(less: Comparison<T>, items: seq<T>)
    requires Increasing(less, items) && items != []
    ensures Increasing(less, items[..|items| - 1])
  {
  }

  lemma WithoutLast<T>(items: seq<T>)
    requires items != []
    ensures multiset(items[..|items| - 1]) == multiset(items) - multiset{items[|items| - 1]}
  {
    assert items == items[..|items| - 1] + [items[|items| - 1]];
  }

  lemma BothEmpty<T>(a: seq<T>, b: seq<T>)
    requires multiset(a) == multiset(b)
    ensures a == [] <==> b == []
  {
    assert |multiset(a)| == |a| && |multiset(b)| == |b|;
  }

  /** The last of an increasing sequence is the only item every other stands before. */
  lemma SameLast<T(!new)>(less: Comparison<T>, a: seq<T>, b: seq<T>)
    requires IsOrder(less) && Increasing(less, a) && Increasing(less, b) && multiset(a) == multiset(b) && a != []
    ensures b != [] && a[|a| - 1] == b[|b| - 1]
  {
    BothEmpty(a, b);
    var x, y := a[|a| - 1], b[|b| - 1];
    assert x in multiset(b) && y in multiset(a);
    var j :| 0 <= j < |b| && b[j] == x;
    var i :| 0 <= i < |a| && a[i] == y;
    assert i < |a| - 1 ==> less(y, x);
    assert j < |b| - 1 ==> less(x, y);
  }

  lemma SameInit<T(!new)>(less: Comparison<T>, a: seq<T>, b: seq<T>)
    requires IsOrder(less) && Increasing(less, a) && Increasing(less, b) && multiset(a) == multiset(b) && a != []
    ensures b != [] && a[|a| - 1] == b[|b| - 1]
    ensures multiset(a[..|a| - 1]) == multiset(b[..|b| - 1])
    ensures Increasing(less, a[..|a| - 1]) && Increasing(less, b[..|b| - 1])
  {
    SameLast(less, a, b);
    WithoutLast(a);
    WithoutLast(b);
    IncreasingInit(less, a);
    IncreasingInit(less, b);
  }

  lemma EqualByInit<T>(a: seq<T>, b: seq<T>)
    requires a != [] && b != [] && a[..|a| - 1] == b[..|b| - 1] && a[|a| - 1] == b[|b| - 1]
    ensures a == b
  {
    assert a == a[..|a| - 1] + [a[|a| - 1]] && b == b[..|b| - 1] + [b[|b| - 1]];
  }

  /** Two increasing sequences with the same items are the same sequence. */
  lemma {:induction false} IncreasingUnique<T(!new)>(less: Comparison<T>, a: seq<T>, b: seq<T>)
    requires IsOrder(less) && Increasing(less, a) && Increasing(less, b) && multiset(a) == multiset(b)
    ensures a == b
    decreases |a|
  {
    BothEmpty(a, b);
    if a == [] {
    } else {
      SameInit(less, a, b);
      IncreasingUnique(less, a[..|a| - 1], b[..|b| - 1]);
      EqualByInit(a, b);
    }
  }

  lemma IncreasingConcat<T>(less: Comparison<T>, a: seq<T>, b: seq<T>)
    requires Increasing(less, a) && Increasing(less, b) && forall x, y :: x in a && y in b ==> less(x, y)
    ensures Increasing(less, a + b)
  {
    forall i, j | 0 <= i < j < |a + b| ensures less((a + b)[i], (a + b)[j]) {
      if i < |a| <= j { assert a[i] in a && b[j - |a|] in b; }
    }
  }
}
