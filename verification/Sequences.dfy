/**
 Sequences without repetitions, and sequences as sets and multisets.
 */
module Sequences {

  /** The same item, `n` times. */
  function Repeat<T>(x: T, n: nat): (r: seq<T>)
    ensures |r| == n && forall i :: 0 <= i < n ==> r[i] == x
  {
    seq(n, _ => x)
  }

  /** The items of the sequence as a set. */
  function Elements<T(==)>(items: seq<T>): set<T> {
    set x | x in items
  }

  lemma Assoc<T>(a: seq<T>, b: seq<T>, c: seq<T>)
    ensures a + (b + c) == a + b + c
  {
  }

  // ---------------------------------------------------------------- repeated items

  ghost predicate Distinct<T>(items: seq<T>) {
    forall i, j :: 0 <= i < j < |items| ==> items[i] != items[j]
  }

  lemma TwiceMeansTwo<T>(items: seq<T>, i: nat, j: nat)
    requires i < j < |items| && items[i] == items[j]
    ensures multiset(items)[items[i]] >= 2
  {
    assert items == items[..j] + [items[j]] + items[j + 1..];
    assert items[i] in items[..j];
    assert multiset(items[..j])[items[i]] >= 1;
  }

  lemma TwoMeansTwice<T>(items: seq<T>, x: T) returns (i: nat, j: nat)
    requires multiset(items)[x] >= 2
    ensures i < j < |items| && items[i] == items[j] == x
  {
    assert x in multiset(items);
    i :| 0 <= i < |items| && items[i] == x;
    assert items == items[..i] + [x] + items[i + 1..];
    assert multiset(items) == multiset(items[..i]) + multiset{x} + multiset(items[i + 1..]);
    if x in multiset(items[..i]) {
      var k :| 0 <= k < i && items[..i][k] == x;
      i, j := k, i;
    } else {
      assert x in multiset(items[i + 1..]);
      var k :| 0 <= k < |items[i + 1..]| && items[i + 1..][k] == x;
      j := i + 1 + k;
    }
  }

  lemma DistinctIff<T(!new)>(items: seq<T>)
    ensures Distinct(items) <==> forall x :: multiset(items)[x] <= 1
  {
    forall i, j | 0 <= i < j < |items| && items[i] == items[j] ensures multiset(items)[items[i]] >= 2 {
      TwiceMeansTwo(items, i, j);
    }
    forall x | multiset(items)[x] >= 2 ensures !Distinct(items) { var i, j := TwoMeansTwice(items, x); }
  }

  lemma DistinctPermutation<T(!new)>(a: seq<T>, b: seq<T>)
    requires multiset(a) == multiset(b) && Distinct(a)
    ensures Distinct(b)
  {
    DistinctIff(a);
    DistinctIff(b);
  }

  lemma DistinctConcat<T>(a: seq<T>, b: seq<T>)
    requires Distinct(a) && Distinct(b) && forall x :: x in b ==> x !in a
    ensures Distinct(a + b)
  {
    forall i, j | 0 <= i < j < |a + b| ensures (a + b)[i] != (a + b)[j] {
      if i < |a| <= j { assert a[i] in a && b[j - |a|] in b; }
    }
  }

  /** Sequences without repetitions and with the same items hold each of them as often. */
  lemma SameItems<T(!new)>(a: seq<T>, b: seq<T>)
    requires Distinct(a) && Distinct(b) && forall x :: x in a <==> x in b
    ensures multiset(a) == multiset(b)
  {
    DistinctIff(a);
    DistinctIff(b);
    forall x ensures multiset(a)[x] == multiset(b)[x] {
      assert x in a <==> x in multiset(a);
      assert x in b <==> x in multiset(b);
    }
  }

  lemma AscendingSnoc(places: seq<nat>, n: nat)
    requires Ascending(places) && forall i :: i in places ==> i < n
    ensures Ascending(places + [n]) && forall i :: i in places + [n] <==> i in places || i == n
  {
    forall k | 0 <= k < |places| ensures places[k] < n { assert places[k] in places; }
  }

  /** Each place stands before every later one. */
  predicate Ascending(places: seq<nat>) {
    forall i, j :: 0 <= i < j < |places| ==> places[i] < places[j]
  }
}
