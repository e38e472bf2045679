/**
 The order of strings by character code, and the sorted sequence of a finite set.
 */
module Ordering {

  predicate Less(a: string, b: string) {
    b != "" && (a == "" || a[0] < b[0] || (a[0] == b[0] && Less(a[1..], b[1..])))
  }

  lemma {:induction false} LessTotal(a: string, b: string)
    ensures a == b || Less(a, b) || Less(b, a)
    ensures !(Less(a, b) && Less(b, a)) && !Less(a, a)
    decreases |a|
  {
    if a != "" && b != "" {
      LessTotal(a[1..], b[1..]);
      LessTotal(a[1..], a[1..]);
      if a[0] == b[0] && a[1..] == b[1..] {
        assert a == [a[0]] + a[1..] && b == [b[0]] + b[1..];
      }
    } else if a != "" {
      LessTotal(a[1..], a[1..]);
    }
  }

  lemma {:induction false} LessTransitive(a: string, b: string, c: string)
    requires Less(a, b) && Less(b, c)
    ensures Less(a, c)
    decreases |a|
  {
    if a != "" && a[0] == b[0] == c[0] {
      LessTransitive(a[1..], b[1..], c[1..]);
    }
  }

  lemma NotLessTransitive(a: string, b: string, c: string)
    requires !Less(b, a) && !Less(c, b)
    ensures !Less(c, a)
  {
    LessTotal(a, b);
    LessTotal(b, c);
    LessTotal(c, a);
    if Less(c, a) && a != b { LessTransitive(c, a, b); }
  }

  ghost predicate IsMin(m: string, s: set<string>) {
    m in s && forall x :: x in s ==> x == m || Less(m, x)
  }

  lemma {:induction false} MinExists(s: set<string>) returns (m: string)
    requires s != {}
    ensures IsMin(m, s)
    decreases |s|
  {
    m :| m in s;
    if s != {m} {
      var rest := s - {m};
      assert rest != {} by {
        var x :| x in s && x != m;
        assert x in rest;
      }
      var n := MinExists(rest);
      LessTotal(m, n);
      var smaller := if Less(m, n) then m else n;
      forall x | x in s ensures x == smaller || Less(smaller, x) {
        if Less(m, n) && x in rest && x != n { LessTransitive(m, n, x); }
      }
      m := smaller;
    }
  }

  lemma MinUnique(s: set<string>, m: string, n: string)
    requires IsMin(m, s) && IsMin(n, s)
    ensures m == n
  {
    LessTotal(m, n);
  }

  lemma MinExistsUniquely(s: set<string>)
    requires s != {}
    ensures exists m :: m in s && forall x :: x in s ==> x == m || Less(m, x)
    ensures forall m, n :: IsMin(m, s) && IsMin(n, s) ==> m == n
  {
    var m := MinExists(s);
    forall a, b | IsMin(a, s) && IsMin(b, s) ensures a == b { MinUnique(s, a, b); }
  }

  /** The least string of a set. */
  function Min(s: set<string>): (m: string)
    requires s != {}
    ensures IsMin(m, s)
  {
    MinExistsUniquely(s);
    assert forall m :: (m in s && forall x :: x in s ==> x == m || Less(m, x)) ==> IsMin(m, s);
    var m :| m in s && forall x :: x in s ==> x == m || Less(m, x);
    m
  }

  ghost predicate StrictlySorted(r: seq<string>) {
    forall i, j :: 0 <= i < j < |r| ==> Less(r[i], r[j])
  }

  /** The elements of a set in increasing order, each once. */
  function Sorted(s: set<string>): (r: seq<string>)
    ensures forall x :: x in r <==> x in s
    ensures StrictlySorted(r) && |r| == |s|
    decreases |s|
  {
    if s == {} then []
    else
      var m := Min(s);
      var r := Sorted(s - {m});
      assert forall x :: x in s <==> x == m || x in s - {m};
      [m] + r
  }

  lemma SortedDistinct(s: set<string>, i: nat, j: nat)
    requires i < j < |s|
    ensures Sorted(s)[i] != Sorted(s)[j]
  {
    LessTotal(Sorted(s)[i], Sorted(s)[j]);
  }

  /** The first `i` elements of a sequence, as a set. */
  function First(r: seq<string>, i: nat): set<string>
    requires i <= |r|
  {
    set x | x in r[..i]
  }

  /** The `i` least elements of a set. */
  function Least(s: set<string>, i: nat): set<string>
    requires i <= |s|
  {
    First(Sorted(s), i)
  }

  lemma FirstStep(r: seq<string>, i: nat)
    requires i < |r| && forall j :: 0 <= j < i ==> r[j] != r[i]
    ensures r[i] !in First(r, i) && First(r, i + 1) == First(r, i) + {r[i]}
  {
    assert r[..i + 1] == r[..i] + [r[i]];
  }

  /** Walking a set in order adds one new element at a time. */
  lemma LeastStep(s: set<string>, i: nat)
    requires i < |s|
    ensures Sorted(s)[i] in s && Sorted(s)[i] !in Least(s, i)
    ensures Least(s, i + 1) == Least(s, i) + {Sorted(s)[i]}
  {
    var r := Sorted(s);
    forall j | 0 <= j < i ensures r[j] != r[i] { SortedDistinct(s, j, i); }
    FirstStep(r, i);
    assert r[i] in r;
  }

  /** It starts with none and ends with all. */
  lemma LeastEnds(s: set<string>)
    ensures Least(s, 0) == {} && Least(s, |s|) == s
  {
    var r := Sorted(s);
    assert r[..|r|] == r && r[..0] == [];
  }
}
