/**
 No secret survives redaction, redaction is idempotent, and it keeps the value's
 shape; and precisely which secrets break this.
 */
module RedactionLaws {
  import opened Sequences
  import opened Redaction

  /**
   A secret that cannot overlap the marker: neither contains the other, and no proper
   beginning or end of the secret is an end or beginning of the marker.
   */
  ghost predicate Apart(s: string) {
    && s != "" && !Occurs(s, REDACTION) && !Occurs(REDACTION, s)
    && (forall n :: 0 < n < |s| && n <= |REDACTION| ==> !EndsMarker(s, n) && !BeginsMarker(s, n))
  }

  /** The marker ends with the first `n` characters of the secret. */
  predicate EndsMarker(s: string, n: nat)
    requires n <= |s| && n <= |REDACTION|
  {
    s[..n] == REDACTION[|REDACTION| - n..]
  }

  /** The marker begins with the last `n` characters of the secret. */
  predicate BeginsMarker(s: string, n: nat)
    requires n <= |s| && n <= |REDACTION|
  {
    s[|s| - n..] == REDACTION[..n]
  }

  ghost predicate AllApart(secrets: seq<string>) {
    forall i :: 0 <= i < |secrets| ==> Apart(secrets[i])
  }

  lemma OccursIn(s: string, t: string, i: nat)
    requires OccursAt(s, t, i)
    ensures Occurs(s, t)
  {
  }

  lemma SliceOfSlice(t: string, a: nat, b: nat, i: nat, j: nat)
    requires a <= b <= |t| && i <= j <= b - a
    ensures t[a..b][i..j] == t[a + i..a + j]
  {
    var u, v := t[a..b][i..j], t[a + i..a + j];
    forall k | 0 <= k < |u| ensures u[k] == v[k] {
      assert t[a..b][i + k] == t[a + (i + k)];
    }
  }

  lemma OccursInPart(s: string, t: string, a: nat, b: nat)
    requires a <= b <= |t| && Occurs(s, t[a..b])
    ensures Occurs(s, t)
  {
    var i :| 0 <= i <= |t[a..b]| && OccursAt(s, t[a..b], i);
    assert t[a..b][i..i + |s|] == t[a + i..a + i + |s|] by {
      SliceOfSlice(t, a, b, i, i + |s|);
    }
    OccursIn(s, t, a + i);
  }

  // ---------------------------------------------------------------- around a marker

  lemma InsideMarker(s: string, x: string, y: string, i: nat)
    requires OccursAt(s, x + REDACTION + y, i) && |x| <= i && i + |s| <= |x| + |REDACTION|
    ensures Occurs(s, REDACTION)
  {
    var t := x + REDACTION + y;
    assert t[|x|..|x| + |REDACTION|] == REDACTION;
    SliceOfSlice(t, |x|, |x| + |REDACTION|, i - |x|, i - |x| + |s|);
    OccursIn(s, REDACTION, i - |x|);
  }

  lemma AroundMarker(s: string, x: string, y: string, i: nat)
    requires OccursAt(s, x + REDACTION + y, i) && i <= |x| && |x| + |REDACTION| <= i + |s|
    ensures Occurs(REDACTION, s)
  {
    var t := x + REDACTION + y;
    assert t[|x|..|x| + |REDACTION|] == REDACTION;
    SliceOfSlice(t, i, i + |s|, |x| - i, |x| - i + |REDACTION|);
    OccursIn(REDACTION, s, |x| - i);
  }

  lemma IntoMarker(s: string, x: string, y: string, i: nat)
    requires OccursAt(s, x + REDACTION + y, i) && i < |x| < i + |s| < |x| + |REDACTION|
    ensures BeginsMarker(s, i + |s| - |x|)
  {
    var t, n := x + REDACTION + y, i + |s| - |x|;
    assert t[|x|..|x| + n] == REDACTION[..n];
    SliceOfSlice(t, i, i + |s|, |s| - n, |s|);
    assert s[|s| - n..|s|] == s[|s| - n..];
  }

  lemma OutOfMarker(s: string, x: string, y: string, i: nat)
    requires OccursAt(s, x + REDACTION + y, i) && |x| < i < |x| + |REDACTION| < i + |s|
    ensures EndsMarker(s, |x| + |REDACTION| - i)
  {
    var t, n := x + REDACTION + y, |x| + |REDACTION| - i;
    assert t[i..i + n] == REDACTION[|REDACTION| - n..];
    SliceOfSlice(t, i, i + |s|, 0, n);
    assert s[0..n] == s[..n];
  }

  /** Next to a marker, a secret apart from it lies on one side. */
  lemma OnOneSide(s: string, x: string, y: string, i: nat)
    requires Apart(s) && OccursAt(s, x + REDACTION + y, i)
    ensures i + |s| <= |x| || |x| + |REDACTION| <= i
  {
    if i < |x| + |REDACTION| && |x| < i + |s| {
      Overlap(s, x, y, i);
    }
  }

  /** Every way of overlapping the marker is one that being apart rules out. */
  lemma Overlap(s: string, x: string, y: string, i: nat)
    requires OccursAt(s, x + REDACTION + y, i) && i < |x| + |REDACTION| && |x| < i + |s|
    ensures !Apart(s)
  {
    if |x| <= i {
      if i + |s| <= |x| + |REDACTION| {
        InsideMarker(s, x, y, i);
      } else if i == |x| {
        AroundMarker(s, x, y, i);
      } else {
        OutOfMarker(s, x, y, i);
      }
    } else if |x| + |REDACTION| <= i + |s| {
      AroundMarker(s, x, y, i);
    } else {
      IntoMarker(s, x, y, i);
    }
  }

  /** Around a marker, such a secret occurs on one of the sides or not at all. */
  lemma ApartOfMarker(s: string, x: string, y: string)
    requires Apart(s)
    ensures Occurs(s, x + REDACTION + y) ==> Occurs(s, x) || Occurs(s, y)
  {
    var t := x + REDACTION + y;
    if Occurs(s, t) {
      var i :| 0 <= i <= |t| && OccursAt(s, t, i);
      OnOneSide(s, x, y, i);
      if i + |s| <= |x| {
        assert x[i..i + |s|] == t[i..i + |s|];
        OccursIn(s, x, i);
      } else {
        var j := i - |x| - |REDACTION|;
        assert y[j..j + |s|] == t[i..i + |s|];
        OccursIn(s, y, j);
      }
    }
  }

  /** Before the leftmost occurrence of a secret there is none of it, nor of anything absent. */
  lemma NoneBefore(t: string, secret: string, s: string, i: nat)
    requires i <= |t| && (forall j :: 0 <= j < i ==> !OccursAt(secret, t, j))
    requires s != "" && (s == secret || !Occurs(s, t))
    ensures !Occurs(s, t[..i])
  {
    if Occurs(s, t[..i]) {
      var j :| 0 <= j <= i && OccursAt(s, t[..i], j);
      SliceOfSlice(t, 0, i, j, j + |s|);
      assert t[0..i] == t[..i];
      assert OccursAt(s, t, j);
      OccursIn(s, t, j);
      assert false;
    }
  }

  lemma NoneAfter(t: string, s: string, i: nat)
    requires i <= |t| && !Occurs(s, t)
    ensures !Occurs(s, t[i..])
  {
    assert t[i..] == t[i..|t|];
    if Occurs(s, t[i..]) { OccursInPart(s, t, i, |t|); }
  }

  /** Replacing one secret removes it and brings back none that was absent and is apart from the marker. */
  lemma {:induction false} ReplaceLeavesNone(t: string, secret: string, s: string)
    requires secret != "" && Apart(s) && (s == secret || !Occurs(s, t))
    ensures !Occurs(s, ReplaceAll(t, secret))
    decreases |t|
  {
    if !Occurs(secret, t) {
    } else {
      var i := FindFrom(secret, t, 0);
      var b := t[i + |secret|..];
      if s != secret { NoneAfter(t, s, i + |secret|); }
      ReplaceLeavesNone(b, secret, s);
      NoneBefore(t, secret, s, i);
      ApartOfMarker(s, t[..i], ReplaceAll(b, secret));
    }
  }

  /** A secret apart from the marker is not left, whatever else is on the list and in whatever order. */
  lemma {:induction false} NoSecretSurvives(text: string, secrets: seq<string>, k: nat)
    requires NonEmpty(secrets) && k < |secrets| && Apart(secrets[k])
    ensures !Occurs(secrets[k], RedactAll(text, secrets))
    decreases |secrets|
  {
    var n := |secrets| - 1;
    if k == n {
    } else {
      NoSecretSurvives(text, secrets[..n], k);
    }
    ReplaceLeavesNone(RedactAll(text, secrets[..n]), secrets[n], secrets[k]);
  }

  /** Replacing the marker by itself changes nothing. */
  lemma {:induction false} ReplaceMarker(t: string)
    ensures ReplaceAll(t, REDACTION) == t
    decreases |t|
  {
    if !Occurs(REDACTION, t) {
    } else {
      var a, b := ReplaceStep(t, REDACTION);
      ReplaceMarker(b);
    }
  }

  /** Redaction leaves a text alone when what it would replace is absent or is the marker. */
  lemma {:induction false} RedactIdle(text: string, secrets: seq<string>)
    requires NonEmpty(secrets)
    requires forall i :: 0 <= i < |secrets| ==> secrets[i] == REDACTION || !Occurs(secrets[i], text)
    ensures RedactAll(text, secrets) == text
    decreases |secrets|
  {
    if secrets == [] {
    } else {
      RedactIdle(text, secrets[..|secrets| - 1]);
      if secrets[|secrets| - 1] == REDACTION { ReplaceMarker(text); }
    }
  }

  lemma RedactAllIdempotent(text: string, secrets: seq<string>)
    requires NonEmpty(secrets) && AllApart(secrets)
    ensures RedactAll(RedactAll(text, secrets), secrets) == RedactAll(text, secrets)
  {
    forall i | 0 <= i < |secrets| ensures !Occurs(secrets[i], RedactAll(text, secrets)) {
      NoSecretSurvives(text, secrets, i);
    }
    RedactIdle(RedactAll(text, secrets), secrets);
  }

  // ---------------------------------------------------------------- a secret that is not apart leaks

  /** Two texts shorter than the secret between which a marker completes it. */
  ghost predicate Completes(s: string, x: string, y: string) {
    |x| < |s| && |y| < |s| && Occurs(s, x + REDACTION + y)
  }

  lemma CompletesAround(s: string) returns (x: string, y: string)
    requires s != "" && Occurs(REDACTION, s)
    ensures Completes(s, x, y)
  {
    var i :| 0 <= i <= |s| && OccursAt(REDACTION, s, i);
    x, y := s[..i], s[i + |REDACTION|..];
    assert x + REDACTION + y == s;
    OccursIn(s, s, 0);
  }

  lemma CompletesAfter(s: string, n: nat) returns (x: string, y: string)
    requires 0 < n < |s| && n <= |REDACTION| && EndsMarker(s, n)
    ensures Completes(s, x, y)
  {
    x, y := "", s[n..];
    var t, k := x + REDACTION + y, |REDACTION| - n;
    assert t[k..k + |s|] == s[..n] + s[n..];
    OccursIn(s, t, k);
  }

  lemma CompletesBefore(s: string, n: nat) returns (x: string, y: string)
    requires 0 < n < |s| && n <= |REDACTION| && BeginsMarker(s, n)
    ensures Completes(s, x, y)
  {
    x, y := s[..|s| - n], "";
    var t := x + REDACTION + y;
    assert t[0..|s|] == s[..|s| - n] + s[|s| - n..];
    OccursIn(s, t, 0);
  }

  lemma NotApartCompletes(s: string) returns (x: string, y: string)
    requires s != "" && !Apart(s)
    ensures Completes(s, x, y)
  {
    if Occurs(s, REDACTION) {
      x, y := "", "";
      assert x + REDACTION + y == REDACTION;
    } else if Occurs(REDACTION, s) {
      x, y := CompletesAround(s);
    } else {
      var n :| 0 < n < |s| && n <= |REDACTION| && (EndsMarker(s, n) || BeginsMarker(s, n));
      if EndsMarker(s, n) {
        x, y := CompletesAfter(s, n);
      } else {
        x, y := CompletesBefore(s, n);
      }
    }
  }

  /** A letter that neither begins nor ends the secret nor ends the text before. */
  function Filler(s: string, x: string): (c: char)
    requires s != ""
    ensures 'a' <= c <= 'd' && c != s[0] && c != s[|s| - 1] && (x != "" ==> x[|x| - 1] != c)
  {
    var used := {s[0], s[|s| - 1]} + if x == "" then {} else {x[|x| - 1]};
    if 'a' !in used then 'a' else if 'b' !in used then 'b' else if 'c' !in used then 'c' else 'd'
  }

  /** The text that leaks: a run of the filler stands where the marker will. */
  lemma FillerHides(s: string, x: string, y: string, n: nat)
    requires s != "" && |x| < |s| && |y| < |s| < n
    ensures !Occurs(s, x + Repeat(Filler(s, x), n) + y)
  {
    var c := Filler(s, x);
    var t := x + Repeat(c, n) + y;
    forall i | 0 <= i <= |t| ensures !OccursAt(s, t, i) {
      var last := i + |s| - 1;
      assert |x| <= i < |x| + n ==> t[i] == c;
      assert last < |t| && |x| <= last < |x| + n ==> t[last] == c;
      if i + |s| <= |t| { assert t[i..i + |s|][0] == t[i] && t[i..i + |s|][|s| - 1] == t[last]; }
    }
  }

  /** The run of fillers is first found where it was put. */
  lemma FillerIsFound(x: string, u: string, y: string, c: char)
    requires |x| < |u| && (forall i :: 0 <= i < |u| ==> u[i] == c) && (x != "" ==> x[|x| - 1] != c)
    ensures OccursAt(u, x + u + y, |x|) && forall j :: 0 <= j < |x| ==> !OccursAt(u, x + u + y, j)
  {
    var t := x + u + y;
    forall j | 0 <= j < |x| ensures !OccursAt(u, t, j) {
      var k := |x| - 1 - j;
      if j + |u| <= |t| { assert t[j..j + |u|][k] == t[|x| - 1] == x[|x| - 1]; }
    }
  }

  lemma ReplaceOnce(x: string, u: string, y: string)
    requires u != "" && OccursAt(u, x + u + y, |x|) && !Occurs(u, y)
    requires forall j :: 0 <= j < |x| ==> !OccursAt(u, x + u + y, j)
    ensures ReplaceAll(x + u + y, u) == x + REDACTION + y
  {
    var t := x + u + y;
    OccursIn(u, t, |x|);
    var i := FindFrom(u, t, 0);
    assert i == |x|;
    assert t[..|x|] == x && t[|x| + |u|..] == y;
  }

  lemma FillerIsReplaced(s: string, x: string, y: string, n: nat)
    requires s != "" && |x| < |s| && |y| < |s| < n
    ensures ReplaceAll(x + Repeat(Filler(s, x), n) + y, Repeat(Filler(s, x), n)) == x + REDACTION + y
  {
    var c := Filler(s, x);
    var u := Repeat(c, n);
    FillerIsFound(x, u, y, c);
    ReplaceOnce(x, u, y);
  }

  lemma RedactOne(t: string, s: string)
    requires s != ""
    ensures NonEmpty([s]) && RedactAll(t, [s]) == ReplaceAll(t, s)
  {
    var one := [s];
    assert one[..|one| - 1] == [];
  }

  lemma RedactTwo(t: string, s: string, u: string)
    requires s != "" && u != ""
    ensures NonEmpty([s, u]) && RedactAll(t, [s, u]) == ReplaceAll(ReplaceAll(t, s), u)
  {
    var two := [s, u];
    assert two[..|two| - 1] == [s];
    RedactOne(t, s);
  }

  /** With the filler listed after it, the secret comes out of a text that did not contain it. */
  lemma Leaks(s: string, x: string, y: string, n: nat)
    requires s != "" && Completes(s, x, y) && |s| < n
    ensures var u := Repeat(Filler(s, x), n);
      NonEmpty([s, u]) && RedactAll(x + u + y, [s, u]) == x + REDACTION + y
  {
    var u := Repeat(Filler(s, x), n);
    FillerHides(s, x, y, n);
    FillerIsReplaced(s, x, y, n);
    RedactTwo(x + u + y, s, u);
  }

  /** Every listed secret has at least `n` characters; the code lists only secrets of four or more. */
  ghost predicate AtLeast(secrets: seq<string>, n: nat) {
    forall i :: 0 <= i < |secrets| ==> |secrets[i]| >= n
  }

  /** With this list, no text comes out of redaction with `s` in it. */
  ghost predicate Hides(s: string, secrets: seq<string>) {
    NonEmpty(secrets) ==> forall t :: !Occurs(s, RedactAll(t, secrets))
  }

  lemma ApartIsHidden(s: string, secrets: seq<string>)
    requires Apart(s) && s in secrets
    ensures Hides(s, secrets)
  {
    var k :| 0 <= k < |secrets| && secrets[k] == s;
    forall t | NonEmpty(secrets) ensures !Occurs(s, RedactAll(t, secrets)) { NoSecretSurvives(t, secrets, k); }
  }

  lemma CompletedLeaks(s: string, x: string, y: string)
    requires s != "" && Completes(s, x, y)
    ensures !Hides(s, [s, Repeat(Filler(s, x), |s| + 1)])
  {
    var u := Repeat(Filler(s, x), |s| + 1);
    Leaks(s, x, y, |s| + 1);
    assert Occurs(s, RedactAll(x + u + y, [s, u]));
  }

  lemma LeakingList(s: string) returns (secrets: seq<string>)
    requires s != "" && !Apart(s)
    ensures AtLeast(secrets, |s|) && s in secrets && !Hides(s, secrets)
  {
    var x, y := NotApartCompletes(s);
    secrets := [s, Repeat(Filler(s, x), |s| + 1)];
    CompletedLeaks(s, x, y);
  }

  /** A listed secret is hidden in every text under every list, exactly when it is apart from the marker. */
  lemma HiddenIffApart(s: string, n: nat)
    requires 0 < n <= |s|
    ensures (forall secrets {:trigger Hides(s, secrets)} :: AtLeast(secrets, n) && s in secrets ==> Hides(s, secrets)) <==> Apart(s)
  {
    if Apart(s) {
      forall secrets | s in secrets ensures Hides(s, secrets) { ApartIsHidden(s, secrets); }
    } else {
      var secrets := LeakingList(s);
      assert AtLeast(secrets, n);
    }
  }

  // ---------------------------------------------------------------- and makes redaction unstable

  function Count(c: char, t: string): nat {
    if t == "" then 0 else (if t[0] == c then 1 else 0) + Count(c, t[1..])
  }

  lemma {:induction false} CountAppend(c: char, a: string, b: string)
    ensures Count(c, a + b) == Count(c, a) + Count(c, b)
    decreases |a|
  {
    if a == "" {
      assert a + b == b;
    } else {
      assert (a + b)[1..] == a[1..] + b;
      CountAppend(c, a[1..], b);
    }
  }

  lemma {:induction false} CountNone(c: char, s: string)
    requires c !in s
    ensures Count(c, s) == 0
    decreases |s|
  {
    if s == "" {
    } else {
      assert s == [s[0]] + s[1..];
      CountNone(c, s[1..]);
    }
  }

  lemma {:induction false} CountAtMost(c: char, s: string)
    ensures Count(c, s) <= |s|
    decreases |s|
  {
    if s == "" {
    } else {
      CountAtMost(c, s[1..]);
    }
  }

  lemma {:induction false} CountFill(c: char, n: nat)
    ensures Count(c, Repeat(c, n)) == n
    decreases n
  {
    if n == 0 {
    } else {
      assert Repeat(c, n)[1..] == Repeat(c, n - 1);
      CountFill(c, n - 1);
    }
  }

  lemma CountOfThree(c: char, a: string, x: string, b: string)
    ensures Count(c, a + x + b) == Count(c, a) + Count(c, x) + Count(c, b)
  {
    CountAppend(c, a + x, b);
    CountAppend(c, a, x);
  }

  /** Replacing cuts the text around the first occurrence. */
  lemma ReplaceStep(t: string, secret: string) returns (a: string, b: string)
    requires secret != "" && Occurs(secret, t)
    ensures t == a + secret + b && |b| < |t| && ReplaceAll(t, secret) == a + REDACTION + ReplaceAll(b, secret)
  {
    var i := FindFrom(secret, t, 0);
    a, b := t[..i], t[i + |secret|..];
  }

  /** A character the marker lacks does not become more frequent. */
  lemma {:induction false} ReplaceCounts(c: char, t: string, secret: string)
    requires secret != "" && c !in REDACTION
    ensures Count(c, ReplaceAll(t, secret)) <= Count(c, t)
    decreases |t|
  {
    if !Occurs(secret, t) {
    } else {
      var a, b := ReplaceStep(t, secret);
      ReplaceCounts(c, b, secret);
      CountNone(c, REDACTION);
      CountOfThree(c, a, secret, b);
      CountOfThree(c, a, REDACTION, ReplaceAll(b, secret));
    }
  }

  lemma FillNeedsCount(c: char, n: nat, t: string)
    requires n > 0
    ensures Occurs(Repeat(c, n), t) ==> Count(c, t) >= n
  {
    var u := Repeat(c, n);
    if Occurs(u, t) {
      var i :| 0 <= i <= |t| && OccursAt(u, t, i);
      assert t == t[..i] + u + t[i + n..];
      CountOfThree(c, t[..i], u, t[i + n..]);
      CountFill(c, n);
    }
  }

  lemma {:induction false} ReplaceLength(t: string, secret: string)
    requires secret != ""
    ensures |secret| <= |REDACTION| ==> |ReplaceAll(t, secret)| >= |t|
    ensures |secret| >= |REDACTION| ==> |ReplaceAll(t, secret)| <= |t|
    decreases |t|
  {
    if !Occurs(secret, t) {
    } else {
      var a, b := ReplaceStep(t, secret);
      ReplaceLength(b, secret);
    }
  }

  /** Replacing something else than the marker changes the text. */
  lemma ReplaceChanges(t: string, secret: string)
    requires secret != "" && secret != REDACTION && Occurs(secret, t)
    ensures ReplaceAll(t, secret) != t
  {
    var a, b := ReplaceStep(t, secret);
    ReplaceLength(b, secret);
    if |secret| == |REDACTION| {
      var r := a + REDACTION + ReplaceAll(b, secret);
      assert t[|a|..|a| + |secret|] == secret && r[|a|..|a| + |secret|] == REDACTION;
    }
  }

  lemma FillerIsApart(c: char, n: nat)
    requires 'a' <= c <= 'd' && n > 0
    ensures c !in REDACTION && Apart(Repeat(c, n))
  {
    var u := Repeat(c, n);
    assert c !in REDACTION && '[' !in u && ']' !in u;
    if Occurs(u, CORE) {
      OccurringStart(u, CORE);
    }
    ClearIsApart(u);
  }

  lemma OccurringStart(s: string, t: string)
    requires s != ""
    ensures Occurs(s, t) ==> s[0] in t
  {
    if Occurs(s, t) {
      var i :| 0 <= i <= |t| && OccursAt(s, t, i);
      assert t[i..i + |s|][0] == t[i];
    }
  }

  /** The leaked secret is redacted by a second pass, and nothing brings it back. */
  lemma SecondPassDiffers(s: string, x: string, y: string, n: nat)
    requires s != "" && s != REDACTION && Completes(s, x, y) && 2 * |s| < n
    ensures var v, u := x + REDACTION + y, Repeat(Filler(s, x), n);
      NonEmpty([s, u]) && RedactAll(v, [s, u]) != v
  {
    var v, c := x + REDACTION + y, Filler(s, x);
    FillerIsApart(c, n);
    RedactTwo(v, s, Repeat(c, n));
    ReplaceChanges(v, s);
    CountOfThree(c, x, REDACTION, y);
    CountNone(c, REDACTION);
    CountAtMost(c, x);
    CountAtMost(c, y);
    ReplaceCounts(c, v, s);
    FillNeedsCount(c, n, ReplaceAll(v, s));
  }

  /** Redacting twice is redacting once, for every text. */
  ghost predicate Stable(secrets: seq<string>) {
    NonEmpty(secrets) ==> forall t :: RedactAll(RedactAll(t, secrets), secrets) == RedactAll(t, secrets)
  }

  ghost predicate OthersApart(secrets: seq<string>, s: string) {
    forall i :: 0 <= i < |secrets| ==> secrets[i] == s || Apart(secrets[i])
  }

  lemma MarkerAmongApart(text: string, secrets: seq<string>)
    requires NonEmpty(secrets) && OthersApart(secrets, REDACTION)
    ensures RedactAll(RedactAll(text, secrets), secrets) == RedactAll(text, secrets)
  {
    forall i | 0 <= i < |secrets| && secrets[i] != REDACTION ensures !Occurs(secrets[i], RedactAll(text, secrets)) {
      NoSecretSurvives(text, secrets, i);
    }
    RedactIdle(RedactAll(text, secrets), secrets);
  }

  /** Among secrets apart from the marker, adding `s` keeps redaction idempotent exactly when `s` is apart too or is the marker. */
  lemma StableIffApart(s: string, n: nat)
    requires 0 < n <= |s|
    ensures (forall secrets {:trigger Stable(secrets)} ::
               AtLeast(secrets, n) && s in secrets && OthersApart(secrets, s) ==> Stable(secrets)) <==> Apart(s) || s == REDACTION
  {
    if Apart(s) || s == REDACTION {
      forall secrets, t | NonEmpty(secrets) && OthersApart(secrets, s)
        ensures RedactAll(RedactAll(t, secrets), secrets) == RedactAll(t, secrets)
      {
        if s == REDACTION { MarkerAmongApart(t, secrets); } else { RedactAllIdempotent(t, secrets); }
      }
    } else {
      var secrets := UnstableList(s);
    }
  }

  lemma UnstableList(s: string) returns (secrets: seq<string>)
    requires s != "" && !Apart(s) && s != REDACTION
    ensures AtLeast(secrets, |s|) && s in secrets && OthersApart(secrets, s) && !Stable(secrets)
  {
    var x, y := NotApartCompletes(s);
    var n := 2 * |s| + 1;
    var u := Repeat(Filler(s, x), n);
    secrets := [s, u];
    FillerIsApart(Filler(s, x), n);
    Leaks(s, x, y, n);
    SecondPassDiffers(s, x, y, n);
    assert RedactAll(RedactAll(x + u + y, secrets), secrets) != RedactAll(x + u + y, secrets);
  }

  /** A bracket can carry a secret across the marker, depending on the order of the list. */
  lemma BracketSecretCanSurvive()
    ensures RedactAll("xxxxabc", ["]abc", "xxxx"]) == "[REDACTED]abc"
    ensures Occurs("]abc", "[REDACTED]abc")
  {
    var t, secrets := "xxxxabc", ["]abc", "xxxx"];
    RedactTwo(t, "]abc", "xxxx");
    OccurringStart("]abc", t);
    assert ReplaceAll(t, "]abc") == t;
    assert OccursAt("xxxx", t, 0);
    var rest := t[4..];
    assert rest == "abc";
    assert !Occurs("xxxx", rest);
    assert t[..0] + REDACTION + rest == "[REDACTED]abc";
    assert "[REDACTED]abc"[9..13] == "]abc";
    assert OccursAt("]abc", "[REDACTED]abc", 9);
  }

  // ---------------------------------------------------------------- secrets without brackets

  /** No bracket, and not inside the marker's word. */
  ghost predicate Clear(s: string) {
    s != "" && '[' !in s && ']' !in s && !Occurs(s, CORE)
  }

  lemma MarkerInside(s: string)
    ensures Occurs(REDACTION, s) ==> '[' in s
  {
    OccurringStart(REDACTION, s);
  }

  /** An occurrence in the marker without a bracket lies inside the word. */
  lemma InMarkerAt(s: string, i: nat)
    requires s != "" && '[' !in s && ']' !in s && OccursAt(s, REDACTION, i)
    ensures 1 <= i && i + |s| <= 9
  {
    assert s[0] == REDACTION[i..i + |s|][0] == REDACTION[i];
    assert s[|s| - 1] == REDACTION[i..i + |s|][|s| - 1] == REDACTION[i + |s| - 1];
    assert REDACTION[0] == '[' && REDACTION[9] == ']';
  }

  lemma InMarkerIsInWord(s: string)
    requires s != "" && '[' !in s && ']' !in s
    ensures Occurs(s, REDACTION) <==> Occurs(s, CORE)
  {
    var r := REDACTION;
    assert r[1..9] == CORE;
    if Occurs(s, CORE) { OccursInPart(s, r, 1, 9); }
    if Occurs(s, r) {
      var i :| 0 <= i <= |r| && OccursAt(s, r, i);
      InMarkerAt(s, i);
      SliceOfSlice(r, 1, 9, i - 1, i - 1 + |s|);
      OccursIn(s, r[1..9], i - 1);
    }
  }

  /** A bracket-free secret is apart from the marker exactly when it is not part of the marker's word. */
  lemma ClearIsApart(s: string)
    requires s != "" && '[' !in s && ']' !in s
    ensures Apart(s) <==> Clear(s)
  {
    InMarkerIsInWord(s);
    MarkerInside(s);
    forall n | 0 < n < |s| && n <= |REDACTION| ensures !EndsMarker(s, n) && !BeginsMarker(s, n) {
      assert s[..n][n - 1] == s[n - 1] && s[|s| - n..][0] == s[|s| - n];
      assert REDACTION[|REDACTION| - n..][n - 1] == ']' && REDACTION[..n][0] == '[';
    }
  }

  ghost predicate BracketFree(secrets: seq<string>) {
    forall i :: 0 <= i < |secrets| ==> secrets[i] != "" && '[' !in secrets[i] && ']' !in secrets[i]
  }

  lemma {:induction false} ReplaceAddsBrackets(t: string, secret: string)
    requires secret != "" && '[' !in secret
    ensures Count('[', ReplaceAll(t, secret)) >= Count('[', t)
    ensures Occurs(secret, t) ==> Count('[', ReplaceAll(t, secret)) > Count('[', t)
    decreases |t|
  {
    if !Occurs(secret, t) {
    } else {
      var a, b := ReplaceStep(t, secret);
      ReplaceAddsBrackets(b, secret);
      CountOfThree('[', a, secret, b);
      CountOfThree('[', a, REDACTION, ReplaceAll(b, secret));
      CountNone('[', secret);
      MarkerHasOne();
    }
  }

  lemma MarkerHasOne()
    ensures Count('[', REDACTION) == 1
  {
    assert REDACTION == "[" + "REDACTED]";
    CountNone('[', "REDACTED]");
    CountAppend('[', "[", "REDACTED]");
  }

  lemma {:induction false} RedactAddsBrackets(t: string, secrets: seq<string>)
    requires NonEmpty(secrets) && BracketFree(secrets)
    ensures Count('[', RedactAll(t, secrets)) >= Count('[', t)
    ensures RedactAll(t, secrets) == t || Count('[', RedactAll(t, secrets)) > Count('[', t)
    decreases |secrets|
  {
    if secrets == [] {
    } else {
      var n := |secrets| - 1;
      RedactAddsBrackets(t, secrets[..n]);
      ReplaceAddsBrackets(RedactAll(t, secrets[..n]), secrets[n]);
    }
  }

  lemma LastReplacementIdle(t: string, u: string, secret: string)
    requires secret != "" && '[' !in secret && ReplaceAll(u, secret) == t
    requires u == t || Count('[', u) > Count('[', t)
    ensures u == t && !Occurs(secret, t)
  {
    ReplaceAddsBrackets(u, secret);
  }

  /** A text that redaction leaves alone contains no secret at all. */
  lemma {:induction false} FixedTextIsClean(t: string, secrets: seq<string>, k: nat)
    requires NonEmpty(secrets) && BracketFree(secrets) && k < |secrets| && RedactAll(t, secrets) == t
    ensures !Occurs(secrets[k], t)
    decreases |secrets|
  {
    var n := |secrets| - 1;
    RedactAddsBrackets(t, secrets[..n]);
    LastReplacementIdle(t, RedactAll(t, secrets[..n]), secrets[n]);
    if k == n {
    } else {
      FixedTextIsClean(t, secrets[..n], k);
    }
  }

  lemma MarkerAppears(t: string, secret: string)
    requires secret != "" && (Occurs(secret, t) || Occurs(REDACTION, t))
    ensures Occurs(REDACTION, ReplaceAll(t, secret))
  {
    if Occurs(secret, t) {
      var i := FindFrom(secret, t, 0);
      var r := ReplaceAll(t, secret);
      assert r[i..i + |REDACTION|] == REDACTION;
      OccursIn(REDACTION, r, i);
    }
  }

  /** Redacting a text that is itself a listed secret leaves a marker. */
  lemma {:induction false} SecretBecomesMarker(secrets: seq<string>, n: nat, k: nat)
    requires NonEmpty(secrets) && k < |secrets| && n <= |secrets|
    ensures RedactAll(secrets[k], secrets[..n]) == secrets[k] || Occurs(REDACTION, RedactAll(secrets[k], secrets[..n]))
    ensures k < n ==> Occurs(REDACTION, RedactAll(secrets[k], secrets[..n]))
    decreases n
  {
    if n == 0 {
    } else {
      SecretBecomesMarker(secrets, n - 1, k);
      assert secrets[..n][..n - 1] == secrets[..n - 1];
      var u := RedactAll(secrets[k], secrets[..n - 1]);
      if Occurs(secrets[n - 1], u) || Occurs(REDACTION, u) {
        MarkerAppears(u, secrets[n - 1]);
      } else {
        assert k != n - 1 by { if k == n - 1 { OccursIn(secrets[k], u, 0); } }
      }
    }
  }

  lemma OccursTransitive(s: string, m: string, t: string)
    requires Occurs(s, m) && Occurs(m, t)
    ensures Occurs(s, t)
  {
    var i :| 0 <= i <= |t| && OccursAt(m, t, i);
    OccursInPart(s, t, i, i + |m|);
  }

  /** A secret inside the marker's word survives its own redaction. */
  lemma MarkerHoldsWord(s: string, u: string)
    requires Occurs(s, CORE) && Occurs(REDACTION, u)
    ensures Occurs(s, u)
  {
    assert REDACTION[1..9] == CORE;
    OccursInPart(s, REDACTION, 1, 9);
    OccursTransitive(s, REDACTION, u);
  }

  lemma WordSecretSurvives(secrets: seq<string>, k: nat)
    requires NonEmpty(secrets) && k < |secrets| && Occurs(secrets[k], CORE)
    ensures Occurs(secrets[k], RedactAll(secrets[k], secrets))
  {
    SecretBecomesMarker(secrets, |secrets|, k);
    assert secrets[..|secrets|] == secrets;
    MarkerHoldsWord(secrets[k], RedactAll(secrets[k], secrets));
  }

  /** No secret is part of the marker's word: what a caller can check of the list. */
  ghost predicate WordFree(secrets: seq<string>) {
    forall k :: 0 <= k < |secrets| ==> !Occurs(secrets[k], CORE)
  }

  /** The redacted text contains no listed secret. */
  ghost predicate Hidden(t: string, secrets: seq<string>)
    requires NonEmpty(secrets)
  {
    forall k :: 0 <= k < |secrets| ==> !Occurs(secrets[k], RedactAll(t, secrets))
  }

  lemma WordFreeIsApart(secrets: seq<string>)
    requires BracketFree(secrets) && WordFree(secrets)
    ensures AllApart(secrets)
  {
    forall k | 0 <= k < |secrets| ensures Apart(secrets[k]) { ClearIsApart(secrets[k]); }
  }

  lemma WordSecretBreaks(secrets: seq<string>, k: nat)
    requires NonEmpty(secrets) && BracketFree(secrets) && k < |secrets| && Occurs(secrets[k], CORE)
    ensures !Hidden(secrets[k], secrets) && !Stable(secrets)
  {
    WordSecretSurvives(secrets, k);
    var u := RedactAll(secrets[k], secrets);
    if RedactAll(u, secrets) == u { FixedTextIsClean(u, secrets, k); }
  }

  /**
   For one given list of bracket-free secrets, redaction hides all of them in every
   text exactly when none is part of the marker's word.
   */
  lemma HidesIff(secrets: seq<string>)
    requires NonEmpty(secrets) && BracketFree(secrets)
    ensures (forall t {:trigger Hidden(t, secrets)} :: Hidden(t, secrets)) <==> WordFree(secrets)
  {
    if WordFree(secrets) {
      WordFreeIsApart(secrets);
      forall t, k | 0 <= k < |secrets| ensures !Occurs(secrets[k], RedactAll(t, secrets)) { NoSecretSurvives(t, secrets, k); }
    } else {
      var k :| 0 <= k < |secrets| && Occurs(secrets[k], CORE);
      WordSecretBreaks(secrets, k);
    }
  }

  /** The same condition decides whether redaction with that list is idempotent. */
  lemma IdempotentIff(secrets: seq<string>)
    requires NonEmpty(secrets) && BracketFree(secrets)
    ensures Stable(secrets) <==> WordFree(secrets)
  {
    if WordFree(secrets) {
      WordFreeIsApart(secrets);
      forall t ensures RedactAll(RedactAll(t, secrets), secrets) == RedactAll(t, secrets) { RedactAllIdempotent(t, secrets); }
    } else {
      var k :| 0 <= k < |secrets| && Occurs(secrets[k], CORE);
      WordSecretBreaks(secrets, k);
    }
  }

  // ---------------------------------------------------------------- values

  /** No secret in any string leaf. */
  ghost predicate Leakless(v: Value, secrets: seq<string>) {
    match v
    case Str(s) => forall k :: 0 <= k < |secrets| ==> !Occurs(secrets[k], s)
    case List(items) => forall i :: 0 <= i < |items| ==> Leakless(items[i], secrets)
    case Tuple(items) => forall i :: 0 <= i < |items| ==> Leakless(items[i], secrets)
    case Dict(entries) => forall i :: 0 <= i < |entries| ==> Leakless(entries[i].value, secrets)
    case _ => true
  }

  lemma MarkerIsLeakless(secrets: seq<string>)
    requires AllApart(secrets)
    ensures Leakless(Str(REDACTION), secrets)
  {
  }

  /** After redaction no listed secret occurs in any string leaf of the value. */
  lemma {:induction false} RedactedValueIsLeakless(v: Value, environ: seq<(string, string)>)
    requires AllApart(Secrets(environ))
    ensures Leakless(Redact(v, environ), Secrets(environ))
    decreases v
  {
    var secrets := Secrets(environ);
    match v
    case Str(s) =>
      forall k | 0 <= k < |secrets| ensures !Occurs(secrets[k], RedactString(s, environ)) {
        NoSecretSurvives(s, secrets, k);
      }
    case List(items) =>
      forall i | 0 <= i < |items| { RedactedValueIsLeakless(items[i], environ); }
    case Tuple(items) =>
      forall i | 0 <= i < |items| { RedactedValueIsLeakless(items[i], environ); }
    case Dict(entries) =>
      forall i | 0 <= i < |entries| ensures Leakless(RedactEntry(entries[i], environ).value, secrets) {
        MarkerIsLeakless(secrets);
        if !IsSensitiveKey(entries[i].key) { RedactedValueIsLeakless(entries[i].value, environ); }
      }
    case _ =>
  }

  /** Redacting a redacted value changes nothing. */
  lemma {:induction false} RedactIdempotent(v: Value, environ: seq<(string, string)>)
    requires AllApart(Secrets(environ))
    ensures Redact(Redact(v, environ), environ) == Redact(v, environ)
    decreases v
  {
    match v
    case Str(s) => RedactAllIdempotent(s, Secrets(environ));
    case List(items) =>
      forall i | 0 <= i < |items| { RedactIdempotent(items[i], environ); }
      assert RedactItems(RedactItems(items, environ), environ) == RedactItems(items, environ);
    case Tuple(items) =>
      forall i | 0 <= i < |items| { RedactIdempotent(items[i], environ); }
      assert RedactItems(RedactItems(items, environ), environ) == RedactItems(items, environ);
    case Dict(entries) =>
      forall i | 0 <= i < |entries|
        ensures RedactEntry(RedactEntry(entries[i], environ), environ) == RedactEntry(entries[i], environ)
      {
        if !IsSensitiveKey(entries[i].key) { RedactIdempotent(entries[i].value, environ); }
      }
      assert RedactEntries(RedactEntries(entries, environ), environ) == RedactEntries(entries, environ);
    case _ =>
  }

  /** What redaction must keep: `r` has `v`'s shape, keys and every non-string, non-sensitive leaf. */
  ghost predicate KeepsShape(v: Value, r: Value) {
    match v
    case Str(_) => r.Str?
    case List(items) => r.List? && |r.items| == |items| && forall i :: 0 <= i < |items| ==> KeepsShape(items[i], r.items[i])
    case Tuple(items) => r.Tuple? && |r.items| == |items| && forall i :: 0 <= i < |items| ==> KeepsShape(items[i], r.items[i])
    case Dict(entries) =>
      r.Dict? && |r.entries| == |entries| && forall i :: 0 <= i < |entries| ==>
        r.entries[i].key == entries[i].key
        && if !IsSensitiveKey(entries[i].key) then KeepsShape(entries[i].value, r.entries[i].value)
           else if entries[i].value.Bool? || entries[i].value.Null? then r.entries[i].value == entries[i].value
           else r.entries[i].value == Str(REDACTION)
    case _ => r == v
  }

  lemma {:induction false} RedactKeepsShape(v: Value, environ: seq<(string, string)>)
    ensures KeepsShape(v, Redact(v, environ))
    decreases v
  {
    match v
    case List(items) =>
      forall i | 0 <= i < |items| { RedactKeepsShape(items[i], environ); }
    case Tuple(items) =>
      forall i | 0 <= i < |items| { RedactKeepsShape(items[i], environ); }
    case Dict(entries) =>
      forall i | 0 <= i < |entries| { RedactKeepsShape(entries[i].value, environ); }
    case _ =>
  }
}
