/**
 The text in which function calls are looked for: string literals masked, then comments
 stripped. Proved against one reading by the splitter's automaton, with the exact
 condition under which the two scanners in sequence read the text as the splitter does.
 */
module SqlCallable {
  import opened Sequences
  import opened SqlSplit
  import opened SqlMasks
  import SqlStrip

  function Callable(s: string): string {
    SqlStrip.EmitNormal(MaskStrings(s))
  }

  // ---------------------------------------------------------------- one reading

  /** The half mark that is kept back until it is known whether it opens a comment. */
  function Pending(q: Q): string {
    if q == Dash then "-" else if q == Slash then "/" else ""
  }

  /** What a character at top level shows at once. */
  function ShownTop(c: char): string {
    if c == '-' || c == '/' then "" else if c == '\'' then " " else [c]
  }

  /** Reading `c` in state `q`: strings become blanks, comments a blank per mark, a line comment keeps its newline. */
  function Out(q: Q, c: char): string {
    match q
    case Top => ShownTop(c)
    case Dash => if c == '-' then " " else "-" + ShownTop(c)
    case Slash => if c == '*' then " " else "/" + ShownTop(c)
    case InSingle => " "
    case InDouble => [c]
    case InLine => if c == '\n' then "\n" else ""
    case InBlock => ""
    case Star => if c == '/' then " " else ""
  }

  /** The whole text, read from `q` by the splitter's automaton. */
  function Visible(q: Q, s: string): string
    decreases |s|
  {
    if s == "" then Pending(q) else Out(q, s[0]) + Visible(Delta(q, s[0]), s[1..])
  }

  // ---------------------------------------------------------------- the stripper, read by the automaton

  lemma VisibleTwo(q: Q, t: string)
    requires |t| >= 2
    ensures Visible(q, t) == Out(q, t[0]) + (Out(Delta(q, t[0]), t[1]) + Visible(Delta(Delta(q, t[0]), t[1]), t[2..]))
  {
    assert t[1..][1..] == t[2..];
  }

  /** A half mark that is not completed stands for itself. */
  lemma HalfMark(q: Q, t: string)
    requires q == Dash || q == Slash
    requires t != "" ==> t[0] != (if q == Dash then '-' else '*')
    ensures Visible(q, t) == Pending(q) + Visible(Top, t)
  {
  }

  lemma StarIsBlock(t: string)
    requires t != "" ==> t[0] != '/'
    ensures Visible(Star, t) == Visible(InBlock, t)
  {
  }

  lemma {:induction false} EmitIsVisible(t: string)
    requires '\'' !in t
    ensures SqlStrip.EmitNormal(t) == Visible(Top, t)
    decreases |t|, 1
  {
    if t == "" {
    } else {
      assert t == [t[0]] + t[1..];
      if t[0] == '"' {
        QuotedIsVisible(t[1..]);
      } else if SqlStrip.Starts(t, '-', '-') {
        assert t[1..] == [t[1]] + t[2..];
        LineIsVisible(t[2..]);
        VisibleTwo(Top, t);
      } else if SqlStrip.Starts(t, '/', '*') {
        assert t[1..] == [t[1]] + t[2..];
        BlockIsVisible(t[2..]);
        VisibleTwo(Top, t);
      } else {
        EmitIsVisible(t[1..]);
        if t[0] == '-' || t[0] == '/' { HalfMark(Delta(Top, t[0]), t[1..]); }
      }
    }
  }

  lemma {:induction false} QuotedIsVisible(t: string)
    requires '\'' !in t
    ensures SqlStrip.EmitQuoted(t) == Visible(InDouble, t)
    decreases |t|, 0
  {
    if t == "" {
    } else {
      assert t == [t[0]] + t[1..];
      if SqlStrip.Starts(t, '"', '"') {
        assert t[1..] == [t[1]] + t[2..];
        QuotedIsVisible(t[2..]);
        VisibleTwo(InDouble, t);
      } else if t[0] == '"' {
        EmitIsVisible(t[1..]);
      } else {
        QuotedIsVisible(t[1..]);
      }
    }
  }

  lemma {:induction false} LineIsVisible(t: string)
    requires '\'' !in t
    ensures SqlStrip.EmitLine(t) == Visible(InLine, t)
    decreases |t|, 0
  {
    if t == "" {
    } else {
      assert t == [t[0]] + t[1..];
      if t[0] == '\n' { EmitIsVisible(t[1..]); } else { LineIsVisible(t[1..]); }
    }
  }

  lemma {:induction false} BlockIsVisible(t: string)
    requires '\'' !in t
    ensures SqlStrip.EmitBlock(t) == Visible(InBlock, t)
    decreases |t|, 0
  {
    if t == "" {
    } else {
      assert t == [t[0]] + t[1..];
      if SqlStrip.Starts(t, '*', '/') {
        assert t[1..] == [t[1]] + t[2..];
        EmitIsVisible(t[2..]);
        VisibleTwo(InBlock, t);
      } else {
        BlockIsVisible(t[1..]);
        if t[0] == '*' { StarIsBlock(t[1..]); }
      }
    }
  }

  // ---------------------------------------------------------------- the mask, read by the automaton

  function MaskFrom(odd: bool, s: string): string
    decreases |s|
  {
    if s == "" then "" else [Masked(odd, s[0])] + MaskFrom(odd != (s[0] == '\''), s[1..])
  }

  function Masked(odd: bool, c: char): char {
    if odd || c == '\'' then ' ' else c
  }

  /** An odd number of quotes comes before `i`, with `odd` counted in. */
  predicate OddFrom(odd: bool, s: string, i: nat)
    requires i <= |s|
  {
    odd != OddBefore(s, i)
  }

  lemma {:induction false} QuotesAppend(a: string, b: string)
    ensures Quotes(a + b) == Quotes(a) + Quotes(b)
    decreases |b|
  {
    if b == "" {
      assert a + b == a;
    } else {
      assert (a + b)[..|a + b| - 1] == a + b[..|b| - 1];
      QuotesAppend(a, b[..|b| - 1]);
    }
  }

  lemma OddShift(odd: bool, s: string, i: nat)
    requires i < |s|
    ensures OddFrom(odd, s, i + 1) <==> OddFrom(odd != (s[0] == '\''), s[1..], i)
  {
    assert s[..i + 1] == [s[0]] + s[1..][..i];
    QuotesAppend([s[0]], s[1..][..i]);
    assert [s[0]][..0] == "";
  }

  lemma {:induction false} MaskFromAt(odd: bool, s: string)
    ensures |MaskFrom(odd, s)| == |s|
    ensures forall i :: 0 <= i < |s| ==> MaskFrom(odd, s)[i] == Masked(OddFrom(odd, s, i), s[i])
    decreases |s|
  {
    if s == "" {
    } else {
      var odd' := odd != (s[0] == '\'');
      MaskFromAt(odd', s[1..]);
      assert s[..0] == "";
      forall i | 1 <= i < |s| ensures MaskFrom(odd, s)[i] == Masked(OddFrom(odd, s, i), s[i]) {
        OddShift(odd, s, i - 1);
      }
    }
  }

  lemma MaskStringsIsMaskFrom(s: string)
    ensures MaskStrings(s) == MaskFrom(false, s)
  {
    MaskFromAt(false, s);
  }

  lemma CallableIsVisible(s: string)
    ensures Callable(s) == Visible(Top, MaskFrom(false, s))
  {
    MaskStringsIdempotent(s);
    EmitIsVisible(MaskStrings(s));
    MaskStringsIsMaskFrom(s);
  }

  // ---------------------------------------------------------------- when both read alike

  /** Outside string literals and comments. */
  predicate IsCode(q: Q) {
    IsTop(q) || q == InDouble
  }

  predicate Good(q: Q, odd: bool) {
    (IsCode(q) ==> !odd) && (q == InSingle ==> odd)
  }

  /** The automaton's state on the masked text. */
  function OnMasked(q: Q, odd: bool): Q {
    if q == InSingle then Top else if q == Star && odd then InBlock else q
  }

  lemma MaskedStep(q: Q, odd: bool, c: char)
    requires Good(q, odd) && Good(Delta(q, c), odd != (c == '\''))
    ensures Out(OnMasked(q, odd), Masked(odd, c)) == Out(q, c)
    ensures Delta(OnMasked(q, odd), Masked(odd, c)) == OnMasked(Delta(q, c), odd != (c == '\''))
  {
  }

  lemma VisibleOne(q: Q, c: char)
    ensures Visible(q, [c]) == Out(q, c) + Pending(Delta(q, c))
  {
    assert [c][1..] == "";
  }

  lemma BadStep(q: Q, odd: bool, c: char)
    requires Good(q, odd) && !Good(Delta(q, c), odd != (c == '\''))
    ensures Visible(OnMasked(q, odd), [Masked(odd, c)]) != Visible(q, [c])
  {
    VisibleOne(q, c);
    VisibleOne(OnMasked(q, odd), Masked(odd, c));
    if q == InDouble {
      assert Visible(q, [c])[0] == '\'' && Visible(InDouble, [' '])[0] == ' ';
    }
  }

  /** Read from `q` with the quotes counted so far: an even number comes before all code. */
  predicate EvenFrom(q: Q, odd: bool, s: string)
    decreases |s|
  {
    (IsCode(q) ==> !odd) && (s == "" || EvenFrom(Delta(q, s[0]), odd != (s[0] == '\''), s[1..]))
  }

  lemma GoodStep(q: Q, odd: bool, c: char)
    requires Good(q, odd)
    ensures var odd', q' := odd != (c == '\''), Delta(q, c); Good(q', odd') <==> (IsCode(q') ==> !odd')
  {
  }

  ghost predicate SameView(q: Q, odd: bool, read: string) {
    Visible(OnMasked(q, odd), MaskFrom(odd, read)) == Visible(q, read)
  }

  ghost predicate SameViews(q: Q, odd: bool, s: string) {
    forall k :: 0 <= k <= |s| ==> SameView(q, odd, s[..k])
  }

  lemma SameViewStep(q: Q, odd: bool, c: char, rest: string)
    requires Good(q, odd)
    ensures var odd', q' := odd != (c == '\''), Delta(q, c);
      Good(q', odd') ==> (SameView(q, odd, [c] + rest) <==> SameView(q', odd', rest))
  {
    var odd', q' := odd != (c == '\''), Delta(q, c);
    if Good(q', odd') {
      MaskedStep(q, odd, c);
      VisibleCons(q, c, rest);
      MaskCons(odd, c, rest);
      VisibleCons(OnMasked(q, odd), Masked(odd, c), MaskFrom(odd', rest));
      Cancel(Out(q, c), Visible(OnMasked(q', odd'), MaskFrom(odd', rest)), Visible(q', rest));
    }
  }

  lemma VisibleCons(q: Q, c: char, rest: string)
    ensures Visible(q, [c] + rest) == Out(q, c) + Visible(Delta(q, c), rest)
  {
    assert ([c] + rest)[1..] == rest;
  }

  lemma MaskCons(odd: bool, c: char, rest: string)
    ensures MaskFrom(odd, [c] + rest) == [Masked(odd, c)] + MaskFrom(odd != (c == '\''), rest)
  {
    assert ([c] + rest)[1..] == rest;
  }

  lemma Cancel(a: string, b: string, c: string)
    ensures a + b == a + c <==> b == c
  {
    assert (a + b)[|a|..] == b && (a + c)[|a|..] == c;
  }

  lemma SameViewsStep(q: Q, odd: bool, s: string)
    requires s != "" && Good(q, odd)
    ensures var odd', q' := odd != (s[0] == '\''), Delta(q, s[0]);
      Good(q', odd') ==> (SameViews(q, odd, s) <==> SameViews(q', odd', s[1..]))
  {
    var odd', q' := odd != (s[0] == '\''), Delta(q, s[0]);
    var rest := s[1..];
    if Good(q', odd') {
      forall k | 0 <= k <= |rest| ensures SameView(q', odd', rest[..k]) <==> SameView(q, odd, s[..k + 1]) {
        assert s[..k + 1] == [s[0]] + rest[..k];
        SameViewStep(q, odd, s[0], rest[..k]);
      }
      forall k | 1 <= k <= |s| ensures SameView(q, odd, s[..k]) <==> SameView(q', odd', rest[..k - 1]) {
        assert s[..k] == [s[0]] + rest[..k - 1];
        SameViewStep(q, odd, s[0], rest[..k - 1]);
      }
      assert s[..0] == "" && SameView(q, odd, "");
    }
  }

  lemma BadStepDiffers(q: Q, odd: bool, s: string)
    requires s != "" && Good(q, odd) && !Good(Delta(q, s[0]), odd != (s[0] == '\''))
    ensures !SameViews(q, odd, s)
  {
    BadStep(q, odd, s[0]);
    assert s[..1] == [s[0]];
    assert MaskFrom(odd, [s[0]]) == [Masked(odd, s[0])];
    assert !SameView(q, odd, s[..1]);
  }

  lemma {:induction false} SameViewsIff(q: Q, odd: bool, s: string)
    requires Good(q, odd)
    ensures SameViews(q, odd, s) <==> EvenFrom(q, odd, s)
    decreases |s|
  {
    if s == "" {
    } else {
      var odd', q' := odd != (s[0] == '\''), Delta(q, s[0]);
      GoodStep(q, odd, s[0]);
      if Good(q', odd') {
        SameViewsStep(q, odd, s);
        SameViewsIff(q', odd', s[1..]);
      } else {
        BadStepDiffers(q, odd, s);
      }
    }
  }

  /** Position `i`, read outside strings and comments, comes after an odd number of quotes. */
  predicate OddCodeAt(q: Q, odd: bool, s: string, i: nat)
    requires i <= |s|
  {
    IsCode(Run(q, s[..i])) && OddFrom(odd, s, i)
  }

  lemma OddCodeShift(q: Q, odd: bool, s: string, i: nat)
    requires i < |s|
    ensures OddCodeAt(q, odd, s, i + 1) <==> OddCodeAt(Delta(q, s[0]), odd != (s[0] == '\''), s[1..], i)
  {
    assert s[..i + 1][1..] == s[1..][..i];
    OddShift(odd, s, i);
  }

  lemma {:induction false} EvenFromPointwise(q: Q, odd: bool, s: string)
    ensures EvenFrom(q, odd, s) <==> forall i :: 0 <= i <= |s| ==> !OddCodeAt(q, odd, s, i)
    decreases |s|
  {
    assert s[..0] == "";
    assert OddCodeAt(q, odd, s, 0) <==> IsCode(q) && odd;
    if s == "" {
    } else {
      var odd', q', rest := odd != (s[0] == '\''), Delta(q, s[0]), s[1..];
      EvenFromPointwise(q', odd', rest);
      forall i | 0 <= i < |s| ensures OddCodeAt(q, odd, s, i + 1) <==> OddCodeAt(q', odd', rest, i) {
        OddCodeShift(q, odd, s, i);
      }
      forall i | 1 <= i <= |s| ensures OddCodeAt(q, odd, s, i) <==> OddCodeAt(q', odd', rest, i - 1) {
        OddCodeShift(q, odd, s, i - 1);
      }
    }
  }

  /** Before every position outside strings and comments stands an even number of single quotes. */
  ghost predicate EvenBeforeCode(s: string) {
    forall i :: 0 <= i <= |s| && IsCode(Run(Top, s[..i])) ==> !OddBefore(s, i)
  }

  lemma EvenIffFrom(s: string)
    ensures EvenBeforeCode(s) <==> EvenFrom(Top, false, s)
  {
    EvenFromPointwise(Top, false, s);
    forall i | 0 <= i <= |s| ensures OddCodeAt(Top, false, s, i) <==> IsCode(Run(Top, s[..i])) && OddBefore(s, i) {}
  }

  lemma CallableIsSameView(s: string)
    ensures Callable(s) == Visible(Top, s) <==> SameView(Top, false, s)
  {
    CallableIsVisible(s);
  }

  /**
   Masking strings and then stripping comments reads a text and all its beginnings as the
   splitter does exactly when an even number of single quotes stands before all its code.
   */
  lemma CallableIff(s: string)
    ensures (forall k :: 0 <= k <= |s| ==> Callable(s[..k]) == Visible(Top, s[..k])) <==> EvenBeforeCode(s)
  {
    SameViewsIff(Top, false, s);
    EvenIffFrom(s);
    forall k | 0 <= k <= |s| ensures Callable(s[..k]) == Visible(Top, s[..k]) <==> SameView(Top, false, s[..k]) {
      CallableIsSameView(s[..k]);
    }
  }

  // ---------------------------------------------------------------- all code is kept

  /** What is shown of the beginning `s` while a half mark at its end is still open. */
  function Shown(q: Q, s: string): string
    decreases |s|
  {
    if s == "" then "" else Out(q, s[0]) + Shown(Delta(q, s[0]), s[1..])
  }

  lemma {:induction false} VisibleAppend(q: Q, a: string, b: string)
    ensures Visible(q, a + b) == Shown(q, a) + Visible(Run(q, a), b)
    decreases |a|
  {
    if a == "" {
      assert a + b == b;
    } else {
      assert (a + b)[1..] == a[1..] + b;
      VisibleAppend(Delta(q, a[0]), a[1..], b);
      Assoc(Out(q, a[0]), Shown(Delta(q, a[0]), a[1..]), Visible(Run(q, a), b));
    }
  }

  lemma VisibleIsShown(q: Q, s: string)
    ensures Visible(q, s) == Shown(q, s) + Pending(Run(q, s))
  {
    VisibleAppend(q, s, "");
    assert s + "" == s;
  }

  /** The first character of `rest`, read in `q`, is code: no quote of a string and no part of a comment's opening. */
  predicate CodeFirst(q: Q, rest: string) {
    && rest != "" && IsCode(q)
    && (q != InDouble ==> rest[0] != '\'')
    && !(q == Dash && rest[0] == '-') && !(q == Slash && rest[0] == '*')
    && (q != InDouble ==> !SqlStrip.Starts(rest, '-', '-') && !SqlStrip.Starts(rest, '/', '*'))
  }

  /** The state without the memory of a half mark. */
  function Settled(q: Q): Q {
    if IsTop(q) then Top else q
  }

  /** Code is shown as it is, once it is known to open no comment. */
  lemma CodeOut(q: Q, rest: string)
    requires CodeFirst(q, rest)
    ensures Out(q, rest[0]) + Pending(Delta(q, rest[0])) == Pending(q) + [rest[0]]
    ensures Visible(Delta(q, rest[0]), rest[1..]) == Pending(Delta(q, rest[0])) + Visible(Settled(Delta(q, rest[0])), rest[1..])
  {
    var q' := Delta(q, rest[0]);
    if q' == Dash || q' == Slash { HalfMark(q', rest[1..]); }
  }

  lemma CodeFirstShown(q: Q, rest: string)
    requires CodeFirst(q, rest)
    ensures Visible(q, rest) == Pending(q) + [rest[0]] + Visible(Settled(Delta(q, rest[0])), rest[1..])
  {
    var c, q' := rest[0], Delta(q, rest[0]);
    CodeOut(q, rest);
    Assoc(Out(q, c), Pending(q'), Visible(Settled(q'), rest[1..]));
  }

  lemma Between(shown: string, pending: string, c: char, after: string)
    ensures shown + (pending + [c] + after) == shown + pending + [c] + after
  {
  }

  /** Each character of the code stands between what is shown of the text before it and of the text after it. */
  lemma CodeIsShown(s: string, i: nat)
    requires i < |s| && CodeFirst(Run(Top, s[..i]), s[i..])
    ensures Visible(Top, s) ==
      Visible(Top, s[..i]) + [s[i]] + Visible(Settled(Delta(Run(Top, s[..i]), s[i])), s[i + 1..])
  {
    var q, a, b := Run(Top, s[..i]), s[..i], s[i..];
    assert s == a + b && b[1..] == s[i + 1..];
    VisibleAppend(Top, a, b);
    VisibleIsShown(Top, a);
    CodeFirstShown(q, b);
    Between(Shown(Top, a), Pending(q), s[i], Visible(Settled(Delta(q, s[i])), s[i + 1..]));
  }

  // ---------------------------------------------------------------- a quote inside a comment

  lemma {:induction false} OddIsBlank(s: string)
    requires '\'' !in s
    ensures Visible(InLine, MaskFrom(true, s)) == ""
    decreases |s|
  {
    if s == "" {
    } else {
      assert s == [s[0]] + s[1..];
      OddIsBlank(s[1..]);
      MaskCons(true, s[0], s[1..]);
      VisibleCons(InLine, ' ', MaskFrom(true, s[1..]));
    }
  }

  /** After a line comment with one quote, nothing up to the next quote is shown. */
  lemma QuoteInCommentHides(code: string)
    requires '\'' !in code
    ensures Callable("--'\n" + code) == " "
    ensures Visible(Top, "--'\n" + code) == " \n" + Visible(Top, code)
  {
    CallableIsVisible("--'\n" + code);
    HiddenLine(code);
    ShownLine(code);
  }

  lemma ShownLine(code: string)
    ensures Visible(Top, "--'\n" + code) == " \n" + Visible(Top, code)
  {
    var a, b := "'\n" + code, "\n" + code;
    assert "--'\n" + code == ['-'] + (['-'] + a) && a == ['\''] + b && b == ['\n'] + code;
    VisibleCons(Top, '-', ['-'] + a);
    VisibleCons(Dash, '-', a);
    VisibleCons(InLine, '\'', b);
    VisibleCons(InLine, '\n', code);
  }

  lemma HiddenLine(code: string)
    requires '\'' !in code
    ensures Visible(Top, MaskFrom(false, "--'\n" + code)) == " "
  {
    var a, b := "'\n" + code, "\n" + code;
    assert "--'\n" + code == ['-'] + (['-'] + a) && a == ['\''] + b;
    MaskCons(false, '-', ['-'] + a);
    MaskCons(false, '-', a);
    MaskCons(false, '\'', b);
    OddIsBlank(b);
    VisibleCons(Top, '-', ['-'] + ([' '] + MaskFrom(true, b)));
    VisibleCons(Dash, '-', [' '] + MaskFrom(true, b));
    VisibleCons(InLine, ' ', MaskFrom(true, b));
  }
}
