/**
 The two literal masks. Each works in place on a character array with look-ahead for
 the doubled quote; each is proved against a mask that looks at one character and the
 text before it, and against the splitter.
 */
module SqlMasks {
  import opened SqlSplit

  // ---------------------------------------------------------------- both quote kinds

  datatype Lit = Outside | Single | Double

  function Toggle(m: Lit, c: char): Lit {
    match m
    case Outside => if c == '\'' then Single else if c == '"' then Double else Outside
    case Single => if c == '\'' then Outside else Single
    case Double => if c == '"' then Outside else Double
  }

  function LitAfter(m: Lit, s: string): Lit
    decreases |s|
  {
    if s == "" then m else LitAfter(Toggle(m, s[0]), s[1..])
  }

  predicate IsQuote(c: char) {
    c == '\'' || c == '"'
  }

  function Mask(m: Lit, s: string): (r: string)
    ensures |r| == |s|
    decreases |s|
  {
    if s == "" then "" else [MaskChar(m, s[0])] + Mask(Toggle(m, s[0]), s[1..])
  }

  /** Position `i` belongs to a literal or is one of its quotes. */
  predicate InLiteral(s: string, i: nat)
    requires i < |s|
  {
    LitAfter(Outside, s[..i]) != Outside || IsQuote(s[i])
  }

  lemma {:induction false} MaskAt(m: Lit, s: string, i: nat)
    requires i < |s|
    ensures Mask(m, s)[i] == if LitAfter(m, s[..i]) != Outside || IsQuote(s[i]) then ' ' else s[i]
    decreases |s|
  {
    if i > 0 {
      MaskAt(Toggle(m, s[0]), s[1..], i - 1);
      assert s[1..][..i - 1] == s[..i][1..];
    } else {
      assert s[..0] == "";
    }
  }

  /** The mask changes exactly the literal positions, to blanks, and keeps the length. */
  lemma MaskChangesLiteralsOnly(s: string)
    ensures |Mask(Outside, s)| == |s|
    ensures forall i :: 0 <= i < |s| ==> Mask(Outside, s)[i] == if InLiteral(s, i) then ' ' else s[i]
  {
    forall i | 0 <= i < |s| ensures Mask(Outside, s)[i] == if InLiteral(s, i) then ' ' else s[i] {
      MaskAt(Outside, s, i);
    }
  }

  lemma {:induction false} MaskOfQuoteFree(s: string)
    requires forall c :: c in s ==> !IsQuote(c)
    ensures Mask(Outside, s) == s
    decreases |s|
  {
    if s == "" {
    } else {
      assert s[0] in s;
      MaskOfQuoteFree(s[1..]);
    }
  }

  /** No quote of either kind is left, so masking again changes nothing. */
  lemma MaskIdempotent(s: string)
    ensures forall c :: c in Mask(Outside, s) ==> !IsQuote(c)
    ensures Mask(Outside, Mask(Outside, s)) == Mask(Outside, s)
  {
    MaskChangesLiteralsOnly(s);
    MaskOfQuoteFree(Mask(Outside, s));
  }

  datatype MaskState = MaskNormal | MaskSingle | MaskDouble

  function LitOf(st: MaskState): Lit {
    match st
    case MaskNormal => Outside
    case MaskSingle => Single
    case MaskDouble => Double
  }

  /** The character the mask puts at a position reached in state `m`. */
  function MaskChar(m: Lit, c: char): char {
    if m != Outside || IsQuote(c) then ' ' else c
  }

  lemma {:induction false} LitAfterAppend(m: Lit, s: string, c: char)
    ensures LitAfter(m, s + [c]) == Toggle(LitAfter(m, s), c)
    decreases |s|
  {
    if s == "" {
      assert s + [c] == [c];
    } else {
      assert (s + [c])[1..] == s[1..] + [c];
      LitAfterAppend(Toggle(m, s[0]), s[1..], c);
    }
  }

  /** At `i`, reached in state `m`: the masked character, and the state after it. */
  lemma AtPosition(s: string, i: nat, m: Lit)
    requires i < |s| && m == LitAfter(Outside, s[..i])
    ensures Mask(Outside, s)[i] == MaskChar(m, s[i])
    ensures LitAfter(Outside, s[..i + 1]) == Toggle(m, s[i])
  {
    MaskAt(Outside, s, i);
    LitAfterAppend(Outside, s[..i], s[i]);
    assert s[..i + 1] == s[..i] + [s[i]];
  }

  method MaskLiteralsKeepComments(sql: string) returns (masked: string)
    ensures masked == Mask(Outside, sql)
  {
    var chars := new char[|sql|](i requires 0 <= i < |sql| => sql[i]);
    var i, state := 0, MaskNormal;
    ghost var whole := Mask(Outside, sql);
    while i < chars.Length
      invariant 0 <= i <= chars.Length == |sql|
      invariant forall j :: i <= j < |sql| ==> chars[j] == sql[j]
      invariant forall j :: 0 <= j < i ==> chars[j] == whole[j]
      invariant LitOf(state) == LitAfter(Outside, sql[..i])
    {
      var c := chars[i];
      var next := if i + 1 < chars.Length then [chars[i + 1]] else "";
      AtPosition(sql, i, LitOf(state));
      if state == MaskNormal {
        if c == '\'' {
          chars[i] := ' ';
          state := MaskSingle;
        } else if c == '"' {
          chars[i] := ' ';
          state := MaskDouble;
        }
      } else if state == MaskSingle {
        chars[i] := ' ';
        if c == '\'' && next == "'" {
          AtPosition(sql, i + 1, Outside);
          i := i + 1;
          chars[i] := ' ';
        } else if c == '\'' {
          state := MaskNormal;
        }
      } else {
        chars[i] := ' ';
        if c == '"' {
          state := MaskNormal;
        }
      }
      i := i + 1;
    }
    masked := chars[..];
  }

  // ---------------------------------------------------------------- string literals only

  /** Number of single quotes. */
  function Quotes(s: string): nat {
    if s == "" then 0 else Quotes(s[..|s| - 1]) + if s[|s| - 1] == '\'' then 1 else 0
  }

  /** A string literal covers its quotes and what lies after an odd number of them. */
  predicate InString(s: string, i: nat)
    requires i < |s|
  {
    s[i] == '\'' || OddBefore(s, i)
  }

  predicate OddBefore(s: string, i: nat)
    requires i <= |s|
  {
    Quotes(s[..i]) % 2 == 1
  }

  function MaskStrings(s: string): (r: string)
    ensures |r| == |s| && forall i :: 0 <= i < |s| ==> r[i] == if InString(s, i) then ' ' else s[i]
  {
    seq(|s|, i requires 0 <= i < |s| => if InString(s, i) then ' ' else s[i])
  }

  lemma OddStep(s: string, i: nat)
    requires i < |s|
    ensures OddBefore(s, i + 1) <==> (OddBefore(s, i) != (s[i] == '\''))
    ensures MaskStrings(s)[i] == if s[i] == '\'' || OddBefore(s, i) then ' ' else s[i]
  {
    assert s[..i + 1][..i] == s[..i];
  }

  lemma {:induction false} NoQuotes(s: string)
    requires '\'' !in s
    ensures Quotes(s) == 0
    decreases |s|
  {
    if s == "" {
    } else {
      assert s[|s| - 1] in s;
      NoQuotes(s[..|s| - 1]);
    }
  }

  /** No single quote is left, and masking again changes nothing. */
  lemma MaskStringsIdempotent(s: string)
    ensures '\'' !in MaskStrings(s)
    ensures MaskStrings(MaskStrings(s)) == MaskStrings(s)
  {
    var t := MaskStrings(s);
    forall i | 0 <= i < |t| ensures MaskStrings(t)[i] == t[i] {
      assert t[i] != '\'';
      NoQuotes(t[..i]);
    }
  }

  datatype StringState = StringNormal | StringQuote

  method MaskStringLiteralsKeepIdentifiers(sql: string) returns (masked: string)
    ensures masked == MaskStrings(sql)
  {
    var chars := new char[|sql|](i requires 0 <= i < |sql| => sql[i]);
    var i, state := 0, StringNormal;
    ghost var whole := MaskStrings(sql);
    while i < chars.Length
      invariant 0 <= i <= chars.Length == |sql|
      invariant forall j :: i <= j < |sql| ==> chars[j] == sql[j]
      invariant forall j :: 0 <= j < i ==> chars[j] == whole[j]
      invariant state == StringQuote <==> OddBefore(sql, i)
    {
      var c := chars[i];
      var next := if i + 1 < chars.Length then [chars[i + 1]] else "";
      OddStep(sql, i);
      if state == StringNormal {
        if c == '\'' {
          chars[i] := ' ';
          state := StringQuote;
        }
      } else {
        chars[i] := ' ';
        if c == '\'' && next == "'" {
          OddStep(sql, i + 1);
          i := i + 1;
          chars[i] := ' ';
        } else if c == '\'' {
          state := StringNormal;
        }
      }
      i := i + 1;
    }
    masked := chars[..];
  }

  // ---------------------------------------------------------------- agreement with the splitter

  /** No comment opens outside a literal, reading from `m`. */
  ghost predicate NoOpenerFrom(m: Lit, s: string) {
    forall i: nat :: !OpensAt(m, s, i)
  }

  function Semicolons(s: string): nat {
    if s == "" then 0 else (if s[0] == ';' then 1 else 0) + Semicolons(s[1..])
  }

  /** The literal state and the automaton's state say the same of literals. */
  predicate Matching(m: Lit, q: Q) {
    match m
    case Outside => IsTop(q)
    case Single => q == InSingle
    case Double => q == InDouble
  }

  /** They match, and no comment opens here. */
  ghost predicate SameState(m: Lit, q: Q, s: string) {
    Matching(m, q) && (m == Outside && s != "" ==> !(q == Dash && s[0] == '-') && !(q == Slash && s[0] == '*'))
  }

  predicate IsOpener(t: string) {
    t == "--" || t == "/*"
  }

  /** A comment opens at `i` outside a literal. */
  ghost predicate OpensAt(m: Lit, s: string, i: nat) {
    i + 1 < |s| && LitAfter(m, s[..i]) == Outside && IsOpener(s[i..i + 2])
  }

  lemma OpensShift(m: Lit, s: string, i: nat)
    requires s != ""
    ensures OpensAt(m, s, i + 1) <==> OpensAt(Toggle(m, s[0]), s[1..], i)
  {
    if i + 2 < |s| {
      assert s[..i + 1][1..] == s[1..][..i];
      assert s[1..][i..i + 2] == s[i + 1..i + 3];
    }
  }

  lemma OpensFirst(m: Lit, s: string)
    ensures OpensAt(m, s, 0) <==> m == Outside && |s| > 1 && IsOpener(s[..2])
  {
    assert s[..0] == "";
  }

  lemma NoOpenerStep(m: Lit, s: string)
    requires s != ""
    ensures NoOpenerFrom(m, s) <==>
      !(m == Outside && |s| > 1 && IsOpener(s[..2])) && NoOpenerFrom(Toggle(m, s[0]), s[1..])
  {
    OpensFirst(m, s);
    forall i: nat ensures OpensAt(m, s, i + 1) <==> OpensAt(Toggle(m, s[0]), s[1..], i) { OpensShift(m, s, i); }
    forall i: nat | i > 0 ensures OpensAt(m, s, i) <==> OpensAt(Toggle(m, s[0]), s[1..], i - 1) { OpensShift(m, s, i - 1); }
  }

  /** The half mark just read counts: no comment opens, given the automaton's state `q`. */
  ghost predicate NothingOpens(m: Lit, q: Q, s: string) {
    SameState(m, q, s) && NoOpenerFrom(m, s)
  }

  lemma NothingOpensStep(m: Lit, q: Q, s: string)
    requires s != "" && SameState(m, q, s)
    ensures Matching(Toggle(m, s[0]), Delta(q, s[0]))
    ensures NothingOpens(m, q, s) <==> NothingOpens(Toggle(m, s[0]), Delta(q, s[0]), s[1..])
  {
    NoOpenerStep(m, s);
    if |s| > 1 { assert s[..2] == [s[0], s[1]]; }
  }

  /** After this much text, mask and splitter agree on whether they are outside a literal. */
  ghost predicate Agreeing(m: Lit, q: Q, read: string) {
    LitAfter(m, read) == Outside <==> IsTop(Run(q, read))
  }

  ghost predicate AgreeThroughout(m: Lit, q: Q, s: string) {
    forall i :: 0 <= i <= |s| ==> Agreeing(m, q, s[..i])
  }

  lemma AgreeStep(m: Lit, q: Q, s: string)
    requires s != "" && Matching(m, q)
    ensures AgreeThroughout(m, q, s) <==> AgreeThroughout(Toggle(m, s[0]), Delta(q, s[0]), s[1..])
  {
    var m', q', rest := Toggle(m, s[0]), Delta(q, s[0]), s[1..];
    forall i | 0 <= i <= |rest| ensures Agreeing(m', q', rest[..i]) <==> Agreeing(m, q, s[..i + 1]) {
      assert s[..i + 1][1..] == rest[..i];
    }
    forall i | 1 <= i <= |s| ensures Agreeing(m, q, s[..i]) <==> Agreeing(m', q', rest[..i - 1]) {
      assert s[..i][1..] == rest[..i - 1];
    }
    assert s[..0] == "";
  }

  lemma OpenedDisagrees(m: Lit, q: Q, s: string)
    requires Matching(m, q) && !SameState(m, q, s)
    ensures !AgreeThroughout(m, q, s)
  {
    assert s[..1][1..] == "";
    assert LitAfter(m, s[..1]) == Outside && Run(q, s[..1]) == Delta(q, s[0]);
    assert !Agreeing(m, q, s[..1]);
  }

  lemma {:induction false} AgreeIffNothingOpens(m: Lit, q: Q, s: string)
    requires Matching(m, q)
    ensures AgreeThroughout(m, q, s) <==> NothingOpens(m, q, s)
    decreases |s|
  {
    if s == "" {
    } else if SameState(m, q, s) {
      NothingOpensStep(m, q, s);
      AgreeStep(m, q, s);
      AgreeIffNothingOpens(Toggle(m, s[0]), Delta(q, s[0]), s[1..]);
    } else {
      OpenedDisagrees(m, q, s);
    }
  }

  /**
   Mask and splitter agree at every position on what lies outside a literal exactly when
   no comment opens outside one.
   */
  lemma ScannersAgreeIff(s: string)
    ensures (forall i :: 0 <= i <= |s| ==> (LitAfter(Outside, s[..i]) == Outside <==> IsTop(Run(Top, s[..i])))) <==>
      NoOpenerFrom(Outside, s)
  {
    AgreeIffNothingOpens(Outside, Top, s);
    forall i | 0 <= i <= |s|
      ensures Agreeing(Outside, Top, s[..i]) <==> (LitAfter(Outside, s[..i]) == Outside <==> IsTop(Run(Top, s[..i]))) {}
  }

  lemma {:induction false} MaskedSemicolonsFrom(m: Lit, q: Q, s: string)
    requires NothingOpens(m, q, s)
    ensures Semicolons(Mask(m, s)) == TopSemicolons(q, s)
    decreases |s|
  {
    if s == "" {
    } else {
      NothingOpensStep(m, q, s);
      MaskedSemicolonsFrom(Toggle(m, s[0]), Delta(q, s[0]), s[1..]);
    }
  }

  /** Where they agree, the masked text shows one semicolon fewer than there are statements. */
  lemma MaskCountsStatements(s: string)
    requires NoOpenerFrom(Outside, s)
    ensures |Pieces(Top, s)| == Semicolons(Mask(Outside, s)) + 1
  {
    MaskedSemicolonsFrom(Outside, Top, s);
    PieceCount(Top, s);
  }

  /** The smallest text on which they disagree, and its counts. */
  lemma CommentBreaksCount()
    ensures OpensAt(Outside, "--;", 0)
    ensures |Pieces(Top, "--;")| == 1 && Semicolons(Mask(Outside, "--;")) == 1
  {
    OpensFirst(Outside, "--;");
    assert "--;"[..2] == "--";
    assert "--;"[1..] == "-;" && "-;"[1..] == ";" && ";"[1..] == "";
    assert Mask(Outside, ";") == ";";
    assert Mask(Outside, "-;") == "-;";
    assert Mask(Outside, "--;") == "--;";
  }
}
