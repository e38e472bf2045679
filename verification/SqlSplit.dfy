/**
 The SQL statement splitter: a five-state scanner with one character of look-ahead,
 proved against an automaton that reads one character at a time and never looks ahead.
 */
module SqlSplit {

  /** The automaton's states; Dash, Slash and Star remember half of a two-character mark. */
  datatype Q = Top | Dash | Slash | InSingle | InDouble | InLine | InBlock | Star

  predicate IsTop(q: Q) {
    q == Top || q == Dash || q == Slash
  }

  function FromTop(c: char): Q {
    if c == '\'' then InSingle
    else if c == '"' then InDouble
    else if c == '-' then Dash
    else if c == '/' then Slash
    else Top
  }

  function Delta(q: Q, c: char): Q {
    match q
    case Top => FromTop(c)
    case Dash => if c == '-' then InLine else FromTop(c)
    case Slash => if c == '*' then InBlock else FromTop(c)
    case InSingle => if c == '\'' then Top else InSingle
    case InDouble => if c == '"' then Top else InDouble
    case InLine => if c == '\n' then Top else InLine
    case InBlock => if c == '*' then Star else InBlock
    case Star => if c == '/' then Top else if c == '*' then Star else InBlock
  }

  /** The state after reading `s` from `q`. */
  function Run(q: Q, s: string): Q
    decreases |s|
  {
    if s == "" then q else Run(Delta(q, s[0]), s[1..])
  }

  /** The pieces of `s` between its top-level semicolons, reading from `q`. */
  function Pieces(q: Q, s: string): (r: seq<string>)
    ensures |r| > 0
    decreases |s|
  {
    if s == "" then [""]
    else if s[0] == ';' && IsTop(q) then [""] + Pieces(Top, s[1..])
    else
      var r := Pieces(Delta(q, s[0]), s[1..]);
      [[s[0]] + r[0]] + r[1..]
  }

  function Join(pieces: seq<string>): string {
    if pieces == [] then ""
    else if |pieces| == 1 then pieces[0]
    else pieces[0] + ";" + Join(pieces[1..])
  }

  // ---------------------------------------------------------------- the scanner

  datatype State = Normal | SingleQuote | DoubleQuote | LineComment | BlockComment

  /** The scanner's state at `i` and the automaton's agree, up to look-ahead. */
  ghost predicate Agrees(st: State, q: Q, rest: string) {
    match st
    case Normal => IsTop(q) && (rest != "" ==> !(q == Dash && rest[0] == '-') && !(q == Slash && rest[0] == '*'))
    case SingleQuote => q == InSingle
    case DoubleQuote => q == InDouble
    case LineComment => q == InLine
    case BlockComment => q == InBlock || (q == Star && (rest != "" ==> rest[0] != '/'))
  }

  /** Text already read is put in front of the first piece. */
  function Prepend(t: string, pieces: seq<string>): (r: seq<string>)
    requires |pieces| > 0
    ensures |r| == |pieces|
  {
    [t + pieces[0]] + pieces[1..]
  }

  /** Reading a character that is not a cut moves it into the open piece. */
  lemma PiecesStep(q: Q, s: string, i: nat, open: string)
    requires i < |s| && !(s[i] == ';' && IsTop(q))
    ensures Prepend(open, Pieces(q, s[i..])) == Prepend(open + [s[i]], Pieces(Delta(q, s[i]), s[i + 1..]))
  {
    assert s[i..][1..] == s[i + 1..];
    var r := Pieces(Delta(q, s[i]), s[i + 1..]);
    assert open + ([s[i]] + r[0]) == open + [s[i]] + r[0];
  }

  lemma PiecesCut(q: Q, s: string, i: nat, open: string)
    requires i < |s| && s[i] == ';' && IsTop(q)
    ensures Prepend(open, Pieces(q, s[i..])) == [open] + Prepend("", Pieces(Top, s[i + 1..]))
  {
    assert s[i..][1..] == s[i + 1..];
    var r := Pieces(Top, s[i + 1..]);
    assert "" + r[0] == r[0];
    assert open + "" == open;
  }

  /** One turn of the scanner: the next state and how many characters it consumes. */
  function Advance(state: State, c: char, next: string): (State, nat) {
    match state
    case Normal =>
      if c == '\'' then (SingleQuote, 1)
      else if c == '"' then (DoubleQuote, 1)
      else if c == '-' && next == "-" then (LineComment, 2)
      else if c == '/' && next == "*" then (BlockComment, 2)
      else (Normal, 1)
    case SingleQuote =>
      if c == '\'' && next == "'" then (SingleQuote, 2)
      else if c == '\'' then (Normal, 1)
      else (SingleQuote, 1)
    case DoubleQuote => if c == '"' then (Normal, 1) else (DoubleQuote, 1)
    case LineComment => if c == '\n' then (Normal, 1) else (LineComment, 1)
    case BlockComment => if c == '*' && next == "/" then (Normal, 2) else (BlockComment, 1)
  }

  /** The look-ahead at `i`: the following character, or nothing at the end. */
  function Next(s: string, i: nat): string
    requires i < |s|
  {
    if i + 1 < |s| then [s[i + 1]] else ""
  }

  /** A turn of the scanner is one or two steps of the automaton. */
  lemma AdvanceAgrees(state: State, q: Q, s: string, i: nat)
    requires i < |s| && Agrees(state, q, s[i..])
    ensures var (after, width) := Advance(state, s[i], Next(s, i));
      && width == 1 ==> Agrees(after, Delta(q, s[i]), s[i + 1..])
    ensures var (after, width) := Advance(state, s[i], Next(s, i));
      width != 1 ==> (
        && width == 2 && i + 1 < |s| && s[i] != ';' && s[i + 1] != ';'
        && Agrees(after, Delta(Delta(q, s[i]), s[i + 1]), s[i + 2..]))
  {
  }

  /** After a turn that is not a cut, what was read has moved into the open piece. */
  lemma AdvancePieces(state: State, q: Q, s: string, i: nat, open: string) returns (after: Q)
    requires i < |s| && Agrees(state, q, s[i..]) && !(state == Normal && s[i] == ';')
    ensures var (st, width) := Advance(state, s[i], Next(s, i));
      && i + width <= |s|
      && Agrees(st, after, s[i + width..])
      && Prepend(open, Pieces(q, s[i..])) == Prepend(open + s[i..i + width], Pieces(after, s[i + width..]))
  {
    AdvanceAgrees(state, q, s, i);
    PiecesStep(q, s, i, open);
    after := Delta(q, s[i]);
    assert s[i..i + 1] == [s[i]];
    if Advance(state, s[i], Next(s, i)).1 == 2 {
      PiecesStep(after, s, i + 1, open + [s[i]]);
      assert open + [s[i]] + [s[i + 1]] == open + s[i..i + 2];
      after := Delta(after, s[i + 1]);
    }
  }

  /** `done` and the open piece, with what is still to read, make up the whole split. */
  ghost predicate Splitting(whole: seq<string>, done: seq<string>, open: string, q: Q, rest: string) {
    whole == done + Prepend(open, Pieces(q, rest))
  }

  lemma SplittingCut(whole: seq<string>, done: seq<string>, open: string, q: Q, s: string, i: nat)
    requires i < |s| && s[i] == ';' && IsTop(q) && Splitting(whole, done, open, q, s[i..])
    ensures Splitting(whole, done + [open], "", Top, s[i + 1..])
  {
    PiecesCut(q, s, i, open);
  }

  lemma SplittingAdvances(whole: seq<string>, done: seq<string>, open: string, state: State, q: Q, s: string, i: nat)
    returns (after: Q)
    requires i < |s| && Agrees(state, q, s[i..]) && !(state == Normal && s[i] == ';')
    requires Splitting(whole, done, open, q, s[i..])
    ensures var (st, width) := Advance(state, s[i], Next(s, i));
      && i + width <= |s|
      && Agrees(st, after, s[i + width..])
      && Splitting(whole, done, open + s[i..i + width], after, s[i + width..])
  {
    after := AdvancePieces(state, q, s, i, open);
  }

  lemma SplittingEnds(whole: seq<string>, done: seq<string>, open: string, q: Q)
    requires Splitting(whole, done, open, q, "")
    ensures whole == done + [open]
  {
    assert open + "" == open;
  }

  lemma SplittingStarts(s: string)
    ensures Splitting(Pieces(Top, s), [], "", Top, s[0..])
  {
    assert s[0..] == s;
    var whole := Pieces(Top, s);
    assert "" + whole[0] == whole[0];
    assert Prepend("", whole) == whole;
    assert [] + Prepend("", whole) == whole;
  }

  lemma Glue(s: string, i: nat, j: nat, k: nat)
    requires i <= j <= k <= |s|
    ensures s[i..j] + s[j..k] == s[i..k]
  {
  }

  /** The scanner's loop: the statements so far, the open one from `start`, and what is still to read. */
  ghost predicate Scanning(sql: string, statements: seq<string>, start: nat, i: nat, state: State, q: Q) {
    && start <= i <= |sql|
    && Agrees(state, q, sql[i..])
    && Splitting(Pieces(Top, sql), statements, sql[start..i], q, sql[i..])
  }

  lemma ScanStarts(sql: string)
    ensures Scanning(sql, [], 0, 0, Normal, Top)
  {
    SplittingStarts(sql);
  }

  lemma ScanCuts(sql: string, statements: seq<string>, start: nat, i: nat, q: Q)
    requires Scanning(sql, statements, start, i, Normal, q) && i < |sql| && sql[i] == ';'
    ensures Scanning(sql, statements + [sql[start..i]], i + 1, i + 1, Normal, Top)
  {
    SplittingCut(Pieces(Top, sql), statements, sql[start..i], q, sql, i);
    assert sql[i + 1..i + 1] == "";
  }

  lemma ScanReads(sql: string, statements: seq<string>, start: nat, i: nat, state: State, q: Q) returns (after: Q)
    requires Scanning(sql, statements, start, i, state, q) && i < |sql| && !(state == Normal && sql[i] == ';')
    ensures var (st, width) := Advance(state, sql[i], Next(sql, i));
      Scanning(sql, statements, start, i + width, st, after)
  {
    after := SplittingAdvances(Pieces(Top, sql), statements, sql[start..i], state, q, sql, i);
    Glue(sql, start, i, i + Advance(state, sql[i], Next(sql, i)).1);
  }

  lemma ScanEnds(sql: string, statements: seq<string>, start: nat, state: State, q: Q)
    requires Scanning(sql, statements, start, |sql|, state, q)
    ensures Pieces(Top, sql) == statements + [sql[start..]]
  {
    assert sql[|sql|..] == "" && sql[start..|sql|] == sql[start..];
    SplittingEnds(Pieces(Top, sql), statements, sql[start..], q);
  }

  method SplitSqlStatements(sql: string) returns (statements: seq<string>)
    ensures statements == Pieces(Top, sql)
  {
    statements := [];
    var start, i, state := 0, 0, Normal;
    ghost var q := Top;
    ScanStarts(sql);
    while i < |sql|
      invariant Scanning(sql, statements, start, i, state, q)
    {
      var (after, width) := Advance(state, sql[i], Next(sql, i));
      if state == Normal && sql[i] == ';' {
        ScanCuts(sql, statements, start, i, q);
        statements := statements + [sql[start..i]];
        start := i + 1;
        q := Top;
      } else {
        q := ScanReads(sql, statements, start, i, state, q);
      }
      state, i := after, i + width;
    }
    ScanEnds(sql, statements, start, state, q);
    statements := statements + [sql[start..]];
  }

  // ---------------------------------------------------------------- what the pieces are

  /** Splitting loses nothing: the pieces joined by semicolons are the text. */
  lemma {:induction false} JoinPieces(q: Q, s: string)
    ensures Join(Pieces(q, s)) == s
    decreases |s|
  {
    if s == "" {
    } else {
      if s[0] == ';' && IsTop(q) {
        JoinPieces(Top, s[1..]);
        assert Pieces(q, s)[1..] == Pieces(Top, s[1..]);
        assert s == ";" + s[1..];
      } else {
        JoinPieces(Delta(q, s[0]), s[1..]);
        var r := Pieces(Delta(q, s[0]), s[1..]);
        assert Pieces(q, s)[1..] == r[1..];
        assert s == [s[0]] + Join(r);
      }
    }
  }

  lemma FirstPieceGrows(c: char, x: seq<string>, y: seq<string>)
    requires x != []
    ensures [[c] + (x + y)[0]] + (x + y)[1..] == [[c] + x[0]] + x[1..] + y
    ensures [""] + (x + y) == [""] + x + y
  {
    assert (x + y)[1..] == x[1..] + y;
  }

  lemma {:induction false} PiecesAtCut(q: Q, a: string, rest: string)
    requires IsTop(Run(q, a)) && rest != "" && rest[0] == ';'
    ensures Pieces(q, a + rest) == Pieces(q, a) + Pieces(Top, rest[1..])
    decreases |a|
  {
    if a == "" {
      assert a + rest == rest;
    } else {
      var q' := if a[0] == ';' && IsTop(q) then Top else Delta(q, a[0]);
      assert (a + rest)[1..] == a[1..] + rest;
      PiecesAtCut(q', a[1..], rest);
      FirstPieceGrows(a[0], Pieces(q', a[1..]), Pieces(Top, rest[1..]));
    }
  }

  /** A semicolon after text that leaves the automaton at top level is a cut. */
  lemma PiecesAtSemicolon(q: Q, a: string, b: string)
    requires IsTop(Run(q, a))
    ensures Pieces(q, a + ";" + b) == Pieces(q, a) + Pieces(Top, b)
  {
    PiecesAtCut(q, a, ";" + b);
    assert a + ";" + b == a + (";" + b) && (";" + b)[1..] == b;
  }

  /** One piece only: reading the text from `q` never meets a top-level semicolon. */
  ghost predicate Atomic(q: Q, s: string) {
    Pieces(q, s) == [s]
  }

  /** Text after which the automaton is back at top level, so that a semicolon would cut. */
  ghost predicate Closed(s: string) {
    IsTop(Run(Top, s))
  }

  /** Every piece, split again, is itself; every piece but the last ends at top level. */
  lemma {:induction false} PiecesAreAtomic(q: Q, s: string)
    ensures var r := Pieces(q, s);
      && Atomic(q, r[0]) && (|r| > 1 ==> IsTop(Run(q, r[0])))
      && forall i :: 1 <= i < |r| ==> Atomic(Top, r[i]) && (i < |r| - 1 ==> Closed(r[i]))
    decreases |s|
  {
    if s == "" {
    } else {
      if s[0] == ';' && IsTop(q) {
        PiecesAreAtomic(Top, s[1..]);
      } else {
        PiecesAreAtomic(Delta(q, s[0]), s[1..]);
        var r := Pieces(Delta(q, s[0]), s[1..]);
        assert ([s[0]] + r[0])[1..] == r[0];
      }
    }
  }

  lemma ResplitYieldsPiece(s: string, i: nat)
    requires i < |Pieces(Top, s)|
    ensures Pieces(Top, Pieces(Top, s)[i]) == [Pieces(Top, s)[i]]
    ensures i < |Pieces(Top, s)| - 1 ==> Closed(Pieces(Top, s)[i])
  {
    PiecesAreAtomic(Top, s);
    if i > 0 { assert Atomic(Top, Pieces(Top, s)[i]); }
  }

  /** There is only one way to write a text as atomic pieces whose separators are top-level. */
  lemma {:induction false} SplitIsUnique(pieces: seq<string>)
    requires |pieces| > 0
    requires forall i :: 0 <= i < |pieces| ==> Atomic(Top, pieces[i]) && (i < |pieces| - 1 ==> Closed(pieces[i]))
    ensures Pieces(Top, Join(pieces)) == pieces
    decreases |pieces|
  {
    if |pieces| > 1 {
      SplitIsUnique(pieces[1..]);
      PiecesAtSemicolon(Top, pieces[0], Join(pieces[1..]));
    }
  }

  /** The semicolons the splitter cuts at: one fewer than the pieces. */
  function TopSemicolons(q: Q, s: string): nat
    decreases |s|
  {
    if s == "" then 0
    else (if s[0] == ';' && IsTop(q) then 1 else 0) + TopSemicolons(Delta(q, s[0]), s[1..])
  }

  lemma {:induction false} PieceCount(q: Q, s: string)
    ensures |Pieces(q, s)| == TopSemicolons(q, s) + 1
    decreases |s|
  {
    if s == "" {
    } else {
      PieceCount(if s[0] == ';' && IsTop(q) then Top else Delta(q, s[0]), s[1..]);
    }
  }
}
