/**
 The comment stripper, proved against a segmentation of the text into characters,
 quoted identifiers and comments.
 */
module SqlStrip {
  import opened Sequences
  import SqlSplit

  // ---------------------------------------------------------------- the scanner

  datatype State = Normal | DoubleQuote | InLine | InBlock

  predicate Starts(t: string, a: char, b: char) {
    |t| >= 2 && t[0] == a && t[1] == b
  }

  // What each state emits for the text still to read.

  function EmitNormal(t: string): string
    decreases |t|
  {
    if t == "" then ""
    else if t[0] == '"' then "\"" + EmitQuoted(t[1..])
    else if Starts(t, '-', '-') then " " + EmitLine(t[2..])
    else if Starts(t, '/', '*') then " " + EmitBlock(t[2..])
    else [t[0]] + EmitNormal(t[1..])
  }

  function EmitQuoted(t: string): string
    decreases |t|
  {
    if t == "" then ""
    else if Starts(t, '"', '"') then "\"\"" + EmitQuoted(t[2..])
    else if t[0] == '"' then "\"" + EmitNormal(t[1..])
    else [t[0]] + EmitQuoted(t[1..])
  }

  function EmitLine(t: string): string
    decreases |t|
  {
    if t == "" then "" else if t[0] == '\n' then "\n" + EmitNormal(t[1..]) else EmitLine(t[1..])
  }

  function EmitBlock(t: string): string
    decreases |t|
  {
    if t == "" then "" else if Starts(t, '*', '/') then " " + EmitNormal(t[2..]) else EmitBlock(t[1..])
  }

  function Emit(state: State, t: string): string {
    match state
    case Normal => EmitNormal(t)
    case DoubleQuote => EmitQuoted(t)
    case InLine => EmitLine(t)
    case InBlock => EmitBlock(t)
  }

  /** One turn of the scanner: next state, characters consumed, text emitted. */
  function Advance(state: State, c: char, next: string): (State, nat, string) {
    match state
    case Normal =>
      if c == '"' then (DoubleQuote, 1, [c])
      else if c == '-' && next == "-" then (InLine, 2, " ")
      else if c == '/' && next == "*" then (InBlock, 2, " ")
      else (Normal, 1, [c])
    case DoubleQuote =>
      if c == '"' && next == "\"" then (DoubleQuote, 2, [c] + next)
      else if c == '"' then (Normal, 1, [c])
      else (DoubleQuote, 1, [c])
    case InLine => if c == '\n' then (Normal, 1, [c]) else (InLine, 1, "")
    case InBlock => if c == '*' && next == "/" then (Normal, 2, " ") else (InBlock, 1, "")
  }

  lemma EmitStep(state: State, s: string, i: nat)
    requires i < |s|
    ensures var (after, width, out) := Advance(state, s[i], SqlSplit.Next(s, i));
      i + width <= |s| && Emit(state, s[i..]) == out + Emit(after, s[i + width..])
  {
    var t := s[i..];
    assert t[1..] == s[i + 1..];
    if i + 1 < |s| {
      assert t[2..] == s[i + 2..];
    }
  }

  method StripSqlComments(sql: string) returns (stripped: string)
    ensures stripped == EmitNormal(sql)
  {
    stripped := "";
    var i, state := 0, Normal;
    ghost var whole, rest := EmitNormal(sql), EmitNormal(sql);
    assert sql[0..] == sql;
    while i < |sql|
      invariant i <= |sql| && rest == Emit(state, sql[i..])
      invariant whole == stripped + rest
    {
      EmitStep(state, sql, i);
      var (after, width, out) := Advance(state, sql[i], SqlSplit.Next(sql, i));
      ghost var left := Emit(after, sql[i + width..]);
      Assoc(stripped, out, left);
      stripped, rest := stripped + out, left;
      state, i := after, i + width;
    }
    assert sql[i..] == "";
  }

  // ---------------------------------------------------------------- segments

  /** A piece of the text; `body` is the whole piece as it is written. */
  datatype Segment =
    | Plain(c: char)
    | Identifier(body: string)
    | LineComment(body: string, closed: bool)
    | BlockComment(body: string, closed: bool)

  /** Length of what is left of a quoted identifier; a doubled quote stays inside. */
  function IdentifierTail(t: string): (n: nat)
    ensures n <= |t|
    decreases |t|
  {
    if t == "" then 0
    else if t[0] != '"' then 1 + IdentifierTail(t[1..])
    else if Starts(t, '"', '"') then 2 + IdentifierTail(t[2..])
    else 1
  }

  /** Length of what is left of a line comment, its newline included. */
  function LineTail(t: string): (n: nat)
    ensures n <= |t|
    decreases |t|
  {
    if t == "" then 0 else if t[0] == '\n' then 1 else 1 + LineTail(t[1..])
  }

  /** Length of what is left of a block comment, its closing mark included. */
  function BlockTail(t: string): (n: nat)
    ensures n <= |t|
    decreases |t|
  {
    if t == "" then 0 else if Starts(t, '*', '/') then 2 else 1 + BlockTail(t[1..])
  }

  predicate BlockCloses(t: string)
    decreases |t|
  {
    t != "" && (Starts(t, '*', '/') || BlockCloses(t[1..]))
  }

  /** The first segment of a non-empty text. */
  function FirstSegment(t: string): (g: Segment)
    requires t != ""
    ensures Raw(g) <= t && Raw(g) != ""
  {
    if t[0] == '"' then Identifier(t[..1 + IdentifierTail(t[1..])])
    else if Starts(t, '-', '-') then LineComment(t[..2 + LineTail(t[2..])], '\n' in t[2..])
    else if Starts(t, '/', '*') then BlockComment(t[..2 + BlockTail(t[2..])], BlockCloses(t[2..]))
    else Plain(t[0])
  }

  function Segments(t: string): seq<Segment>
    decreases |t|
  {
    if t == "" then [] else var g := FirstSegment(t); [g] + Segments(t[|Raw(g)|..])
  }

  function Raw(g: Segment): string {
    if g.Plain? then [g.c] else g.body
  }

  /** Comments become blanks: a line comment keeps its newline, a closed block comment has two. */
  function Clean(g: Segment): string {
    match g
    case Plain(c) => [c]
    case Identifier(body) => body
    case LineComment(_, closed) => if closed then " \n" else " "
    case BlockComment(_, closed) => if closed then "  " else " "
  }

  function RawText(gs: seq<Segment>): string {
    if gs == [] then "" else Raw(gs[0]) + RawText(gs[1..])
  }

  function CleanText(gs: seq<Segment>): string {
    if gs == [] then "" else Clean(gs[0]) + CleanText(gs[1..])
  }

  /** The segments are the text, cut into pieces. */
  lemma {:induction false} SegmentsAreText(t: string)
    ensures RawText(Segments(t)) == t
    decreases |t|
  {
    if t == "" {
    } else {
      var g := FirstSegment(t);
      SegmentsAreText(t[|Raw(g)|..]);
      assert Segments(t)[1..] == Segments(t[|Raw(g)|..]);
    }
  }

  /** Cutting `n` characters after a head of `k` is cutting `k + n`. */
  lemma CutAfter(t: string, k: nat, n: nat)
    requires k + n <= |t|
    ensures t[..k + n] == t[..k] + t[k..][..n] && t[k + n..] == t[k..][n..]
  {
  }

  lemma {:induction false} EmitIdentifier(t: string)
    ensures EmitQuoted(t) == t[..IdentifierTail(t)] + EmitNormal(t[IdentifierTail(t)..])
    decreases |t|
  {
    if t != "" && (t[0] != '"' || Starts(t, '"', '"')) {
      var k := if t[0] != '"' then 1 else 2;
      EmitIdentifier(t[k..]);
      var n := IdentifierTail(t[k..]);
      CutAfter(t, k, n);
      assert EmitQuoted(t) == t[..k] + EmitQuoted(t[k..]);
      Assoc(t[..k], t[k..][..n], EmitNormal(t[k + n..]));
    } else if t != "" {
      assert t[..1] == "\"";
    }
  }

  lemma {:induction false} EmitLineComment(t: string)
    ensures EmitLine(t) == (if '\n' in t then "\n" else "") + EmitNormal(t[LineTail(t)..])
    decreases |t|
  {
    if t == "" {
    } else {
      assert t == [t[0]] + t[1..];
      if t[0] != '\n' {
        EmitLineComment(t[1..]);
        CutAfter(t, 1, LineTail(t[1..]));
      }
    }
  }

  lemma {:induction false} EmitBlockComment(t: string)
    ensures EmitBlock(t) == (if BlockCloses(t) then " " else "") + EmitNormal(t[BlockTail(t)..])
    decreases |t|
  {
    if t != "" && !Starts(t, '*', '/') {
      EmitBlockComment(t[1..]);
      CutAfter(t, 1, BlockTail(t[1..]));
    }
  }

  lemma EmitIdentifierSegment(t: string)
    requires t != "" && t[0] == '"'
    ensures var g := FirstSegment(t); EmitNormal(t) == Clean(g) + EmitNormal(t[|Raw(g)|..])
  {
    EmitIdentifier(t[1..]);
    var n := IdentifierTail(t[1..]);
    CutAfter(t, 1, n);
    Assoc("\"", t[1..][..n], EmitNormal(t[1 + n..]));
    assert t[..1] == "\"";
  }

  lemma EmitSegment(t: string)
    requires t != ""
    ensures var g := FirstSegment(t); EmitNormal(t) == Clean(g) + EmitNormal(t[|Raw(g)|..])
  {
    if t[0] == '"' {
      EmitIdentifierSegment(t);
    } else if Starts(t, '-', '-') {
      EmitLineSegment(t);
    } else if Starts(t, '/', '*') {
      EmitBlockSegment(t);
    }
  }

  lemma EmitLineSegment(t: string)
    requires Starts(t, '-', '-')
    ensures var g := FirstSegment(t); EmitNormal(t) == Clean(g) + EmitNormal(t[|Raw(g)|..])
  {
    EmitLineComment(t[2..]);
    CutAfter(t, 2, LineTail(t[2..]));
  }

  lemma EmitBlockSegment(t: string)
    requires Starts(t, '/', '*')
    ensures var g := FirstSegment(t); EmitNormal(t) == Clean(g) + EmitNormal(t[|Raw(g)|..])
  {
    EmitBlockComment(t[2..]);
    CutAfter(t, 2, BlockTail(t[2..]));
  }

  /** Stripping replaces each comment by its blanks and copies every other segment. */
  lemma {:induction false} StripIsClean(t: string)
    ensures EmitNormal(t) == CleanText(Segments(t))
    decreases |t|
  {
    if t == "" {
    } else {
      var g := FirstSegment(t);
      EmitSegment(t);
      StripIsClean(t[|Raw(g)|..]);
      assert Segments(t)[1..] == Segments(t[|Raw(g)|..]);
    }
  }
}
