/**
 Laws of the comment stripper: what is left has no comment, identifiers survive
 unchanged, and stripping twice is stripping once.
 */
module SqlStripLaws {
  import opened SqlStrip

  predicate IsComment(g: Segment) {
    g.LineComment? || g.BlockComment?
  }

  predicate NoComments(gs: seq<Segment>) {
    forall g :: g in gs ==> !IsComment(g)
  }

  function Identifiers(gs: seq<Segment>): seq<string> {
    if gs == [] then []
    else (if gs[0].Identifier? then [gs[0].body] else []) + Identifiers(gs[1..])
  }

  /** A comment as the plain characters that replace it. */
  function ReplaceOne(g: Segment): seq<Segment> {
    match g
    case LineComment(_, closed) => if closed then [Plain(' '), Plain('\n')] else [Plain(' ')]
    case BlockComment(_, closed) => if closed then [Plain(' '), Plain(' ')] else [Plain(' ')]
    case _ => [g]
  }

  function Replace(gs: seq<Segment>): seq<Segment> {
    if gs == [] then [] else ReplaceOne(gs[0]) + Replace(gs[1..])
  }

  function Strip(t: string): string {
    CleanText(Segments(t))
  }

  /** The rest of a text after its first segment. */
  function Rest(t: string): string
    requires t != ""
  {
    t[|Raw(FirstSegment(t))|..]
  }

  lemma StripUnfold(t: string)
    requires t != ""
    ensures Segments(t) == [FirstSegment(t)] + Segments(Rest(t))
    ensures Strip(t) == Clean(FirstSegment(t)) + Strip(Rest(t))
  {
    assert Segments(t)[1..] == Segments(Rest(t));
  }

  /** Stripping starts with the text's own first character or a blank. */
  lemma StripFirst(t: string)
    requires t != ""
    ensures Strip(t) != "" && (Strip(t)[0] == t[0] || Strip(t)[0] == ' ')
  {
    StripUnfold(t);
    var g := FirstSegment(t);
    if g.Identifier? { assert g.body[0] == t[0]; }
  }

  lemma PlainFirst(c: char, w: string)
    requires c != '"' && !Starts([c] + w, '-', '-') && !Starts([c] + w, '/', '*')
    ensures Segments([c] + w) == [Plain(c)] + Segments(w)
  {
    assert ([c] + w)[1..] == w;
  }

  predicate IdentifierCloses(t: string)
    decreases |t|
  {
    t != "" && if t[0] != '"' then IdentifierCloses(t[1..])
               else if Starts(t, '"', '"') then IdentifierCloses(t[2..])
               else true
  }

  lemma {:induction false} UnclosedReachesEnd(t: string)
    requires !IdentifierCloses(t)
    ensures IdentifierTail(t) == |t|
    decreases |t|
  {
    if t == "" {
    } else {
      UnclosedReachesEnd(t[if t[0] != '"' then 1 else 2..]);
    }
  }

  /** A closed identifier is followed by something other than a quote. */
  lemma {:induction false} ClosedIsNotDoubled(t: string)
    requires IdentifierCloses(t) && IdentifierTail(t) < |t|
    ensures t[IdentifierTail(t)] != '"'
    decreases |t|
  {
    if t[0] != '"' {
      ClosedIsNotDoubled(t[1..]);
    } else if Starts(t, '"', '"') {
      ClosedIsNotDoubled(t[2..]);
    }
  }

  /** What follows does not change where a closed identifier ends, unless it starts with a quote. */
  lemma {:induction false} TailStable(t: string, v: string)
    requires IdentifierCloses(t) && (v != "" ==> v[0] != '"')
    ensures IdentifierTail(t[..IdentifierTail(t)] + v) == IdentifierTail(t)
    decreases |t|
  {
    var n := IdentifierTail(t);
    var s := t[..n] + v;
    if t[0] != '"' || Starts(t, '"', '"') {
      var k := if t[0] != '"' then 1 else 2;
      TailStable(t[k..], v);
      CutAfter(t, k, n - k);
      assert s[k..] == t[k..][..n - k] + v;
      assert s[..k] == t[..k];
    } else {
      assert s[1..] == v;
    }
  }

  lemma IdentifierFirst(tail: string, v: string)
    requires IdentifierTail(tail + v) == |tail|
    ensures Segments("\"" + tail + v) == [Identifier("\"" + tail)] + Segments(v)
  {
    var s := "\"" + tail + v;
    assert s[1..] == tail + v;
    assert s[..1 + |tail|] == "\"" + tail && s[1 + |tail|..] == v;
  }

  /** In the stripped text an identifier ends where it ended. */
  lemma IdentifierTailKept(u: string)
    ensures var n := IdentifierTail(u); IdentifierTail(u[..n] + Strip(u[n..])) == n
  {
    var n := IdentifierTail(u);
    if IdentifierCloses(u) {
      if u[n..] != "" {
        StripFirst(u[n..]);
        ClosedIsNotDoubled(u);
      }
      TailStable(u, Strip(u[n..]));
    } else {
      UnclosedReachesEnd(u);
      assert u[n..] == "" && u[..n] + "" == u;
    }
  }

  lemma SegmentOfIdentifier(t: string)
    requires t != "" && t[0] == '"'
    ensures Segments(Strip(t)) == [FirstSegment(t)] + Segments(Strip(Rest(t)))
  {
    var u := t[1..];
    var n := IdentifierTail(u);
    CutAfter(t, 1, n);
    assert t[..1 + n] == "\"" + u[..n];
    IdentifierTailKept(u);
    IdentifierFirst(u[..n], Strip(u[n..]));
    StripUnfold(t);
  }

  /** The stripped text segments like the original, with blanks where comments were. */
  lemma {:induction false} SegmentsOfStripped(t: string)
    ensures Segments(Strip(t)) == Replace(Segments(t))
    decreases |t|
  {
    if t == "" {
    } else {
      var g, v := FirstSegment(t), Strip(Rest(t));
      SegmentsOfStripped(Rest(t));
      StripUnfold(t);
      if g.Identifier? {
        SegmentOfIdentifier(t);
      } else if g.Plain? {
        if Rest(t) != "" { StripFirst(Rest(t)); }
        PlainFirst(g.c, v);
      } else {
        BlanksFirst(g, v);
      }
    }
  }

  predicate IsBlank(c: char) {
    c == ' ' || c == '\n'
  }

  lemma BlankFirst(t: string)
    requires t != "" && IsBlank(t[0])
    ensures Segments(t) == [Plain(t[0])] + Segments(t[1..])
  {
  }

  lemma PairUp(a: Segment, b: Segment, rest: seq<Segment>)
    ensures [a] + ([b] + rest) == [a, b] + rest
  {
  }

  lemma BlankPairFirst(t: string)
    requires |t| > 1 && IsBlank(t[0]) && IsBlank(t[1])
    ensures Segments(t) == [Plain(t[0]), Plain(t[1])] + Segments(t[2..])
  {
    BlankFirst(t);
    BlankFirst(t[1..]);
    assert t[1..][1..] == t[2..];
    PairUp(Plain(t[0]), Plain(t[1]), Segments(t[2..]));
  }

  lemma BlanksFirst(g: Segment, v: string)
    requires IsComment(g)
    ensures Segments(Clean(g) + v) == ReplaceOne(g) + Segments(v)
  {
    var t := Clean(g) + v;
    if g.closed {
      assert t[2..] == v;
      BlankPairFirst(t);
    } else {
      assert t[1..] == v;
      BlankFirst(t);
    }
  }

  lemma IdentifiersOfOne(g: Segment)
    ensures Identifiers([g]) == if g.Identifier? then [g.body] else []
  {
    assert [g][1..] == [];
  }

  lemma ReplacedOne(g: Segment)
    ensures NoComments(ReplaceOne(g)) && Identifiers(ReplaceOne(g)) == if g.Identifier? then [g.body] else []
  {
    var r := ReplaceOne(g);
    IdentifiersOfOne(r[0]);
    if |r| == 2 {
      assert r == [r[0]] + [r[1]];
      IdentifiersAppend([r[0]], [r[1]]);
      IdentifiersOfOne(r[1]);
    } else {
      assert r == [r[0]];
    }
  }

  lemma NoCommentsAppend(a: seq<Segment>, b: seq<Segment>)
    requires NoComments(a) && NoComments(b)
    ensures NoComments(a + b)
  {
  }

  lemma {:induction false} ReplaceHasNoComments(gs: seq<Segment>)
    ensures NoComments(Replace(gs)) && Identifiers(Replace(gs)) == Identifiers(gs)
    decreases |gs|
  {
    if gs == [] {
    } else {
      ReplaceHasNoComments(gs[1..]);
      ReplacedOne(gs[0]);
      NoCommentsAppend(ReplaceOne(gs[0]), Replace(gs[1..]));
      IdentifiersAppend(ReplaceOne(gs[0]), Replace(gs[1..]));
    }
  }

  lemma {:induction false} IdentifiersAppend(a: seq<Segment>, b: seq<Segment>)
    ensures Identifiers(a + b) == Identifiers(a) + Identifiers(b)
    decreases |a|
  {
    if a == [] {
      assert a + b == b;
    } else {
      assert (a + b)[1..] == a[1..] + b;
      IdentifiersAppend(a[1..], b);
    }
  }

  lemma {:induction false} NoCommentsIsRaw(gs: seq<Segment>)
    requires NoComments(gs)
    ensures CleanText(gs) == RawText(gs)
    decreases |gs|
  {
    if gs == [] {
    } else {
      assert gs[0] in gs;
      NoCommentsIsRaw(gs[1..]);
    }
  }

  /** No comment is left, and the quoted identifiers are the ones there were, unchanged. */
  lemma StrippedTextHasNoComments(t: string)
    ensures NoComments(Segments(EmitNormal(t)))
    ensures Identifiers(Segments(EmitNormal(t))) == Identifiers(Segments(t))
  {
    StripIsClean(t);
    SegmentsOfStripped(t);
    ReplaceHasNoComments(Segments(t));
  }

  /** Stripping twice is stripping once. */
  lemma StripIdempotent(t: string)
    ensures EmitNormal(EmitNormal(t)) == EmitNormal(t)
  {
    var u := EmitNormal(t);
    StrippedTextHasNoComments(t);
    StripIsClean(u);
    NoCommentsIsRaw(Segments(u));
    SegmentsAreText(u);
  }

  lemma {:induction false} CommentsShrink(t: string)
    ensures |Strip(t)| <= |t|
    ensures !NoComments(Segments(t)) ==> |Strip(t)| < |t|
    decreases |t|
  {
    if t == "" {
    } else {
      StripUnfold(t);
      CommentsShrink(Rest(t));
      CleanShrinks(t);
    }
  }

  lemma CleanShrinks(t: string)
    requires t != ""
    ensures var g := FirstSegment(t); |Clean(g)| <= |Raw(g)| && (IsComment(g) ==> |Clean(g)| < |Raw(g)|)
  {
    var g := FirstSegment(t);
    if g.LineComment? && g.closed { LineClosed(t[2..]); }
    if g.BlockComment? && g.closed { BlockClosed(t[2..]); }
  }

  lemma {:induction false} LineClosed(t: string)
    requires '\n' in t
    ensures LineTail(t) > 0 && t[LineTail(t) - 1] == '\n'
    decreases |t|
  {
    if t[0] != '\n' {
      assert t == [t[0]] + t[1..];
      LineClosed(t[1..]);
    }
  }

  lemma {:induction false} BlockClosed(t: string)
    requires BlockCloses(t)
    ensures BlockTail(t) > 1 && t[BlockTail(t) - 2] == '*' && t[BlockTail(t) - 1] == '/'
    decreases |t|
  {
    if !Starts(t, '*', '/') {
      BlockClosed(t[1..]);
    }
  }

  // ---------------------------------------------------------------- openers, by counting quotes

  /** Reading on with the parity of the double quotes so far: no comment opens at even parity. */
  predicate NoOpenerFrom(odd: bool, t: string)
    decreases |t|
  {
    t == "" || ((odd || (!Starts(t, '-', '-') && !Starts(t, '/', '*'))) && NoOpenerFrom(odd != (t[0] == '"'), t[1..]))
  }

  function DoubleQuotes(t: string): nat {
    if t == "" then 0 else (if t[0] == '"' then 1 else 0) + DoubleQuotes(t[1..])
  }

  /** A comment mark at `i` outside double quotes: an even number of them comes before it, `odd` counted in. */
  predicate OpensAt(odd: bool, t: string, i: nat)
    requires i <= |t|
  {
    (Starts(t[i..], '-', '-') || Starts(t[i..], '/', '*')) && (odd <==> DoubleQuotes(t[..i]) % 2 == 1)
  }

  lemma OpensShift(odd: bool, t: string, i: nat)
    requires t != "" && i < |t|
    ensures OpensAt(odd, t, i + 1) <==> OpensAt(odd != (t[0] == '"'), t[1..], i)
  {
    assert t[1..][i..] == t[i + 1..];
    assert t[..i + 1][1..] == t[1..][..i];
  }

  lemma {:induction false} NoOpenerPointwise(odd: bool, t: string)
    ensures NoOpenerFrom(odd, t) <==> forall i :: 0 <= i <= |t| ==> !OpensAt(odd, t, i)
    decreases |t|
  {
    if t == "" {
    } else {
      var rest, odd' := t[1..], odd != (t[0] == '"');
      NoOpenerPointwise(odd', rest);
      assert t[0..] == t && t[..0] == "";
      assert OpensAt(odd, t, 0) <==> !odd && (Starts(t, '-', '-') || Starts(t, '/', '*'));
      forall i | 0 <= i < |t| ensures OpensAt(odd, t, i + 1) <==> OpensAt(odd', rest, i) {
        OpensShift(odd, t, i);
      }
      forall i | 1 <= i <= |t| ensures OpensAt(odd, t, i) <==> OpensAt(odd', rest, i - 1) {
        assert OpensAt(odd, t, (i - 1) + 1) <==> OpensAt(odd', rest, i - 1);
      }
    }
  }

  /** Inside a quoted identifier nothing opens, and a closed one restores the parity. */
  lemma {:induction false} QuotedHasNoOpener(t: string)
    ensures IdentifierCloses(t) ==> (NoOpenerFrom(true, t) <==> NoOpenerFrom(false, t[IdentifierTail(t)..]))
    ensures !IdentifierCloses(t) ==> NoOpenerFrom(true, t)
    decreases |t|
  {
    if t == "" {
    } else {
      if t[0] != '"' {
        QuotedHasNoOpener(t[1..]);
        CutAfter(t, 1, IdentifierTail(t[1..]));
      } else if Starts(t, '"', '"') {
        QuotedHasNoOpener(t[2..]);
        CutAfter(t, 2, IdentifierTail(t[2..]));
        assert t[1..][1..] == t[2..];
      }
    }
  }

  /** The segmentation finds a comment exactly when a mark opens outside double quotes. */
  lemma {:induction false} NoOpenerIffNoComments(t: string)
    ensures NoOpenerFrom(false, t) <==> NoComments(Segments(t))
    decreases |t|
  {
    if t == "" {
    } else {
      var g := FirstSegment(t);
      StripUnfold(t);
      NoOpenerIffNoComments(Rest(t));
      if g.Identifier? {
        QuotedHasNoOpener(t[1..]);
        CutAfter(t, 1, IdentifierTail(t[1..]));
        if !IdentifierCloses(t[1..]) { UnclosedReachesEnd(t[1..]); }
      } else if IsComment(g) {
        assert g in Segments(t);
      }
      assert NoComments(Segments(t)) <==> !IsComment(g) && NoComments(Segments(Rest(t))) by {
        NoCommentsFirst(g, Segments(Rest(t)));
      }
    }
  }

  lemma NoCommentsFirst(g: Segment, gs: seq<Segment>)
    ensures NoComments([g] + gs) <==> !IsComment(g) && NoComments(gs)
  {
    assert g in [g] + gs;
    assert forall h :: h in gs ==> h in [g] + gs;
  }

  /** No comment mark opens outside double quotes. */
  ghost predicate NoOpener(t: string) {
    forall i :: 0 <= i <= |t| ==> !OpensAt(false, t, i)
  }

  /** The stripped text has no comment mark outside double quotes. */
  lemma StrippedTextHasNoOpener(t: string)
    ensures NoOpener(EmitNormal(t))
  {
    StrippedTextHasNoComments(t);
    NoOpenerIffNoComments(EmitNormal(t));
    NoOpenerPointwise(false, EmitNormal(t));
  }

  /** Stripping leaves a text as it is exactly when no comment mark opens outside double quotes. */
  lemma StripIsIdentityIff(t: string)
    ensures EmitNormal(t) == t <==> NoOpener(t)
  {
    NoOpenerIffNoComments(t);
    NoOpenerPointwise(false, t);
    StripIsClean(t);
    if NoComments(Segments(t)) {
      NoCommentsIsRaw(Segments(t));
      SegmentsAreText(t);
    } else {
      CommentsShrink(t);
    }
  }
}
