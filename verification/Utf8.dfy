/**
 UTF-8 as section 3 of RFC 3629 defines it: encoding text, and decoding bytes that
 may be malformed, with each maximal malformed part replaced or dropped.
 */
module Utf8 {

  type Byte = b: int | 0 <= b < 0x100

  /** The next piece of a byte string: a character, or a malformed part, and its length in bytes. */
  datatype Piece = Char(c: char, length: nat) | Bad(length: nat)

  const REPLACEMENT: char := '\U{FFFD}'

  // ---------------------------------------------------------------- encoding

  /** A continuation byte: the low six bits of `n`. */
  function Tail(n: nat): (b: Byte)
    ensures b == 0x80 + n % 0x40 && Continues(b)
  {
    0x80 + n % 0x40
  }

  function EncodeChar(c: char): (e: seq<Byte>)
    ensures 1 <= |e| <= 4
  {
    var n: nat := c as int;
    if n < 0x80 then [n]
    else if n < 0x800 then [0xC0 + n / 0x40, Tail(n)]
    else if n < 0x10000 then [0xE0 + n / 0x1000, Tail(n / 0x40), Tail(n)]
    else [0xF0 + n / 0x40000, Tail(n / 0x1000), Tail(n / 0x40), Tail(n)]
  }

  function Encode(text: string): seq<Byte> {
    if text == "" then [] else EncodeChar(text[0]) + Encode(text[1..])
  }

  // ---------------------------------------------------------------- decoding

  predicate Continues(b: Byte) {
    0x80 <= b < 0xC0
  }

  /** The second byte fits the first: this excludes overlong forms, surrogates and points beyond 10FFFF. */
  predicate SecondFits(first: Byte, second: Byte) {
    && Continues(second)
    && (first == 0xE0 ==> second >= 0xA0)
    && (first == 0xED ==> second < 0xA0)
    && (first == 0xF0 ==> second >= 0x90)
    && (first == 0xF4 ==> second < 0x90)
  }

  /** The payload of a byte whose fixed high bits are `mark`. */
  function Bits(b: Byte, mark: int): int {
    b - mark
  }

  function Next(s: seq<Byte>): (p: Piece)
    requires s != []
    ensures 1 <= p.length <= |s| && (p.Bad? ==> p.length <= 3)
  {
    var b := s[0];
    if b < 0x80 then Char(b as char, 1)
    else if b < 0xC2 || b > 0xF4 then Bad(1)
    else if |s| < 2 || !SecondFits(b, s[1]) then Bad(1)
    else if b < 0xE0 then Char((Bits(b, 0xC0) * 0x40 + Bits(s[1], 0x80)) as char, 2)
    else if |s| < 3 || !Continues(s[2]) then Bad(2)
    else if b < 0xF0 then Char((Bits(b, 0xE0) * 0x1000 + Bits(s[1], 0x80) * 0x40 + Bits(s[2], 0x80)) as char, 3)
    else if |s| < 4 || !Continues(s[3]) then Bad(3)
    else Char((Bits(b, 0xF0) * 0x40000 + Bits(s[1], 0x80) * 0x1000 + Bits(s[2], 0x80) * 0x40 + Bits(s[3], 0x80)) as char, 4)
  }

  /** Each malformed part becomes one replacement character. */
  function DecodeReplacing(s: seq<Byte>): string
    decreases |s|
  {
    if s == [] then ""
    else
      var p := Next(s);
      [if p.Char? then p.c else REPLACEMENT] + DecodeReplacing(s[p.length..])
  }

  /** Malformed parts are dropped. */
  function DecodeIgnoring(s: seq<Byte>): string
    decreases |s|
  {
    if s == [] then ""
    else
      var p := Next(s);
      (if p.Char? then [p.c] else "") + DecodeIgnoring(s[p.length..])
  }

  ghost predicate WellFormed(s: seq<Byte>)
    decreases |s|
  {
    s == [] || (Next(s).Char? && WellFormed(s[Next(s).length..]))
  }

  // ---------------------------------------------------------------- one character

  lemma EncodedTwo(c: char, rest: seq<Byte>)
    requires 0x80 <= c as int < 0x800
    ensures Next(EncodeChar(c) + rest) == Char(c, 2)
  {
    var n, s := c as int, EncodeChar(c) + rest;
    assert s[0] == 0xC0 + n / 0x40 && s[1] == 0x80 + n % 0x40;
  }

  lemma EncodedThree(c: char, rest: seq<Byte>)
    requires 0x800 <= c as int < 0x10000
    ensures Next(EncodeChar(c) + rest) == Char(c, 3)
  {
    var n, s := c as int, EncodeChar(c) + rest;
    assert s[0] == 0xE0 + n / 0x1000 && s[1] == 0x80 + n / 0x40 % 0x40 && s[2] == 0x80 + n % 0x40;
    ThreeDigits(n);
  }

  lemma ThreeDigits(n: int)
    requires 0x800 <= n < 0x10000
    ensures n == n / 0x1000 * 0x1000 + n / 0x40 % 0x40 * 0x40 + n % 0x40
    ensures 0 <= n / 0x1000 < 0x10
    ensures n / 0x1000 == 0 ==> n / 0x40 % 0x40 >= 0x20
    ensures n / 0x1000 == 0xD && (n < 0xD800) ==> n / 0x40 % 0x40 < 0x20
    ensures n / 0x1000 == 0xD ==> n < 0xE000
  {
    assert n / 0x1000 == n / 0x40 / 0x40;
  }

  lemma EncodedFour(c: char, rest: seq<Byte>)
    requires 0x10000 <= c as int
    ensures Next(EncodeChar(c) + rest) == Char(c, 4)
  {
    var n, s := c as int, EncodeChar(c) + rest;
    assert s[0] == 0xF0 + n / 0x40000 && s[1] == 0x80 + n / 0x1000 % 0x40
      && s[2] == 0x80 + n / 0x40 % 0x40 && s[3] == 0x80 + n % 0x40;
    FourDigits(n);
  }

  lemma FourDigits(n: int)
    requires 0x10000 <= n < 0x110000
    ensures n == n / 0x40000 * 0x40000 + n / 0x1000 % 0x40 * 0x1000 + n / 0x40 % 0x40 * 0x40 + n % 0x40
    ensures 0 <= n / 0x40000 <= 4
    ensures n / 0x40000 == 0 ==> n / 0x1000 % 0x40 >= 0x10
    ensures n / 0x40000 == 4 ==> n / 0x1000 % 0x40 < 0x10
  {
    assert n / 0x1000 == n / 0x40 / 0x40;
    assert n / 0x40000 == n / 0x1000 / 0x40;
  }

  /** Decoding starts by undoing the encoding of the first character. */
  lemma NextOfEncoded(c: char, rest: seq<Byte>)
    ensures Next(EncodeChar(c) + rest) == Char(c, |EncodeChar(c)|)
  {
    if c as int < 0x80 {
    } else if c as int < 0x800 {
      EncodedTwo(c, rest);
    } else if c as int < 0x10000 {
      EncodedThree(c, rest);
    } else {
      EncodedFour(c, rest);
    }
  }

  /** A decoded character encodes to the bytes it was read from. */
  lemma EncodeOfNext(s: seq<Byte>)
    requires s != [] && Next(s).Char?
    ensures EncodeChar(Next(s).c) == s[..Next(s).length]
  {
    var k := Next(s).length;
    if k == 3 {
      EncodeOfThree(s);
    } else if k == 4 {
      EncodeOfFour(s);
    }
  }

  lemma EncodeOfThree(s: seq<Byte>)
    requires s != [] && Next(s).Char? && Next(s).length == 3
    ensures EncodeChar(Next(s).c) == s[..3]
  {
    ThreeBack(s[0] - 0xE0, s[1] - 0x80, s[2] - 0x80);
  }

  lemma EncodeOfFour(s: seq<Byte>)
    requires s != [] && Next(s).Char? && Next(s).length == 4
    ensures EncodeChar(Next(s).c) == s[..4]
  {
    FourBack(s[0] - 0xF0, s[1] - 0x80, s[2] - 0x80, s[3] - 0x80);
  }

  lemma ThreeBack(a: int, b: int, c: int)
    requires 0 <= a < 0x10 && 0 <= b < 0x40 && 0 <= c < 0x40
    ensures var n := a * 0x1000 + b * 0x40 + c;
      n / 0x1000 == a && n / 0x40 % 0x40 == b && n % 0x40 == c
  {
    assert (a * 0x1000 + b * 0x40 + c) / 0x40 == a * 0x40 + b;
  }

  lemma FourBack(a: int, b: int, c: int, d: int)
    requires 0 <= a < 0x8 && 0 <= b < 0x40 && 0 <= c < 0x40 && 0 <= d < 0x40
    ensures var n := a * 0x40000 + b * 0x1000 + c * 0x40 + d;
      n / 0x40000 == a && n / 0x1000 % 0x40 == b && n / 0x40 % 0x40 == c && n % 0x40 == d
  {
    var n := a * 0x40000 + b * 0x1000 + c * 0x40 + d;
    assert n / 0x40 == a * 0x1000 + b * 0x40 + c;
    assert n / 0x1000 == a * 0x40 + b;
  }

  /** A character cut short is one malformed part. */
  lemma CutIsBad(c: char, n: nat)
    requires 0 < n < |EncodeChar(c)|
    ensures Next(EncodeChar(c)[..n]) == Bad(n)
  {
    NextOfEncoded(c, []);
    assert EncodeChar(c) + [] == EncodeChar(c);
    var e := EncodeChar(c);
    assert e[..n][0] == e[0];
    if n >= 2 { assert e[..n][1] == e[1]; }
    if n >= 3 { assert e[..n][2] == e[2]; }
  }

  // ---------------------------------------------------------------- whole strings

  /** Encoding then decoding gives the text back. */
  lemma {:induction false} DecodeOfEncode(text: string)
    ensures DecodeReplacing(Encode(text)) == text
    decreases |text|
  {
    if text == "" {
    } else {
      var e, rest := EncodeChar(text[0]), Encode(text[1..]);
      NextOfEncoded(text[0], rest);
      assert (e + rest)[|e|..] == rest;
      DecodeOfEncode(text[1..]);
      assert text == [text[0]] + text[1..];
    }
  }

  /** How many bytes replacing the malformed parts adds. */
  function Excess(s: seq<Byte>): nat
    decreases |s|
  {
    if s == [] then 0
    else
      var p := Next(s);
      Excess(s[p.length..]) + if p.Char? then 0 else 3 - p.length
  }

  lemma EncodeCons(c: char, text: string)
    ensures Encode([c] + text) == EncodeChar(c) + Encode(text)
  {
    assert ([c] + text)[1..] == text;
  }

  lemma ReplacementIsThreeBytes()
    ensures |EncodeChar(REPLACEMENT)| == 3 && EncodeChar(REPLACEMENT) == [0xEF, 0xBF, 0xBD]
  {
  }

  /** Decoding and encoding again never loses bytes, and grows by exactly the excess. */
  lemma {:induction false} ReencodedLength(s: seq<Byte>)
    ensures |Encode(DecodeReplacing(s))| == |s| + Excess(s)
    decreases |s|
  {
    if s == [] {
    } else {
      var p := Next(s);
      var rest := s[p.length..];
      ReencodedLength(rest);
      ReplacementIsThreeBytes();
      if p.Char? {
        EncodeCons(p.c, DecodeReplacing(rest));
        EncodeOfNext(s);
      } else {
        EncodeCons(REPLACEMENT, DecodeReplacing(rest));
      }
    }
  }

  /** What the replacement character encodes to is not a malformed start. */
  lemma ReplacementIsGood(s: seq<Byte>)
    ensures |s| >= 3 && s[..3] == EncodeChar(REPLACEMENT) ==> Next(s).Char?
  {
    if |s| >= 3 && s[..3] == EncodeChar(REPLACEMENT) {
      assert s[0] == s[..3][0] && s[1] == s[..3][1] && s[2] == s[..3][2];
    }
  }

  lemma CharStepFor(c: char, e: seq<Byte>, text: string, rest: seq<Byte>)
    requires EncodeChar(c) == e
    ensures Encode([c] + text) == e + rest <==> Encode(text) == rest
  {
    EncodeCons(c, text);
    SamePrefix(e, Encode(text), rest);
  }

  lemma CharStep(s: seq<Byte>)
    requires s != [] && Next(s).Char?
    ensures var rest := s[Next(s).length..];
      Encode(DecodeReplacing(s)) == s <==> Encode(DecodeReplacing(rest)) == rest
  {
    var p := Next(s);
    var rest := s[p.length..];
    EncodeOfNext(s);
    CharStepFor(p.c, s[..p.length], DecodeReplacing(rest), rest);
    assert s == s[..p.length] + rest;
  }

  lemma BadStep(s: seq<Byte>)
    requires s != [] && Next(s).Bad?
    ensures Encode(DecodeReplacing(s)) != s
  {
    var again := DecodeReplacing(s[Next(s).length..]);
    ReplacementIsGood(s);
    EncodeCons(REPLACEMENT, again);
    ReplacementIsThreeBytes();
    assert (EncodeChar(REPLACEMENT) + Encode(again))[..3] == EncodeChar(REPLACEMENT);
  }

  lemma SamePrefix(p: seq<Byte>, a: seq<Byte>, b: seq<Byte>)
    ensures p + a == p + b <==> a == b
  {
    assert (p + a)[|p|..] == a && (p + b)[|p|..] == b;
  }

  /** Decoding and encoding again gives the bytes back exactly when they are well formed. */
  lemma {:induction false} ReencodedIff(s: seq<Byte>)
    ensures Encode(DecodeReplacing(s)) == s <==> WellFormed(s)
    decreases |s|
  {
    if s == [] {
    } else {
      if Next(s).Char? {
        ReencodedIff(s[Next(s).length..]);
        CharStep(s);
      } else {
        BadStep(s);
      }
    }
  }

  // ---------------------------------------------------------------- bounded text

  function BoundText(text: string, max: nat): string {
    var encoded := Encode(text);
    if |encoded| <= max then text else DecodeIgnoring(encoded[..max])
  }

  /** The number of leading characters whose encoding fits. */
  ghost predicate LongestFit(text: string, max: nat, k: nat) {
    && k <= |text|
    && |Encode(text[..k])| <= max
    && forall j :: k < j <= |text| ==> |Encode(text[..j])| > max
  }

  lemma FitStep(text: string, max: nat, k: nat)
    requires text != "" && |EncodeChar(text[0])| <= max && LongestFit(text[1..], max - |EncodeChar(text[0])|, k)
    ensures LongestFit(text, max, k + 1)
  {
    forall j | 1 <= j <= |text| ensures Encode(text[..j]) == EncodeChar(text[0]) + Encode(text[1..][..j - 1]) {
      assert text[..j][1..] == text[1..][..j - 1];
    }
  }

  lemma FitNone(text: string, max: nat)
    requires text != "" && |EncodeChar(text[0])| > max
    ensures LongestFit(text, max, 0)
  {
    forall j | 0 < j <= |text| ensures |Encode(text[..j])| > max {
      assert text[..j][0] == text[0];
    }
  }

  /** Cutting the encoding anywhere and decoding gives the longest prefix that fits. */
  lemma {:induction false} CutIsLongestFit(text: string, max: nat) returns (k: nat)
    requires max <= |Encode(text)|
    ensures LongestFit(text, max, k) && DecodeIgnoring(Encode(text)[..max]) == text[..k]
    decreases |text|
  {
    if text == "" {
      k := 0;
    } else {
      var e, rest := EncodeChar(text[0]), Encode(text[1..]);
      if |e| <= max {
        k := CutIsLongestFit(text[1..], max - |e|);
        FitStep(text, max, k);
        CutKeepsFirst(text[0], rest, max);
        assert text[..k + 1] == [text[0]] + text[1..][..k];
        k := k + 1;
      } else {
        k := 0;
        FitNone(text, max);
        CutDropsFirst(text[0], rest, max);
      }
    }
  }

  lemma CutKeepsFirst(c: char, rest: seq<Byte>, max: nat)
    requires |EncodeChar(c)| <= max <= |EncodeChar(c)| + |rest|
    ensures DecodeIgnoring((EncodeChar(c) + rest)[..max]) == [c] + DecodeIgnoring(rest[..max - |EncodeChar(c)|])
  {
    var e := EncodeChar(c);
    var tail := rest[..max - |e|];
    assert (e + rest)[..max] == e + tail;
    NextOfEncoded(c, tail);
    assert (e + tail)[|e|..] == tail;
  }

  lemma CutDropsFirst(c: char, rest: seq<Byte>, max: nat)
    requires max < |EncodeChar(c)|
    ensures DecodeIgnoring((EncodeChar(c) + rest)[..max]) == ""
  {
    assert (EncodeChar(c) + rest)[..max] == EncodeChar(c)[..max];
    if max > 0 { CutIsBad(c, max); }
  }

  /** The bounded text is the longest prefix, in whole characters, that fits in `max` bytes. */
  lemma BoundTextIsLongestFit(text: string, max: nat) returns (k: nat)
    ensures LongestFit(text, max, k) && BoundText(text, max) == text[..k]
    ensures |Encode(BoundText(text, max))| <= max
  {
    if |Encode(text)| <= max {
      k := |text|;
      assert text[..k] == text;
    } else {
      k := CutIsLongestFit(text, max);
    }
  }
}
