/**
 What redaction does to a text, to a key and to a value, on the text itself: where secrets
 are replaced, which keys are sensitive, and what becomes of every part of a value.
 */
module RedactionMeaning {
  import opened Sequences
  import opened Redaction

  // ---------------------------------------------------------------- replacing one secret

  function JoinWith(pieces: seq<string>, mark: string): string
    requires pieces != []
  {
    if |pieces| == 1 then pieces[0] else pieces[0] + mark + JoinWith(pieces[1..], mark)
  }

  /** The secret stands first right behind this piece. */
  ghost predicate FirstBehind(piece: string, secret: string, rest: string) {
    forall j :: 0 <= j < |piece| ==> !OccursAt(secret, piece + secret + rest, j)
  }

  /** The pieces of the text between leftmost occurrences of the secret. */
  ghost predicate CutAt(t: string, secret: string, pieces: seq<string>) {
    && pieces != [] && t == JoinWith(pieces, secret)
    && !Occurs(secret, pieces[|pieces| - 1])
    && forall i :: 0 <= i < |pieces| - 1 ==> FirstBehind(pieces[i], secret, JoinWith(pieces[i + 1..], secret))
  }

  lemma {:induction false} ReplacedPieces(t: string, secret: string) returns (pieces: seq<string>)
    requires secret != ""
    ensures CutAt(t, secret, pieces) && ReplaceAll(t, secret) == JoinWith(pieces, "[REDACTED]")
    decreases |t|
  {
    if !Occurs(secret, t) {
      pieces := [t];
    } else {
      var i := FindFrom(secret, t, 0);
      var rest := t[i + |secret|..];
      var more := ReplacedPieces(rest, secret);
      pieces := [t[..i]] + more;
      CutsFirst(t, secret, i, more);
    }
  }

  lemma CutsFirst(t: string, secret: string, i: nat, more: seq<string>)
    requires OccursAt(secret, t, i) && (forall j :: 0 <= j < i ==> !OccursAt(secret, t, j))
    requires CutAt(t[i + |secret|..], secret, more)
    ensures CutAt(t, secret, [t[..i]] + more)
    ensures JoinWith([t[..i]] + more, "[REDACTED]") == t[..i] + "[REDACTED]" + JoinWith(more, "[REDACTED]")
  {
    var pieces, rest := [t[..i]] + more, t[i + |secret|..];
    assert pieces[1..] == more;
    assert t == t[..i] + secret + rest;
    forall k | 0 <= k < |pieces| - 1 ensures FirstBehind(pieces[k], secret, JoinWith(pieces[k + 1..], secret)) {
      if k == 0 {
        assert pieces[1..] == more;
      } else {
        assert pieces[k] == more[k - 1] && pieces[k + 1..] == more[k..];
        assert FirstBehind(more[k - 1], secret, JoinWith(more[k - 1 + 1..], secret));
      }
    }
  }

  /** There is only one way to cut a text at a secret. */
  lemma {:induction false} CutOnce(t: string, secret: string, a: seq<string>, b: seq<string>)
    requires secret != "" && CutAt(t, secret, a) && CutAt(t, secret, b)
    ensures a == b
    decreases |a|
  {
    if |a| == 1 || |b| == 1 {
      if |a| > 1 { OccursBehind(a, secret); }
      if |b| > 1 { OccursBehind(b, secret); }
      assert a == [t] && b == [t];
    } else {
      SameFirst(a[0], b[0], secret, JoinWith(a[1..], secret), JoinWith(b[1..], secret));
      assert t[|a[0]| + |secret|..] == JoinWith(a[1..], secret) && t[|b[0]| + |secret|..] == JoinWith(b[1..], secret);
      CutRest(t, secret, a);
      CutRest(t, secret, b);
      CutOnce(JoinWith(a[1..], secret), secret, a[1..], b[1..]);
      assert a == [a[0]] + a[1..] && b == [b[0]] + b[1..];
    }
  }

  lemma OccursBehind(a: seq<string>, secret: string)
    requires |a| > 1
    ensures Occurs(secret, JoinWith(a, secret))
  {
    assert OccursAt(secret, JoinWith(a, secret), |a[0]|);
  }

  lemma CutRest(t: string, secret: string, a: seq<string>)
    requires CutAt(t, secret, a) && |a| > 1
    ensures CutAt(JoinWith(a[1..], secret), secret, a[1..])
  {
    forall k | 0 <= k < |a[1..]| - 1 ensures FirstBehind(a[1..][k], secret, JoinWith(a[1..][k + 1..], secret)) {
      assert a[1..][k + 1..] == a[k + 2..];
      assert FirstBehind(a[k + 1], secret, JoinWith(a[k + 1 + 1..], secret));
    }
  }

  lemma SameFirst(x: string, y: string, secret: string, u: string, v: string)
    requires x + secret + u == y + secret + v && FirstBehind(x, secret, u) && FirstBehind(y, secret, v)
    ensures x == y
  {
    var t := x + secret + u;
    assert OccursAt(secret, t, |x|) && OccursAt(secret, t, |y|);
    assert |x| == |y|;
    assert x == t[..|x|] && y == t[..|y|];
  }

  /** Replacing a secret puts the marker between the pieces the text is cut into at its leftmost occurrences. */
  lemma ReplaceMeaning(t: string, secret: string, pieces: seq<string>)
    requires secret != "" && CutAt(t, secret, pieces)
    ensures ReplaceAll(t, secret) == JoinWith(pieces, "[REDACTED]")
  {
    var own := ReplacedPieces(t, secret);
    CutOnce(t, secret, pieces, own);
  }

  // ---------------------------------------------------------------- which keys are sensitive

  const LOWER := "abcdefghijklmnopqrstuvwxyz"
  const UPPER := "ABCDEFGHIJKLMNOPQRSTUVWXYZ"

  /** Only the small letters change, each to its capital. */
  lemma UpperMeaning(c: char)
    ensures c in LOWER ==> exists i :: 0 <= i < 26 && LOWER[i] == c && UPPER[i] == UpperChar(c)
    ensures c !in LOWER ==> UpperChar(c) == c
  {
    if 'a' <= c <= 'z' {
      var i := (c - 'a') as int;
      assert LOWER[i] == c && UPPER[i] == UpperChar(c);
    }
  }

  /** A word of the key, between underscores or at its ends. */
  ghost predicate HasWord(key: string, word: string) {
    Occurs("_" + word + "_", "_" + Upper(key) + "_")
  }

  /** Four words are sensitive anywhere in a key, six only as whole words between underscores. */
  lemma SensitiveIff(key: string)
    ensures IsSensitiveKey(key) <==>
      || (exists w :: w in ["DSN", "TNS", "WALLET", "CONNECTION_STRING"] && Occurs(w, Upper(key)))
      || (exists w :: w in ["PASS", "PASSWORD", "SECRET", "TOKEN", "API_KEY", "PRIVATE_KEY"] && HasWord(key, w))
  {
    var upper := Upper(key);
    forall w | w in SENSITIVE_KEY_PARTS
      ensures HasWord(key, w) <==>
        upper == w || StartsWith(upper, w + "_") || EndsWith(upper, "_" + w) || Occurs("_" + w + "_", upper)
    {
      WordIff(upper, w);
    }
  }

  lemma WordIff(upper: string, w: string)
    requires w != ""
    ensures Occurs("_" + w + "_", "_" + upper + "_") <==>
      upper == w || StartsWith(upper, w + "_") || EndsWith(upper, "_" + w) || Occurs("_" + w + "_", upper)
  {
    var s, t := "_" + w + "_", "_" + upper + "_";
    if Occurs(s, t) {
      var i :| 0 <= i <= |t| && OccursAt(s, t, i);
      WordAt(upper, w, i);
    }
    if upper == w { assert OccursAt(s, t, 0); }
    if StartsWith(upper, w + "_") { WordStarts(upper, w); }
    if EndsWith(upper, "_" + w) { WordEnds(upper, w); }
    if i :| 0 <= i <= |upper| && OccursAt(s, upper, i) {
      assert t[i + 1..i + 1 + |s|] == upper[i..i + |s|];
      assert OccursAt(s, t, i + 1);
    }
  }

  lemma WordStarts(upper: string, w: string)
    requires StartsWith(upper, w + "_")
    ensures Occurs("_" + w + "_", "_" + upper + "_")
  {
    var s, t := "_" + w + "_", "_" + upper + "_";
    assert upper[0..|w| + 1] == w + "_";
    assert t[0..|s|] == "_" + upper[0..|w| + 1];
    assert OccursAt(s, t, 0);
  }

  lemma WordEnds(upper: string, w: string)
    requires EndsWith(upper, "_" + w)
    ensures Occurs("_" + w + "_", "_" + upper + "_")
  {
    var s, t, k := "_" + w + "_", "_" + upper + "_", |upper| - |w| - 1;
    assert upper[k..k + |w| + 1] == "_" + w;
    assert t[k + 1..k + 1 + |s|] == upper[k..k + |w| + 1] + "_";
    assert OccursAt(s, t, k + 1);
  }

  /** An occurrence between underscores is the whole key, or at its start, its end or inside. */
  lemma WordAt(upper: string, w: string, i: nat)
    requires w != "" && OccursAt("_" + w + "_", "_" + upper + "_", i)
    ensures upper == w || StartsWith(upper, w + "_") || EndsWith(upper, "_" + w) || Occurs("_" + w + "_", upper)
  {
    var s, t := "_" + w + "_", "_" + upper + "_";
    assert t[i..i + |s|] == s;
    if i == 0 && |s| == |t| {
      assert s == t;
      assert upper == t[1..|t| - 1] && w == s[1..|s| - 1];
    } else if i == 0 {
      assert upper[0..|w| + 1] == t[1..|w| + 2] == s[1..] == w + "_";
      assert OccursAt(w + "_", upper, 0);
    } else if i + |s| == |t| {
      assert upper[i - 1..] == t[i..|t| - 1] == s[..|s| - 1] == "_" + w;
      assert |upper| - (|w| + 1) == i - 1;
    } else {
      assert upper[i - 1..i - 1 + |s|] == t[i..i + |s|];
      assert OccursAt(s, upper, i - 1);
    }
  }

  // ---------------------------------------------------------------- which values are secrets

  /** The variable's value is long enough, and its name is sensitive. */
  predicate IsSecret(environ: seq<(string, string)>, i: nat) {
    i < |environ| && |environ[i].1| >= 4 && IsSensitiveKey(environ[i].0)
  }

  ghost predicate SecretsAt(environ: seq<(string, string)>, n: nat, secrets: seq<string>, places: seq<nat>) {
    && n <= |environ| && |places| == |secrets| && Ascending(places)
    && (forall i: nat :: i in places <==> i < n && IsSecret(environ, i))
    && forall k :: 0 <= k < |places| ==> places[k] < |environ| && secrets[k] == environ[places[k]].1
  }

  lemma {:induction false} SecretPlaces(environ: seq<(string, string)>, n: nat) returns (places: seq<nat>)
    requires n <= |environ|
    ensures SecretsAt(environ, n, Secrets(environ[..n]), places)
    decreases n
  {
    if n == 0 {
      places := [];
    } else {
      places := SecretPlaces(environ, n - 1);
      assert environ[..n][..n - 1] == environ[..n - 1];
      SecretsSnoc(environ, n - 1, Secrets(environ[..n - 1]), places);
      if IsSecret(environ, n - 1) { places := places + [n - 1]; }
    }
  }

  lemma SecretsSnoc(environ: seq<(string, string)>, n: nat, secrets: seq<string>, places: seq<nat>)
    requires n < |environ| && SecretsAt(environ, n, secrets, places)
    ensures if IsSecret(environ, n) then SecretsAt(environ, n + 1, secrets + [environ[n].1], places + [n])
      else SecretsAt(environ, n + 1, secrets, places)
  {
    AscendingSnoc(places, n);
  }

  /** The secrets are the values of four or more characters under sensitive names, in the environment's order. */
  lemma SecretsMeaning(environ: seq<(string, string)>) returns (places: seq<nat>)
    ensures SecretsAt(environ, |environ|, Secrets(environ), places)
  {
    places := SecretPlaces(environ, |environ|);
    assert environ[..|environ|] == environ;
  }

  // ---------------------------------------------------------------- a text and a value

  /** The text with one secret after another replaced. */
  ghost predicate ReplacedInTurn(secrets: seq<string>, texts: seq<string>) {
    && |texts| == |secrets| + 1
    && forall k :: 0 <= k < |secrets| ==> secrets[k] != "" && texts[k + 1] == ReplaceAll(texts[k], secrets[k])
  }

  lemma {:induction false} RedactAllTexts(text: string, secrets: seq<string>) returns (texts: seq<string>)
    requires NonEmpty(secrets)
    ensures ReplacedInTurn(secrets, texts) && texts[0] == text && texts[|secrets|] == RedactAll(text, secrets)
    decreases |secrets|
  {
    if secrets == [] {
      texts := [text];
    } else {
      var n := |secrets| - 1;
      var before := RedactAllTexts(text, secrets[..n]);
      texts := before + [RedactAll(text, secrets)];
      forall k | 0 <= k < |secrets| ensures secrets[k] != "" && texts[k + 1] == ReplaceAll(texts[k], secrets[k]) {
        if k < n { assert secrets[..n][k] == secrets[k]; }
      }
    }
  }

  /** The text after all secrets of the environment have been replaced in turn. */
  ghost predicate TextRedacted(text: string, environ: seq<(string, string)>, r: string) {
    exists texts :: ReplacedInTurn(Secrets(environ), texts) && texts[0] == text && texts[|texts| - 1] == r
  }

  /** What becomes of a value: every part of it, in its place. */
  ghost predicate BecomesRedacted(v: Value, environ: seq<(string, string)>, r: Value)
    decreases v
  {
    match v
    case Str(s) => r.Str? && TextRedacted(s, environ, r.s)
    case List(items) => r.List? && |r.items| == |items| && forall i :: 0 <= i < |items| ==> BecomesRedacted(items[i], environ, r.items[i])
    case Tuple(items) => r.Tuple? && |r.items| == |items| && forall i :: 0 <= i < |items| ==> BecomesRedacted(items[i], environ, r.items[i])
    case Dict(entries) =>
      r.Dict? && |r.entries| == |entries| && forall i :: 0 <= i < |entries| ==>
        r.entries[i].key == entries[i].key
        && if !IsSensitiveKey(entries[i].key) then BecomesRedacted(entries[i].value, environ, r.entries[i].value)
           else if entries[i].value.Bool? || entries[i].value.Null? then r.entries[i].value == entries[i].value
           else r.entries[i].value == Str("[REDACTED]")
    case _ => r == v
  }

  lemma {:induction false} RedactMeaning(v: Value, environ: seq<(string, string)>)
    ensures BecomesRedacted(v, environ, Redact(v, environ))
    decreases v
  {
    match v
    case Str(s) =>
      var texts := RedactAllTexts(s, Secrets(environ));
    case List(items) =>
      forall i | 0 <= i < |items| { RedactMeaning(items[i], environ); }
    case Tuple(items) =>
      forall i | 0 <= i < |items| { RedactMeaning(items[i], environ); }
    case Dict(entries) =>
      forall i | 0 <= i < |entries| { RedactMeaning(entries[i].value, environ); }
    case _ =>
  }
}
