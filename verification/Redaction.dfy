/**
 Secret redaction: replacing every listed secret in every string of a value, and
 exactly when that leaves no secret behind.
 */
module Redaction {

  const REDACTION := "[REDACTED]"
  const CORE := "REDACTED"

  const SENSITIVE_KEY_PARTS: seq<string> := ["PASS", "PASSWORD", "SECRET", "TOKEN", "API_KEY", "PRIVATE_KEY"]
  const SENSITIVE_KEY_SUBSTRINGS: seq<string> := ["DSN", "TNS", "WALLET", "CONNECTION_STRING"]

  // ---------------------------------------------------------------- text

  predicate OccursAt(s: string, t: string, i: nat) {
    i + |s| <= |t| && t[i..i + |s|] == s
  }

  predicate Occurs(s: string, t: string) {
    exists i :: 0 <= i <= |t| && OccursAt(s, t, i)
  }

  /** The leftmost occurrence at or after `from`. */
  function FindFrom(s: string, t: string, from: nat): (i: nat)
    requires exists j :: from <= j <= |t| && OccursAt(s, t, j)
    ensures from <= i && OccursAt(s, t, i) && forall j :: from <= j < i ==> !OccursAt(s, t, j)
    decreases |t| - from
  {
    if OccursAt(s, t, from) then from else FindFrom(s, t, from + 1)
  }

  /** Replace the leftmost occurrence, then go on after it; occurrences do not overlap. */
  function ReplaceAll(t: string, secret: string): string
    requires secret != ""
    decreases |t|
  {
    if !Occurs(secret, t) then t
    else
      var i := FindFrom(secret, t, 0);
      t[..i] + REDACTION + ReplaceAll(t[i + |secret|..], secret)
  }

  /** The secrets among the environment's values, in its order. */
  function Secrets(environ: seq<(string, string)>): (r: seq<string>)
    ensures forall i :: 0 <= i < |r| ==> |r[i]| >= 4
  {
    if environ == [] then []
    else
      var n := |environ| - 1;
      var (key, value) := environ[n];
      Secrets(environ[..n]) + if |value| < 4 || !IsSensitiveKey(key) then [] else [value]
  }

  ghost predicate NonEmpty(secrets: seq<string>) {
    forall i :: 0 <= i < |secrets| ==> secrets[i] != ""
  }

  /** Replacing the secrets one after the other. */
  function RedactAll(text: string, secrets: seq<string>): string
    requires NonEmpty(secrets)
  {
    if secrets == [] then text
    else ReplaceAll(RedactAll(text, secrets[..|secrets| - 1]), secrets[|secrets| - 1])
  }

  function RedactString(text: string, environ: seq<(string, string)>): string {
    RedactAll(text, Secrets(environ))
  }

  lemma RedactStringStep(text: string, environ: seq<(string, string)>, i: nat)
    requires i < |environ|
    ensures RedactString(text, environ[..i + 1])
         == if |environ[i].1| < 4 || !IsSensitiveKey(environ[i].0) then RedactString(text, environ[..i])
            else ReplaceAll(RedactString(text, environ[..i]), environ[i].1)
  {
    assert environ[..i + 1][..i] == environ[..i];
    var before, after := Secrets(environ[..i]), Secrets(environ[..i + 1]);
    if |environ[i].1| < 4 || !IsSensitiveKey(environ[i].0) {
      assert after == before;
    } else {
      assert after == before + [environ[i].1] && after[..|before|] == before;
    }
  }

  method RedactKnownSecretValues(text: string, environ: seq<(string, string)>) returns (redacted: string)
    ensures redacted == RedactString(text, environ)
  {
    redacted := text;
    assert environ[..0] == [];
    for i := 0 to |environ|
      invariant redacted == RedactString(text, environ[..i])
    {
      RedactStringStep(text, environ, i);
      var (key, value) := environ[i];
      if value == "" || |value| < 4 || !IsSensitiveKey(key) {
        continue;
      }
      redacted := ReplaceAll(redacted, value);
    }
    assert environ[..|environ|] == environ;
  }

  // ---------------------------------------------------------------- keys

  function UpperChar(c: char): char {
    if 'a' <= c <= 'z' then c - 'a' + 'A' else c
  }

  function Upper(s: string): string {
    seq(|s|, i requires 0 <= i < |s| => UpperChar(s[i]))
  }

  predicate StartsWith(t: string, s: string) { OccursAt(s, t, 0) }

  predicate EndsWith(t: string, s: string) { |s| <= |t| && OccursAt(s, t, |t| - |s|) }

  predicate IsSensitiveKey(key: string) {
    var upper := Upper(key);
    || (exists part :: part in SENSITIVE_KEY_SUBSTRINGS && Occurs(part, upper))
    || (exists part :: part in SENSITIVE_KEY_PARTS &&
          (upper == part || StartsWith(upper, part + "_") || EndsWith(upper, "_" + part)
           || Occurs("_" + part + "_", upper)))
  }

  // ---------------------------------------------------------------- values

  datatype Value =
    | Null
    | Bool(b: bool)
    | Num(n: int)
    | Str(s: string)
    | List(items: seq<Value>)
    | Tuple(items: seq<Value>)
    | Dict(entries: seq<Entry>)

  datatype Entry = Entry(key: string, value: Value)

  function RedactSensitive(v: Value): Value {
    if v.Bool? || v.Null? then v else Str(REDACTION)
  }

  function RedactItems(items: seq<Value>, environ: seq<(string, string)>): (r: seq<Value>)
    ensures |r| == |items| && forall i :: 0 <= i < |items| ==> r[i] == Redact(items[i], environ)
    decreases items
  {
    if items == [] then [] else [Redact(items[0], environ)] + RedactItems(items[1..], environ)
  }

  function RedactEntry(e: Entry, environ: seq<(string, string)>): Entry
    decreases e
  {
    Entry(e.key, if IsSensitiveKey(e.key) then RedactSensitive(e.value) else Redact(e.value, environ))
  }

  function RedactEntries(entries: seq<Entry>, environ: seq<(string, string)>): (r: seq<Entry>)
    ensures |r| == |entries| && forall i :: 0 <= i < |entries| ==> r[i] == RedactEntry(entries[i], environ)
    decreases entries
  {
    if entries == [] then [] else [RedactEntry(entries[0], environ)] + RedactEntries(entries[1..], environ)
  }

  function Redact(v: Value, environ: seq<(string, string)>): Value
    decreases v
  {
    match v
    case Dict(entries) => Dict(RedactEntries(entries, environ))
    case List(items) => List(RedactItems(items, environ))
    case Tuple(items) => Tuple(RedactItems(items, environ))
    case Str(s) => Str(RedactString(s, environ))
    case _ => v
  }
}
