/**
 What the subset matcher decides: a declarative matching relation with
 order-preserving list embeddings, its equivalence with the greedy comparison, and
 its laws.
 */
module EvalMatching {
  import opened EvalMatcher

  /** Where in the tree a comparison happens, as far as it matters. */
  datatype Place = Root | TraceEvents | Inside

  function PlaceOf(path: Path): Place {
    if path == [] then Root else if path == TRACE_PATH then TraceEvents else Inside
  }

  function Child(p: Place, key: string): Place {
    if p == Root && key == "trace_events" then TraceEvents else Inside
  }

  ghost predicate Increasing(f: seq<nat>, bound: nat) {
    && (forall i :: 0 <= i < |f| ==> f[i] < bound)
    && (forall i, j :: 0 <= i < j < |f| ==> f[i] < f[j])
  }

  ghost predicate AbsentHolds(actual: seq<Field>, spec: Json) {
    spec.JList? && forall v :: v in spec.items ==> v.JStr? && !HasKey(actual, v.s)
  }

  ghost predicate AllObjects(items: seq<Json>) {
    forall i :: 0 <= i < |items| ==> items[i].JObj?
  }

  /** The matching relation, without reference to any search. */
  ghost predicate Matches(a: Json, e: Json, p: Place)
    decreases e, 1, 0
  {
    if p == TraceEvents then
      && e.JList? && a.JList?
      && AllObjects(e.items)
      && Embeddable(a.items, e)
    else match e
      case JObj(fields) => a.JObj? && forall i :: 0 <= i < |fields| ==> FieldMatches(a.fields, fields[i], p)
      case JList(items) => a.JList? && Embeddable(a.items, e)
      case _ => ScalarEq(a, e)
  }

  ghost predicate FieldMatches(a: seq<Field>, field: Field, p: Place)
    decreases field.value, 2, 0
  {
    if field.key == ABSENT then AbsentHolds(a, field.value)
    else HasKey(a, field.key) && Matches(Get(a, field.key), field.value, Child(p, field.key))
  }

  /** The whole expected list has an order-preserving embedding. */
  ghost predicate Embeddable(actual: seq<Json>, e: Json)
    requires e.JList?
    decreases e, 0, |e.items| + 1
  {
    exists f: seq<nat> :: Embeds(actual, e, |e.items|, f)
  }

  /** `f` places the first `n` expected items, in order, on distinct actual items they match. */
  ghost predicate Embeds(actual: seq<Json>, e: Json, n: nat, f: seq<nat>)
    requires e.JList? && n <= |e.items|
    decreases e, 0, n
  {
    && |f| == n && Increasing(f, |actual|)
    && forall i :: 0 <= i < n ==> Matches(actual[f[i]], e.items[i], Inside)
  }

  lemma EmbeddingOf(actual: seq<Json>, e: Json) returns (f: seq<nat>)
    requires e.JList? && Embeddable(actual, e)
    ensures Embeds(actual, e, |e.items|, f)
  {
    f :| Embeds(actual, e, |e.items|, f);
  }

  // ---------------------------------------------------------------- the greedy scan decides it

  lemma {:induction false} AbsentIff(actual: seq<Field>, names: seq<Json>, n: nat, path: Path)
    requires n <= |names| && forall v :: v in names ==> v.JStr?
    ensures AbsentMismatches(actual, names, n, path) == [] <==> forall i :: 0 <= i < n ==> !HasKey(actual, names[i].s)
    decreases n
  {
    if n == 0 {
    } else {
      AbsentIff(actual, names, n - 1, path);
    }
  }

  lemma CompareAbsentIff(actual: seq<Field>, spec: Json, path: Path)
    ensures CompareAbsent(actual, spec, path) == [] <==> AbsentHolds(actual, spec)
  {
    if spec.JList? && forall v :: v in spec.items ==> v.JStr? {
      AbsentIff(actual, spec.items, |spec.items|, path);
    }
  }

  /**
   The comparison reports nothing exactly when the relation holds: the greedy scan
   never misses an embedding, at any nesting depth.
   */
  lemma {:induction false} CompareIffMatches(a: Json, e: Json, path: Path)
    ensures Compare(a, e, path) == [] <==> Matches(a, e, PlaceOf(path))
    decreases e, 1, 0
  {
    if path == TRACE_PATH || e.JList? {
      if a.JList? && e.JList? {
        ScanIff(a.items, e, path, path == TRACE_PATH);
      }
    } else if e.JObj? && a.JObj? {
      FieldsIff(a.fields, e, |e.fields|, path);
    }
  }

  lemma PlaceOfChild(path: Path, key: string)
    requires path != TRACE_PATH
    ensures PlaceOf(path + [Key(key)]) == Child(PlaceOf(path), key)
  {
    var p := path + [Key(key)];
    assert p[|p| - 1] == Key(key);
    if path == [] { assert p == [Key(key)]; }
  }

  lemma {:induction false} FieldIff(a: seq<Field>, field: Field, path: Path)
    requires path != TRACE_PATH
    ensures CompareField(a, field, path) == [] <==> FieldMatches(a, field, PlaceOf(path))
    decreases field.value, 2, 0
  {
    if field.key == ABSENT {
      CompareAbsentIff(a, field.value, path);
    } else if HasKey(a, field.key) {
      PlaceOfChild(path, field.key);
      CompareIffMatches(Get(a, field.key), field.value, path + [Key(field.key)]);
    }
  }

  lemma {:induction false} FieldsIff(a: seq<Field>, e: Json, n: nat, path: Path)
    requires e.JObj? && n <= |e.fields| && path != TRACE_PATH
    ensures CompareFields(a, e, n, path) == [] <==>
      forall i :: 0 <= i < n ==> FieldMatches(a, e.fields[i], PlaceOf(path))
    decreases e, 0, n
  {
    if n == 0 {
    } else {
      FieldsIff(a, e, n - 1, path);
      FieldIff(a, e.fields[n - 1], path);
    }
  }

  lemma {:induction false} FirstMatchIs(actual: seq<Json>, item: Json, start: nat, path: Path)
    requires start <= |actual| && |path| > 0 && path != TRACE_PATH
    ensures var j := FirstMatch(actual, item, start, path);
      && (j < |actual| ==> Matches(actual[j], item, Inside))
      && forall k :: start <= k < j ==> !Matches(actual[k], item, Inside)
    decreases item, 2, |actual| - start
  {
    if start == |actual| {
    } else {
      CompareIffMatches(actual[start], item, path);
      if Compare(actual[start], item, path) != [] {
        FirstMatchIs(actual, item, start + 1, path);
      }
    }
  }

  /** A scan without mismatch has found an embedding that ends before its search position. */
  lemma {:induction false} ScanSound(actual: seq<Json>, e: Json, n: nat, path: Path, traceEvents: bool)
    returns (f: seq<nat>)
    requires e.JList? && n <= |e.items| && Scan(actual, e, n, path, traceEvents).0 == []
    ensures Embeds(actual, e, n, f)
    ensures forall i :: 0 <= i < n ==> f[i] < Scan(actual, e, n, path, traceEvents).1
    ensures traceEvents ==> forall i :: 0 <= i < n ==> e.items[i].JObj?
    decreases e, 0, n
  {
    f := [];
    if n == 0 {
    } else {
      var g := ScanSound(actual, e, n - 1, path, traceEvents);
      var start, itemPath := Scan(actual, e, n - 1, path, traceEvents).1, path + [Index(n - 1)];
      assert itemPath[|itemPath| - 1] == Index(n - 1);
      FirstMatchIs(actual, e.items[n - 1], start, itemPath);
      f := g + [FirstMatch(actual, e.items[n - 1], start, itemPath)];
    }
  }

  /** When an embedding exists the scan finds one too, and never ends further right. */
  lemma {:induction false} ScanComplete(actual: seq<Json>, e: Json, n: nat, path: Path, traceEvents: bool, f: seq<nat>)
    requires e.JList? && n <= |e.items| && Embeds(actual, e, n, f)
    requires traceEvents ==> forall i :: 0 <= i < n ==> e.items[i].JObj?
    ensures Scan(actual, e, n, path, traceEvents).0 == []
    ensures n > 0 ==> Scan(actual, e, n, path, traceEvents).1 <= f[n - 1] + 1
    decreases e, 0, n
  {
    if n == 0 {
    } else {
      ScanComplete(actual, e, n - 1, path, traceEvents, f[..n - 1]);
      var start, itemPath := Scan(actual, e, n - 1, path, traceEvents).1, path + [Index(n - 1)];
      assert itemPath[|itemPath| - 1] == Index(n - 1);
      assert start <= f[n - 1];
      FirstMatchIs(actual, e.items[n - 1], start, itemPath);
      assert FirstMatch(actual, e.items[n - 1], start, itemPath) <= f[n - 1];
    }
  }

  /** The greedy scan reports nothing exactly when an order-preserving embedding exists. */
  lemma {:induction false} ScanIff(actual: seq<Json>, e: Json, path: Path, traceEvents: bool)
    requires e.JList?
    ensures Scan(actual, e, |e.items|, path, traceEvents).0 == [] <==>
      && (traceEvents ==> AllObjects(e.items))
      && Embeddable(actual, e)
    decreases e, 0, |e.items| + 1
  {
    if Scan(actual, e, |e.items|, path, traceEvents).0 == [] {
      var f := ScanSound(actual, e, |e.items|, path, traceEvents);
    }
    if (traceEvents ==> AllObjects(e.items)) && Embeddable(actual, e) {
      var f := EmbeddingOf(actual, e);
      ScanComplete(actual, e, |e.items|, path, traceEvents, f);
    }
  }

  // ---------------------------------------------------------------- reflexivity

  ghost predicate UniqueKeys(fields: seq<Field>) {
    forall i, j :: 0 <= i < j < |fields| ==> fields[i].key != fields[j].key
  }

  /** A dictionary has each key once, at every level. */
  ghost predicate IsValue(v: Json) {
    match v
    case JObj(fields) => UniqueKeys(fields) && forall i :: 0 <= i < |fields| ==> IsValue(fields[i].value)
    case JList(items) => forall i :: 0 <= i < |items| ==> IsValue(items[i])
    case _ => true
  }

  /**
   A value that does not speak against itself: every "$absent" list names only keys
   missing from its own object, and the root's trace events are a list of objects.
   */
  ghost predicate SelfConsistent(v: Json, p: Place)
    decreases v, 0
  {
    if p == TraceEvents then
      v.JList? && AllObjects(v.items) && forall i :: 0 <= i < |v.items| ==> SelfConsistent(v.items[i], Inside)
    else match v
      case JObj(fields) => forall i :: 0 <= i < |fields| ==> FieldConsistent(fields, fields[i], p)
      case JList(items) => forall i :: 0 <= i < |items| ==> SelfConsistent(items[i], Inside)
      case _ => true
  }

  ghost predicate FieldConsistent(fields: seq<Field>, field: Field, p: Place)
    decreases field.value, 1
  {
    if field.key == ABSENT then AbsentHolds(fields, field.value)
    else SelfConsistent(field.value, Child(p, field.key))
  }

  lemma GetOwn(fields: seq<Field>, i: nat)
    requires i < |fields| && UniqueKeys(fields)
    ensures HasKey(fields, fields[i].key) && Get(fields, fields[i].key) == fields[i].value
  {
    var j := IndexOf(fields, fields[i].key);
  }

  /** An order-preserving embedding of a list into itself is the identity. */
  lemma SelfEmbeddingIsIdentity(f: seq<nat>, n: nat, i: nat)
    requires |f| == n && Increasing(f, n) && i < n
    ensures f[i] == i
  {
    AtLeast(f, n, i);
    AtMost(f, n, i);
  }

  lemma {:induction false} AtLeast(f: seq<nat>, n: nat, i: nat)
    requires |f| == n && Increasing(f, n) && i < n
    ensures f[i] >= i
    decreases i
  {
    if i == 0 {
    } else {
      AtLeast(f, n, i - 1);
    }
  }

  lemma {:induction false} AtMost(f: seq<nat>, n: nat, i: nat)
    requires |f| == n && Increasing(f, n) && i < n
    ensures f[i] <= i
    decreases n - i
  {
    if i + 1 < n { AtMost(f, n, i + 1); }
  }

  function Identity(n: nat): (f: seq<nat>)
    ensures |f| == n && forall i :: 0 <= i < n ==> f[i] == i
  {
    if n == 0 then [] else Identity(n - 1) + [n - 1]
  }

  lemma SelfEmbedding(v: Json)
    requires v.JList? && forall i :: 0 <= i < |v.items| ==> Matches(v.items[i], v.items[i], Inside)
    ensures Embeddable(v.items, v)
  {
    assert Embeds(v.items, v, |v.items|, Identity(|v.items|));
  }

  lemma SelfEmbeddingMatches(v: Json, f: seq<nat>, i: nat)
    requires v.JList? && Embeds(v.items, v, |v.items|, f) && i < |v.items|
    ensures Matches(v.items[i], v.items[i], Inside)
  {
    SelfEmbeddingIsIdentity(f, |v.items|, i);
  }

  lemma {:induction false} FieldReflexive(fields: seq<Field>, i: nat, p: Place)
    requires i < |fields| && UniqueKeys(fields) && IsValue(fields[i].value)
    ensures FieldMatches(fields, fields[i], p) <==> FieldConsistent(fields, fields[i], p)
    decreases fields[i].value, 2
  {
    GetOwn(fields, i);
    if fields[i].key != ABSENT { ReflexiveIff(fields[i].value, Child(p, fields[i].key)); }
  }

  lemma {:induction false} ListReflexive(v: Json)
    requires v.JList? && IsValue(v)
    ensures (Embeddable(v.items, v)) <==>
      forall i :: 0 <= i < |v.items| ==> SelfConsistent(v.items[i], Inside)
    decreases v, 0
  {
    forall i | 0 <= i < |v.items|
      ensures Matches(v.items[i], v.items[i], Inside) <==> SelfConsistent(v.items[i], Inside)
    {
      ReflexiveIff(v.items[i], Inside);
    }
    if Embeddable(v.items, v) {
      var f := EmbeddingOf(v.items, v);
      forall i | 0 <= i < |v.items| ensures SelfConsistent(v.items[i], Inside) {
        SelfEmbeddingMatches(v, f, i);
      }
    } else if forall i :: 0 <= i < |v.items| ==> SelfConsistent(v.items[i], Inside) {
      SelfEmbedding(v);
    }
  }

  /** A value matches itself exactly when it is self-consistent. */
  lemma {:induction false} ReflexiveIff(v: Json, p: Place)
    requires IsValue(v)
    ensures Matches(v, v, p) <==> SelfConsistent(v, p)
    decreases v, 1
  {
    if v.JList? {
      ListReflexive(v);
    } else if v.JObj? {
      forall i | 0 <= i < |v.fields|
        ensures FieldMatches(v.fields, v.fields[i], p) <==> FieldConsistent(v.fields, v.fields[i], p)
      {
        FieldReflexive(v.fields, i, p);
      }
    }
  }

  /** Comparing a value with itself reports nothing exactly when it is self-consistent. */
  lemma CompareReflexiveIff(v: Json)
    requires IsValue(v)
    ensures Compare(v, v, []) == [] <==> SelfConsistent(v, Root)
  {
    CompareIffMatches(v, v, []);
    ReflexiveIff(v, Root);
  }

  // ---------------------------------------------------------------- paths as text

  function Digits(n: nat): string {
    if n < 10 then ["0123456789"[n]] else Digits(n / 10) + ["0123456789"[n % 10]]
  }

  function RenderTail(path: Path): (s: string)
    ensures path == [] ==> s == ""
    ensures path != [] ==> s != "" && s[0] == if path[0].Key? then '.' else '['
  {
    if path == [] then ""
    else
      match path[0]
      case Key(k) => "." + k + RenderTail(path[1..])
      case Index(i) => "[" + Digits(i) + "]" + RenderTail(path[1..])
  }

  /** The path as the code builds it, by string concatenation. */
  function Render(path: Path): string {
    "actual" + RenderTail(path)
  }

  /** Comparing rendered paths, as the code does, selects exactly the root's trace events. */
  lemma RenderedTracePathIsUnique(path: Path)
    ensures Render(path) == "actual.trace_events" <==> path == TRACE_PATH
  {
    if path == TRACE_PATH {
      assert TRACE_PATH[1..] == [];
    }
    if Render(path) == "actual.trace_events" {
      assert RenderTail(path) == Render(path)[6..] == ".trace_events";
      KeyBeforeTail(path[0].key, RenderTail(path[1..]));
      assert path[1..] == [];
      assert path == [path[0]] + path[1..];
    }
  }

  lemma RestHead(k: string, rest: string)
    ensures rest != "" ==> ("." + k + rest)[1 + |k|] == rest[0]
  {
  }

  lemma KeyBeforeTail(k: string, rest: string)
    requires "." + k + rest == ".trace_events" && (rest != "" ==> rest[0] == '.' || rest[0] == '[')
    ensures k == "trace_events" && rest == ""
  {
    var s := "." + k + rest;
    assert k == s[1..1 + |k|] && rest == s[1 + |k|..];
    RestHead(k, rest);
  }
}
