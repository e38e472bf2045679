/**
 The golden-eval subset matcher: objects match by field, lists by an
 order-preserving greedy scan. The scan is proved complete at every depth.
 */
module EvalMatcher {

  datatype Json =
    | JNull
    | JBool(b: bool)
    | JNum(n: real)
    | JStr(s: string)
    | JList(items: seq<Json>)
    | JObj(fields: seq<Field>)

  /** A dictionary entry, in insertion order. */
  datatype Field = Field(key: string, value: Json)

  datatype Seg = Key(key: string) | Index(i: nat)

  /** Below the root "actual". */
  type Path = seq<Seg>

  const TRACE_PATH: Path := [Key("trace_events")]
  const ABSENT := "$absent"

  datatype Mismatch =
    | ExpectedObject(path: Path)
    | MissingKey(path: Path)
    | NotEqual(path: Path, expected: Json, actual: Json)
    | BadAbsentSpec(path: Path)
    | ExpectedAbsent(path: Path)
    | ExpectedArray(path: Path, got: Json)
    | ExpectedObjectSubset(path: Path)
    | NoMatchingItem(path: Path, item: Json)

  predicate HasKey(fields: seq<Field>, key: string) {
    exists i :: 0 <= i < |fields| && fields[i].key == key
  }

  function IndexOf(fields: seq<Field>, key: string): (i: nat)
    requires HasKey(fields, key)
    ensures i < |fields| && fields[i].key == key
  {
    if fields[0].key == key then 0
    else
      assert HasKey(fields[1..], key) by {
        var j :| 0 <= j < |fields| && fields[j].key == key;
        assert fields[1..][j - 1].key == key;
      }
      1 + IndexOf(fields[1..], key)
  }

  function Get(fields: seq<Field>, key: string): (v: Json)
    requires HasKey(fields, key)
    ensures exists i :: 0 <= i < |fields| && fields[i] == Field(key, v)
  {
    var i := IndexOf(fields, key);
    assert fields[i] == Field(key, fields[i].value);
    fields[i].value
  }

  /** Python equality against a scalar: booleans are the numbers 0 and 1. */
  predicate ScalarEq(a: Json, e: Json) {
    match (a, e)
    case (JBool(x), JNum(n)) => n == if x then 1.0 else 0.0
    case (JNum(n), JBool(x)) => n == if x then 1.0 else 0.0
    case _ => a == e
  }

  // ---------------------------------------------------------------- the comparison, as a function

  function AbsentMismatches(actual: seq<Field>, names: seq<Json>, n: nat, path: Path): seq<Mismatch>
    requires n <= |names| && forall v :: v in names ==> v.JStr?
  {
    if n == 0 then []
    else
      AbsentMismatches(actual, names, n - 1, path)
      + if HasKey(actual, names[n - 1].s) then [ExpectedAbsent(path + [Key(names[n - 1].s)])] else []
  }

  function CompareAbsent(actual: seq<Field>, expected: Json, path: Path): seq<Mismatch> {
    if !expected.JList? || exists v :: v in expected.items && !v.JStr? then [BadAbsentSpec(path + [Key(ABSENT)])]
    else AbsentMismatches(actual, expected.items, |expected.items|, path)
  }

  function Compare(actual: Json, expected: Json, path: Path): seq<Mismatch>
    decreases expected, 1, 0
  {
    if path == TRACE_PATH then
      if !expected.JList? then [ExpectedArray(path, expected)]
      else if !actual.JList? then [ExpectedArray(path, actual)]
      else Scan(actual.items, expected, |expected.items|, path, true).0
    else match expected
      case JObj(fields) =>
        if !actual.JObj? then [ExpectedObject(path)]
        else CompareFields(actual.fields, expected, |fields|, path)
      case JList(items) =>
        if !actual.JList? then [ExpectedArray(path, actual)]
        else Scan(actual.items, expected, |items|, path, false).0
      case _ => if ScalarEq(actual, expected) then [] else [NotEqual(path, expected, actual)]
  }

  function CompareField(actual: seq<Field>, field: Field, path: Path): seq<Mismatch>
    decreases field.value, 2, 0
  {
    if field.key == ABSENT then CompareAbsent(actual, field.value, path)
    else if !HasKey(actual, field.key) then [MissingKey(path + [Key(field.key)])]
    else Compare(Get(actual, field.key), field.value, path + [Key(field.key)])
  }

  /** The first `n` fields of the expected object. */
  function CompareFields(actual: seq<Field>, expected: Json, n: nat, path: Path): seq<Mismatch>
    requires expected.JObj? && n <= |expected.fields|
    decreases expected, 0, n
  {
    if n == 0 then []
    else CompareFields(actual, expected, n - 1, path) + CompareField(actual, expected.fields[n - 1], path)
  }

  /** The first actual item from `start` on that matches, or the number of items. */
  function FirstMatch(actual: seq<Json>, item: Json, start: nat, path: Path): (j: nat)
    requires start <= |actual|
    ensures start <= j <= |actual|
    decreases item, 2, |actual| - start
  {
    if start == |actual| || Compare(actual[start], item, path) == [] then start
    else FirstMatch(actual, item, start + 1, path)
  }

  /** The greedy scan over the first `n` expected items: the mismatches, and where to search next. */
  function Scan(actual: seq<Json>, expected: Json, n: nat, path: Path, traceEvents: bool): (r: (seq<Mismatch>, nat))
    requires expected.JList? && n <= |expected.items|
    ensures r.1 <= |actual|
    decreases expected, 0, n
  {
    if n == 0 then ([], 0)
    else
      var (mismatches, start) := Scan(actual, expected, n - 1, path, traceEvents);
      var item, itemPath := expected.items[n - 1], path + [Index(n - 1)];
      if traceEvents && !item.JObj? then (mismatches + [ExpectedObjectSubset(itemPath)], start)
      else
        var j := FirstMatch(actual, item, start, itemPath);
        if j == |actual| then (mismatches + [NoMatchingItem(itemPath, item)], start)
        else (mismatches, j + 1)
  }

  // ---------------------------------------------------------------- the comparison, as written

  method CompareAbsentKeys(actual: seq<Field>, expected: Json, path: Path) returns (mismatches: seq<Mismatch>)
    ensures mismatches == CompareAbsent(actual, expected, path)
  {
    if !expected.JList? || exists v :: v in expected.items && !v.JStr? {
      return [BadAbsentSpec(path + [Key(ABSENT)])];
    }
    mismatches := [];
    for i := 0 to |expected.items|
      invariant mismatches == AbsentMismatches(actual, expected.items, i, path)
    {
      if HasKey(actual, expected.items[i].s) {
        mismatches := mismatches + [ExpectedAbsent(path + [Key(expected.items[i].s)])];
      }
    }
  }

  method CompareExpected(actual: Json, expected: Json, path: Path) returns (mismatches: seq<Mismatch>)
    ensures mismatches == Compare(actual, expected, path)
    decreases expected, 1
  {
    if path == TRACE_PATH {
      mismatches := CompareTraceEventSubsets(actual, expected, path);
      return;
    }
    if expected.JObj? {
      if !actual.JObj? {
        return [ExpectedObject(path)];
      }
      mismatches := [];
      for i := 0 to |expected.fields|
        invariant mismatches == CompareFields(actual.fields, expected, i, path)
      {
        var Field(key, value) := expected.fields[i];
        var more;
        if key == ABSENT {
          more := CompareAbsentKeys(actual.fields, value, path);
        } else if !HasKey(actual.fields, key) {
          more := [MissingKey(path + [Key(key)])];
        } else {
          more := CompareExpected(Get(actual.fields, key), value, path + [Key(key)]);
        }
        mismatches := mismatches + more;
      }
    } else if expected.JList? {
      mismatches := CompareListSubset(actual, expected, path);
    } else if ScalarEq(actual, expected) {
      mismatches := [];
    } else {
      mismatches := [NotEqual(path, expected, actual)];
    }
  }

  /** The inner scan for one expected item. */
  method SearchFrom(actual: seq<Json>, item: Json, start: nat, path: Path) returns (j: nat)
    requires start <= |actual|
    ensures j == FirstMatch(actual, item, start, path)
    decreases item, 2
  {
    j := start;
    while j < |actual|
      invariant start <= j <= |actual|
      invariant FirstMatch(actual, item, start, path) == FirstMatch(actual, item, j, path)
    {
      var candidate := CompareExpected(actual[j], item, path);
      if candidate == [] {
        return;
      }
      j := j + 1;
    }
  }

  method CompareListSubset(actual: Json, expected: Json, path: Path) returns (mismatches: seq<Mismatch>)
    requires expected.JList?
    ensures mismatches == if !actual.JList? then [ExpectedArray(path, actual)]
                          else Scan(actual.items, expected, |expected.items|, path, false).0
    decreases expected, 0
  {
    if !actual.JList? {
      return [ExpectedArray(path, actual)];
    }
    mismatches := [];
    var searchStart := 0;
    for i := 0 to |expected.items|
      invariant searchStart <= |actual.items|
      invariant (mismatches, searchStart) == Scan(actual.items, expected, i, path, false)
    {
      var j := SearchFrom(actual.items, expected.items[i], searchStart, path + [Index(i)]);
      if j == |actual.items| {
        mismatches := mismatches + [NoMatchingItem(path + [Index(i)], expected.items[i])];
        continue;
      }
      searchStart := j + 1;
    }
  }

  method CompareTraceEventSubsets(actual: Json, expected: Json, path: Path) returns (mismatches: seq<Mismatch>)
    ensures mismatches == if !expected.JList? then [ExpectedArray(path, expected)]
                          else if !actual.JList? then [ExpectedArray(path, actual)]
                          else Scan(actual.items, expected, |expected.items|, path, true).0
    decreases expected, 0
  {
    if !expected.JList? {
      return [ExpectedArray(path, expected)];
    }
    if !actual.JList? {
      return [ExpectedArray(path, actual)];
    }
    mismatches := [];
    var searchStart := 0;
    for i := 0 to |expected.items|
      invariant searchStart <= |actual.items|
      invariant (mismatches, searchStart) == Scan(actual.items, expected, i, path, true)
    {
      if !expected.items[i].JObj? {
        mismatches := mismatches + [ExpectedObjectSubset(path + [Index(i)])];
        continue;
      }
      var j := SearchFrom(actual.items, expected.items[i], searchStart, path + [Index(i)]);
      if j == |actual.items| {
        mismatches := mismatches + [NoMatchingItem(path + [Index(i)], expected.items[i])];
        continue;
      }
      searchStart := j + 1;
    }
  }
}
