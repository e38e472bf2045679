/**
 The multi-source reconciliation: grouping records by patent id, merging each
 field's observations and applying the rules.
 */
module Reconcile {
  import opened Sorting
  import opened Ordering

  datatype Val = Null | Bool(b: bool) | Str(s: string)

  type Record = map<string, Val>
  type Sources = map<string, seq<Record>>

  /** One observed value and the source it came from. */
  type Obs = (string, Val)

  type Fields = map<string, seq<Obs>>

  datatype Malformed = Malformed(source: string, index: nat, record: Record)

  datatype Conflict = Conflict(patentId: string, field: string, values: seq<Obs>)

  datatype FailedRule =
    | IdentityMatch(patentId: string, sources: set<string>)
    | FieldValueConsistency(patentId: string, evidence: Conflict)
    | PeriodValid(patentId: string, expected: string, actual: Val)
    | RequiredFieldsPresent(patentId: string)
    | AssetStatusValid(patentId: string, statuses: set<Val>)
    | NoDuplicateRegistration(patentId: string)
    | IdentityPresent(malformed: Malformed)

  datatype Reconciliation = Reconciliation(
    resolved: bool,
    sourceCounts: map<string, nat>,
    records: map<string, Record>,
    missingRequired: seq<string>,
    conflicts: seq<Conflict>,
    malformed: seq<Malformed>,
    failedRules: seq<FailedRule>)

  const SOURCES_FIELD := "_sources"
  const PATENT_ID := "patent_id"

  function Text(v: Val): string {
    match v
    case Null => "None"
    case Bool(b) => if b then "True" else "False"
    case Str(s) => s
  }

  predicate IsMissing(v: Val) {
    v == Null || v == Str("")
  }

  predicate Truthy(v: Val) {
    v != Null && v != Str("") && v != Bool(false)
  }

  function Get(r: Record, f: string): Val {
    if f in r then r[f] else Null
  }

  predicate HasId(r: Record) {
    Truthy(Get(r, PATENT_ID))
  }

  function IdOf(r: Record): string {
    Text(Get(r, PATENT_ID))
  }

  function LowerChar(c: char): char {
    if 'A' <= c <= 'Z' then c - 'A' + 'a' else c
  }

  /** The value says "already registered": true, or a text that reads "true" in any case. */
  predicate IsTrue(v: Val) {
    var t := Text(v);
    v == Bool(true)
    || (|t| == 4 && LowerChar(t[0]) == 't' && LowerChar(t[1]) == 'r' && LowerChar(t[2]) == 'u' && LowerChar(t[3]) == 'e')
  }

  // ---------------------------------------------------------------- grouping

  /** A record in its place: its source and its index there. */
  datatype Entry = Entry(source: string, index: nat, record: Record)

  function EntriesOf(source: string, records: seq<Record>): (r: seq<Entry>)
    ensures |r| == |records|
    ensures forall i :: 0 <= i < |r| ==> r[i] == Entry(source, i, records[i])
  {
    seq(|records|, i requires 0 <= i < |records| => Entry(source, i, records[i]))
  }

  /** All records, by source name and then in order. */
  function Entries(sources: Sources, names: seq<string>): seq<Entry>
    requires forall n :: n in names ==> n in sources
  {
    if names == [] then []
    else
      var k := |names| - 1;
      Entries(sources, names[..k]) + EntriesOf(names[k], sources[names[k]])
  }

  function AllEntries(sources: Sources): seq<Entry> {
    Entries(sources, Sorted(sources.Keys))
  }

  /** What one record adds to the observations of a field. */
  function Contribution(e: Entry, f: string): seq<Obs> {
    (if f == SOURCES_FIELD then [(e.source, Str(e.source))] else [])
    + if f in e.record then [(e.source, e.record[f])] else []
  }

  function Observations(entries: seq<Entry>, id: string, f: string): seq<Obs> {
    if entries == [] then []
    else
      var k := |entries| - 1;
      Observations(entries[..k], id, f)
      + if HasId(entries[k].record) && IdOf(entries[k].record) == id then Contribution(entries[k], f) else []
  }

  function MalformedOf(entries: seq<Entry>): seq<Malformed> {
    if entries == [] then []
    else
      var k := |entries| - 1;
      MalformedOf(entries[..k])
      + if HasId(entries[k].record) then [] else [Malformed(entries[k].source, entries[k].index, entries[k].record)]
  }

  /** `grouped` as the loop builds it, one record at a time. */
  function Group(entries: seq<Entry>): map<string, Fields> {
    if entries == [] then map[]
    else
      var k := |entries| - 1;
      var grouped := Group(entries[..k]);
      if HasId(entries[k].record) then AddEntry(grouped, entries[k]) else grouped
  }

  function AddEntry(grouped: map<string, Fields>, e: Entry): map<string, Fields> {
    var id := IdOf(e.record);
    var fields := if id in grouped then grouped[id] else map[];
    grouped[id := AddFields(fields, e)]
  }

  function AddFields(fields: Fields, e: Entry): Fields {
    AddSome(fields, e, e.record.Keys)
  }

  /** A field's observations once the record's tag and its fields in `done` are in. */
  function Observed(fields: Fields, e: Entry, done: set<string>, f: string): seq<Obs>
    requires done <= e.record.Keys
  {
    var before := if f in fields then fields[f] else [];
    var tagged := if f == SOURCES_FIELD then before + [(e.source, Str(e.source))] else before;
    if f in done then tagged + [(e.source, e.record[f])] else tagged
  }

  /** The record's fields merged so far: its source tag and the fields in `done`. */
  function AddSome(fields: Fields, e: Entry, done: set<string>): Fields
    requires done <= e.record.Keys
  {
    map f | f in fields.Keys + {SOURCES_FIELD} + done :: Observed(fields, e, done, f)
  }

  function Append(fields: Fields, f: string, o: Obs): Fields {
    fields[f := (if f in fields then fields[f] else []) + [o]]
  }

  lemma AddSomeStep(fields: Fields, e: Entry, done: set<string>, f: string)
    requires done <= e.record.Keys && f in e.record && f !in done
    ensures Append(AddSome(fields, e, done), f, (e.source, e.record[f])) == AddSome(fields, e, done + {f})
  {
  }

  lemma AddSomeStart(fields: Fields, e: Entry)
    ensures Append(fields, SOURCES_FIELD, (e.source, Str(e.source))) == AddSome(fields, e, {})
  {
  }

  /** The fields of one record, appended one by one in name order. */
  method MergeRecord(fields0: Fields, e: Entry) returns (fields: Fields)
    ensures fields == AddFields(fields0, e)
  {
    fields := Append(fields0, SOURCES_FIELD, (e.source, Str(e.source)));
    AddSomeStart(fields0, e);
    var keys := e.record.Keys;
    var names := Sorted(keys);
    ghost var done: set<string> := {};
    LeastEnds(keys);
    for i := 0 to |names|
      invariant done == Least(keys, i) <= keys && fields == AddSome(fields0, e, done)
    {
      LeastStep(keys, i);
      AddSomeStep(fields0, e, done, names[i]);
      fields := Append(fields, names[i], (e.source, e.record[names[i]]));
      done := done + {names[i]};
    }
  }

  lemma EntriesStep(sources: Sources, names: seq<string>, k: nat)
    requires k < |names| && forall n :: n in names ==> n in sources
    ensures forall n :: n in names[..k] ==> n in sources
    ensures forall n :: n in names[..k + 1] ==> n in sources
    ensures Entries(sources, names[..k + 1]) == Entries(sources, names[..k]) + EntriesOf(names[k], sources[names[k]])
  {
    assert names[..k + 1][..k] == names[..k];
  }

  /** One source's records, grouped on top of what came before. */
  method GroupSource(source: string, records: seq<Record>, grouped0: map<string, Fields>, malformed0: seq<Malformed>,
                     ghost before: seq<Entry>)
    returns (grouped: map<string, Fields>, malformed: seq<Malformed>)
    requires grouped0 == Group(before) && malformed0 == MalformedOf(before)
    ensures grouped == Group(before + EntriesOf(source, records))
    ensures malformed == MalformedOf(before + EntriesOf(source, records))
  {
    grouped, malformed := grouped0, malformed0;
    ghost var seen := before;
    assert before + EntriesOf(source, records)[..0] == before;
    for i := 0 to |records|
      invariant seen == before + EntriesOf(source, records)[..i]
      invariant grouped == Group(seen) && malformed == MalformedOf(seen)
    {
      var e := Entry(source, i, records[i]);
      ghost var next := seen + [e];
      assert next[..|next| - 1] == seen;
      assert EntriesOf(source, records)[..i + 1] == EntriesOf(source, records)[..i] + [e];
      seen := next;
      if !HasId(e.record) {
        malformed := malformed + [Malformed(source, i, e.record)];
        continue;
      }
      var id := IdOf(e.record);
      var fields := MergeRecord(if id in grouped then grouped[id] else map[], e);
      grouped := grouped[id := fields];
    }
    assert EntriesOf(source, records)[..|records|] == EntriesOf(source, records);
  }

  method GroupRecords(sources: Sources) returns (grouped: map<string, Fields>, malformed: seq<Malformed>)
    ensures grouped == Group(AllEntries(sources)) && malformed == MalformedOf(AllEntries(sources))
  {
    var names := Sorted(sources.Keys);
    grouped, malformed := map[], [];
    ghost var seen := [];
    for k := 0 to |names|
      invariant forall n :: n in names[..k] ==> n in sources
      invariant seen == Entries(sources, names[..k])
      invariant grouped == Group(seen) && malformed == MalformedOf(seen)
    {
      assert names[k] in names;
      EntriesStep(sources, names, k);
      grouped, malformed := GroupSource(names[k], sources[names[k]], grouped, malformed, seen);
      seen := seen + EntriesOf(names[k], sources[names[k]]);
    }
    assert names[..|names|] == names;
  }

  // ---------------------------------------------------------------- the rules for one id

  function Values(fields: Fields, f: string): seq<Obs> {
    if f in fields then fields[f] else []
  }

  function NonEmpty(obs: seq<Obs>): (r: seq<Obs>)
    ensures forall o :: o in r <==> o in obs && !IsMissing(o.1)
  {
    if obs == [] then []
    else
      var k := |obs| - 1;
      assert obs == obs[..k] + [obs[k]];
      NonEmpty(obs[..k]) + if IsMissing(obs[k].1) then [] else [obs[k]]
  }

  function UniqueValues(obs: seq<Obs>): set<Val> {
    set o | o in NonEmpty(obs) :: o.1
  }

  lemma SingletonElement(s: set<Val>)
    requires |s| == 1
    ensures exists v :: s == {v}
  {
    var v :| v in s;
    assert |s - {v}| == 0;
    assert s == {v};
  }

  function TheOne(s: set<Val>): (v: Val)
    requires |s| == 1
    ensures s == {v}
  {
    SingletonElement(s);
    var v :| v in s;
    v
  }

  function FieldNames(fields: Fields, required: seq<string>): set<string> {
    (fields.Keys - {SOURCES_FIELD}) + set f | f in required
  }

  /** Evidence is sorted by source and then by the value's text. */
  predicate ObsLess(a: Obs, b: Obs) {
    Less(a.0, b.0) || (a.0 == b.0 && Less(Text(a.1), Text(b.1)))
  }

  function SortObs(obs: seq<Obs>): seq<Obs> {
    Sort(ObsLess, obs)
  }

  /** What the observations of one field come to. */
  datatype Merged = Nothing | Unique(value: Val) | Clash(values: seq<Obs>)

  function Merge(obs: seq<Obs>): Merged {
    var unique := UniqueValues(obs);
    if |unique| == 1 then Unique(TheOne(unique))
    else if |unique| > 1 then Clash(SortObs(NonEmpty(obs)))
    else Nothing
  }

  function Merges(fields: Fields, names: seq<string>): map<string, Merged> {
    map f | f in names :: Merge(Values(fields, f))
  }

  ghost predicate Covers<V>(m: map<string, V>, names: seq<string>) {
    forall i :: 0 <= i < |names| ==> names[i] in m
  }

  /** The record and the conflicts after the first `n` field names. */
  function MergeFields(id: string, merges: map<string, Merged>, names: seq<string>, n: nat): (r: (Record, seq<Conflict>))
    requires n <= |names| && Covers(merges, names)
  {
    if n == 0 then (map[PATENT_ID := Str(id)], [])
    else
      var (record, conflicts) := MergeFields(id, merges, names, n - 1);
      match merges[names[n - 1]]
      case Nothing => (record, conflicts)
      case Unique(v) => (record[names[n - 1] := v], conflicts)
      case Clash(values) => (record, conflicts + [Conflict(id, names[n - 1], values)])
  }

  function ConflictRules(conflicts: seq<Conflict>): (r: seq<FailedRule>)
    ensures |r| == |conflicts|
  {
    seq(|conflicts|, i requires 0 <= i < |conflicts| => FieldValueConsistency(conflicts[i].patentId, conflicts[i]))
  }

  function PresentSources(fields: Fields): set<string> {
    set o | o in Values(fields, SOURCES_FIELD) :: o.0
  }

  function InvalidStatuses(fields: Fields): set<Val> {
    set o | o in Values(fields, "asset_status") && !IsMissing(o.1) && o.1 != Str("eligible") :: o.1
  }

  predicate Registered(fields: Fields) {
    exists o :: o in Values(fields, "target_registered") && IsTrue(o.1)
  }

  predicate AnyMissing(record: Record, required: seq<string>) {
    exists f :: f in required && IsMissing(Get(record, f))
  }

  datatype IdResult = IdResult(record: Record, conflicts: seq<Conflict>, missing: bool, rules: seq<FailedRule>)

  function AddIf(rules: seq<FailedRule>, broken: bool, rule: FailedRule): seq<FailedRule> {
    if broken then rules + [rule] else rules
  }

  function ReconcileId(id: string, fields: Fields, required: seq<string>, period: string): IdResult {
    var names := Sorted(FieldNames(fields, required));
    var (record, conflicts) := MergeFields(id, Merges(fields, names), names, |names|);
    IdResult(record, conflicts, AnyMissing(record, required), IdRules(id, fields, record, conflicts, required, period))
  }

  function IdRules(id: string, fields: Fields, record: Record, conflicts: seq<Conflict>, required: seq<string>, period: string)
    : seq<FailedRule>
  {
    var present, invalid := PresentSources(fields), InvalidStatuses(fields);
    var rules := AddIf([], "A" !in present || "B" !in present, IdentityMatch(id, present)) + ConflictRules(conflicts);
    var rules := AddIf(rules, Get(record, "period") != Str(period), PeriodValid(id, period, Get(record, "period")));
    var rules := AddIf(rules, AnyMissing(record, required), RequiredFieldsPresent(id));
    var rules := AddIf(rules, invalid != {}, AssetStatusValid(id, invalid));
    AddIf(rules, Registered(fields), NoDuplicateRegistration(id))
  }

  method MergeFieldsLoop(id: string, fields: Fields, names: seq<string>) returns (record: Record, conflicts: seq<Conflict>)
    ensures (record, conflicts) == MergeFields(id, Merges(fields, names), names, |names|)
  {
    ghost var merges := Merges(fields, names);
    record, conflicts := map[PATENT_ID := Str(id)], [];
    for i := 0 to |names|
      invariant (record, conflicts) == MergeFields(id, merges, names, i)
    {
      assert merges[names[i]] == Merge(Values(fields, names[i]));
      var nonEmpty := NonEmpty(Values(fields, names[i]));
      var unique := set o | o in nonEmpty :: o.1;
      if |unique| == 1 {
        record := record[names[i] := TheOne(unique)];
      } else if |unique| > 1 {
        conflicts := conflicts + [Conflict(id, names[i], SortObs(nonEmpty))];
      }
    }
  }

  method CheckRules(id: string, fields: Fields, record: Record, conflicts: seq<Conflict>, required: seq<string>, period: string)
    returns (rules: seq<FailedRule>)
    ensures rules == IdRules(id, fields, record, conflicts, required, period)
  {
    rules := [];
    var present := PresentSources(fields);
    if "A" !in present || "B" !in present {
      rules := rules + [IdentityMatch(id, present)];
    }
    rules := rules + ConflictRules(conflicts);
    if Get(record, "period") != Str(period) {
      rules := rules + [PeriodValid(id, period, Get(record, "period"))];
    }
    if AnyMissing(record, required) {
      rules := rules + [RequiredFieldsPresent(id)];
    }
    var invalid := InvalidStatuses(fields);
    if invalid != {} {
      rules := rules + [AssetStatusValid(id, invalid)];
    }
    if Registered(fields) {
      rules := rules + [NoDuplicateRegistration(id)];
    }
  }

  method ApplyRules(id: string, fields: Fields, required: seq<string>, period: string) returns (r: IdResult)
    ensures r == ReconcileId(id, fields, required, period)
  {
    var names := Sorted(FieldNames(fields, required));
    var record, conflicts := MergeFieldsLoop(id, fields, names);
    var rules := CheckRules(id, fields, record, conflicts, required, period);
    r := IdResult(record, conflicts, AnyMissing(record, required), rules);
  }

  // ---------------------------------------------------------------- the whole reconciliation

  datatype Totals = Totals(records: map<string, Record>, conflicts: seq<Conflict>, missing: seq<string>, rules: seq<FailedRule>)

  function AddId(t: Totals, id: string, r: IdResult): Totals {
    Totals(t.records[id := r.record], t.conflicts + r.conflicts, t.missing + if r.missing then [id] else [], t.rules + r.rules)
  }

  function Results(grouped: map<string, Fields>, required: seq<string>, period: string): map<string, IdResult> {
    map id | id in grouped :: ReconcileId(id, grouped[id], required, period)
  }

  /** The results of the first `n` ids, put together. */
  function Total(results: map<string, IdResult>, ids: seq<string>, n: nat): Totals
    requires n <= |ids| && Covers(results, ids)
  {
    if n == 0 then Totals(map[], [], [], [])
    else AddId(Total(results, ids, n - 1), ids[n - 1], results[ids[n - 1]])
  }

  function MalformedRules(malformed: seq<Malformed>): (r: seq<FailedRule>)
    ensures |r| == |malformed|
  {
    seq(|malformed|, i requires 0 <= i < |malformed| => IdentityPresent(malformed[i]))
  }

  function Counts(sources: Sources): map<string, nat> {
    map s | s in sources :: |sources[s]|
  }

  lemma SortedInKeys<V>(grouped: map<string, V>)
    ensures Covers(grouped, Sorted(grouped.Keys))
  {
    forall i | 0 <= i < |Sorted(grouped.Keys)| ensures Sorted(grouped.Keys)[i] in grouped {
      assert Sorted(grouped.Keys)[i] in Sorted(grouped.Keys);
    }
  }

  /** The reconciliation as a function of the sources. */
  function Reconciled(sources: Sources, required: seq<string>, period: string): Reconciliation {
    var entries := AllEntries(sources);
    var grouped, malformed := Group(entries), MalformedOf(entries);
    var ids := Sorted(grouped.Keys);
    SortedInKeys(grouped);
    var t := Total(Results(grouped, required, period), ids, |ids|);
    var rules := t.rules + MalformedRules(malformed);
    Reconciliation(t.conflicts == [] && t.missing == [] && rules == [],
      Counts(sources), t.records, t.missing, t.conflicts, malformed, rules)
  }

  /** The ids are visited in order, so the list of missing ids is already sorted and without repetition. */
  method TotalLoop(grouped: map<string, Fields>, ids: seq<string>, required: seq<string>, period: string) returns (t: Totals)
    requires Covers(grouped, ids)
    ensures t == Total(Results(grouped, required, period), ids, |ids|)
  {
    ghost var results := Results(grouped, required, period);
    var records: map<string, Record>, conflicts, missing, rules := map[], [], [], [];
    for i := 0 to |ids|
      invariant Totals(records, conflicts, missing, rules) == Total(results, ids, i)
    {
      var one := ApplyRules(ids[i], grouped[ids[i]], required, period);
      records := records[ids[i] := one.record];
      conflicts := conflicts + one.conflicts;
      missing := missing + if one.missing then [ids[i]] else [];
      rules := rules + one.rules;
    }
    t := Totals(records, conflicts, missing, rules);
  }

  method Run(sources: Sources, required: seq<string>, period: string) returns (r: Reconciliation)
    ensures r == Reconciled(sources, required, period)
  {
    var grouped, malformed := GroupRecords(sources);
    SortedInKeys(grouped);
    var t := TotalLoop(grouped, Sorted(grouped.Keys), required, period);
    var rules := t.rules + MalformedRules(malformed);
    r := Reconciliation(t.conflicts == [] && t.missing == [] && rules == [],
      Counts(sources), t.records, t.missing, t.conflicts, malformed, rules);
  }
}
