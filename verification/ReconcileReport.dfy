/**
 What every part of a reconciliation's report holds, resolved or not, on the sources:
 counts, records, missing ids, conflicts, malformed records and failed rules, each in its order.
 */
module ReconcileReport {
  import opened Sequences
  import opened Sorting
  import opened Wrappers
  import opened Ordering
  import opened Reconcile
  import opened ReconcileLaws

  // ---------------------------------------------------------------- how values are read

  /** A record has an id unless it is absent, empty or false; a true one reads "True". */
  lemma IdMeaning(r: Record)
    ensures HasId(r) <==> "patent_id" in r && r["patent_id"] !in {Null, Str(""), Bool(false)}
    ensures HasId(r) ==> IdOf(r) == match r["patent_id"] case Str(s) => s case _ => "True"
  {
  }

  /** Only an absent value and the empty text count as missing; false does not. */
  lemma MissingValues(v: Val)
    ensures IsMissing(v) <==> v in {Null, Str("")}
  {
  }

  /** A value says that a record is registered when it is true, or the text "true" in any case. */
  lemma RegistrationMarks(v: Val)
    ensures IsTrue(v) <==>
      || v == Bool(true)
      || (v.Str? && |v.s| == 4 && v.s[0] in "tT" && v.s[1] in "rR" && v.s[2] in "uU" && v.s[3] in "eE")
  {
  }

  /** Values are ordered as they are written: texts as they are, the others by their names. */
  lemma WrittenValues(a: Obs, b: Obs)
    ensures ObsLess(a, b) <==>
      || Less(a.0, b.0)
      || (a.0 == b.0 && Less(match a.1 case Null => "None" case Bool(x) => if x then "True" else "False" case Str(s) => s,
                             match b.1 case Null => "None" case Bool(x) => if x then "True" else "False" case Str(s) => s))
  {
  }

  /** The field that carries a record's source is "_sources", and a field that is not there reads as absent. */
  lemma FieldsAreRead(r: Record, f: string)
    ensures SOURCES_FIELD == "_sources" && Get(r, f) == if f in r then r[f] else Null
  {
  }

  // ---------------------------------------------------------------- missing ids

  lemma {:induction false} MissingSoFar(results: map<string, IdResult>, ids: seq<string>, n: nat)
    requires n <= |ids| && Covers(results, ids) && StrictlySorted(ids)
    ensures var missing := Total(results, ids, n).missing;
      StrictlySorted(missing) && forall id :: id in missing <==> id in ids[..n] && results[id].missing
    decreases n
  {
    if n == 0 {
    } else {
      MissingSoFar(results, ids, n - 1);
      assert ids[..n] == ids[..n - 1] + [ids[n - 1]];
      var before, id := Total(results, ids, n - 1).missing, ids[n - 1];
      forall i | 0 <= i < |before| ensures Less(before[i], id) { EarlierIsLess(ids, n - 1, before[i]); }
    }
  }

  lemma EarlierIsLess(ids: seq<string>, n: nat, id: string)
    requires StrictlySorted(ids) && n < |ids| && id in ids[..n]
    ensures Less(id, ids[n])
  {
    var i :| 0 <= i < n && ids[..n][i] == id;
    assert ids[i] == id;
  }

  lemma MissingOfAll(results: map<string, IdResult>)
    ensures Covers(results, Sorted(results.Keys))
    ensures var missing := Total(results, Sorted(results.Keys), |Sorted(results.Keys)|).missing;
      StrictlySorted(missing) && forall id :: id in missing <==> id in results && results[id].missing
  {
    var ids := Sorted(results.Keys);
    SortedInKeys(results);
    MissingSoFar(results, ids, |ids|);
    assert ids[..|ids|] == ids;
  }

  /** The ids that lack a required field, each once and in order. */
  lemma MissingRequiredMeaning(sources: Sources, required: seq<string>, period: string)
    ensures var missing := Reconciled(sources, required, period).missingRequired;
      && StrictlySorted(missing)
      && forall id :: id in missing <==> Known(sources, id) && LacksRequired(sources, required, id)
  {
    var results := ResultsFor(sources, required, period);
    ReconciledIsAllTotals(sources, required, period);
    MissingOfAll(results);
    forall id ensures id in results && results[id].missing <==> Known(sources, id) && LacksRequired(sources, required, id) {
      ResultOf(sources, required, period, id);
      if Known(sources, id) { MissingIff(sources, required, period, id); }
    }
  }

  // ---------------------------------------------------------------- malformed records

  /** The order of places: by source name, then by index. */
  predicate PlaceLess(a: Malformed, b: Malformed) {
    Less(a.source, b.source) || (a.source == b.source && a.index < b.index)
  }

  lemma {:induction false} MalformedAppend(a: seq<Entry>, b: seq<Entry>)
    ensures MalformedOf(a + b) == MalformedOf(a) + MalformedOf(b)
    decreases |b|
  {
    if b == [] {
      assert a + b == a;
    } else {
      var k := |b| - 1;
      assert (a + b)[..|a + b| - 1] == a + b[..k];
      MalformedAppend(a, b[..k]);
    }
  }

  lemma {:induction false} MalformedOfSource(source: string, records: seq<Record>, n: nat)
    requires n <= |records|
    ensures var r := MalformedOf(EntriesOf(source, records)[..n]);
      Increasing(PlaceLess, r) && forall m :: m in r ==> m.source == source && m.index < n
    decreases n
  {
    if n == 0 {
    } else {
      var all := EntriesOf(source, records);
      assert all[..n][..n - 1] == all[..n - 1];
      MalformedOfSource(source, records, n - 1);
    }
  }

  lemma {:induction false} MalformedInOrder(sources: Sources, names: seq<string>)
    requires StrictlySorted(names) && forall n :: n in names ==> n in sources
    ensures Increasing(PlaceLess, MalformedOf(Entries(sources, names)))
    decreases |names|
  {
    if names == [] {
    } else {
      var k := |names| - 1;
      var before, last := Entries(sources, names[..k]), EntriesOf(names[k], sources[names[k]]);
      MalformedInOrder(sources, names[..k]);
      MalformedAppend(before, last);
      MalformedOfSource(names[k], sources[names[k]], |sources[names[k]]|);
      assert last[..|last|] == last;
      forall x, y | x in MalformedOf(before) && y in MalformedOf(last) ensures PlaceLess(x, y) {
        MalformedMembers(before, x);
        EntriesMembers(sources, names[..k], Entry(x.source, x.index, x.record));
        EarlierIsLess(names, k, x.source);
      }
      IncreasingConcat(PlaceLess, MalformedOf(before), MalformedOf(last));
    }
  }

  /** The records without an id, each once, by source and place. */
  lemma MalformedMeaning(sources: Sources, required: seq<string>, period: string)
    ensures var malformed := Reconciled(sources, required, period).malformed;
      Increasing(PlaceLess, malformed) && forall m :: m in malformed <==> LacksId(sources, m)
  {
    MalformedInOrder(sources, Sorted(sources.Keys));
    forall m ensures m in MalformedOf(AllEntries(sources)) <==> LacksId(sources, m) {
      MalformedMembers(AllEntries(sources), m);
      AllEntriesMembers(sources, Entry(m.source, m.index, m.record));
    }
  }

  /** Every source is counted, with all its records. */
  lemma CountsMeaning(sources: Sources, required: seq<string>, period: string)
    ensures var counts := Reconciled(sources, required, period).sourceCounts;
      counts.Keys == sources.Keys && forall s :: s in sources ==> counts[s] == |sources[s]|
  {
  }

  // ---------------------------------------------------------------- conflicts

  /** The order of conflicts: by id, then by field. */
  predicate ConflictLess(a: Conflict, b: Conflict) {
    Less(a.patentId, b.patentId) || (a.patentId == b.patentId && Less(a.field, b.field))
  }

  lemma {:induction false} ConflictsInOrder(id: string, merges: map<string, Merged>, names: seq<string>, n: nat)
    requires n <= |names| && Covers(merges, names) && StrictlySorted(names)
    ensures Increasing(ConflictLess, MergeFields(id, merges, names, n).1)
    decreases n
  {
    if n == 0 {
    } else {
      ConflictsInOrder(id, merges, names, n - 1);
      var before := MergeFields(id, merges, names, n - 1).1;
      if merges[names[n - 1]].Clash? {
        var c := Conflict(id, names[n - 1], merges[names[n - 1]].values);
        forall x, y | x in before && y in [c] ensures ConflictLess(x, y) {
          ConflictMembers(id, merges, names, n - 1, x);
          EarlierIsLess(names, n - 1, x.field);
        }
        IncreasingConcat(ConflictLess, before, [c]);
      }
    }
  }

  /** The id's own conflicts, in field order. */
  lemma IdConflicts(id: string, fields: Fields, required: seq<string>, period: string)
    ensures var conflicts := ReconcileId(id, fields, required, period).conflicts;
      Increasing(ConflictLess, conflicts) && forall c: Conflict :: c in conflicts ==> c.patentId == id
  {
    var names := Sorted(FieldNames(fields, required));
    ConflictsAreMerged(id, fields, required, period);
    NamesCovered(fields, required);
    ConflictsInOrder(id, MergesFor(fields, required), names, |names|);
    forall c | c in ReconcileId(id, fields, required, period).conflicts ensures c.patentId == id {
      ConflictIsClash(id, fields, required, period, c);
    }
  }

  ghost predicate OwnConflicts(results: map<string, IdResult>) {
    forall id :: id in results ==>
      Increasing(ConflictLess, results[id].conflicts) && forall c: Conflict :: c in results[id].conflicts ==> c.patentId == id
  }

  lemma {:induction false} ConflictsSoFar(results: map<string, IdResult>, ids: seq<string>, n: nat)
    requires n <= |ids| && Covers(results, ids) && StrictlySorted(ids) && OwnConflicts(results)
    ensures var conflicts := Total(results, ids, n).conflicts;
      && Increasing(ConflictLess, conflicts)
      && forall c :: c in conflicts <==> c.patentId in ids[..n] && c in results[c.patentId].conflicts
    decreases n
  {
    if n == 0 {
    } else {
      ConflictsSoFar(results, ids, n - 1);
      assert ids[..n] == ids[..n - 1] + [ids[n - 1]];
      var before, id := Total(results, ids, n - 1).conflicts, ids[n - 1];
      forall x, y | x in before && y in results[id].conflicts ensures ConflictLess(x, y) {
        EarlierIsLess(ids, n - 1, x.patentId);
      }
      IncreasingConcat(ConflictLess, before, results[id].conflicts);
    }
  }

  lemma ConflictsOfAll(results: map<string, IdResult>)
    requires OwnConflicts(results)
    ensures Covers(results, Sorted(results.Keys))
    ensures var conflicts := Total(results, Sorted(results.Keys), |Sorted(results.Keys)|).conflicts;
      && Increasing(ConflictLess, conflicts)
      && forall c :: c in conflicts <==> c.patentId in results && c in results[c.patentId].conflicts
  {
    var ids := Sorted(results.Keys);
    SortedInKeys(results);
    ConflictsSoFar(results, ids, |ids|);
    assert ids[..|ids|] == ids;
  }

  /** On the sources: an id and a merged field whose non-empty observations differ, with all of them as evidence. */
  ghost predicate Conflicting(sources: Sources, required: seq<string>, c: Conflict) {
    && Known(sources, c.patentId) && Considered(required, c.field) && !Agreed(sources, c.patentId, c.field)
    && c.values == Evidence(sources, c.patentId, c.field)
  }

  lemma ResultsOwnConflicts(sources: Sources, required: seq<string>, period: string)
    ensures OwnConflicts(ResultsFor(sources, required, period))
  {
    var results := ResultsFor(sources, required, period);
    forall id | id in results
      ensures Increasing(ConflictLess, results[id].conflicts) && forall c: Conflict :: c in results[id].conflicts ==> c.patentId == id
    {
      IdConflicts(id, Group(AllEntries(sources))[id], required, period);
    }
  }

  /** The conflicts, each once, by id and field. */
  lemma ConflictsMeaning(sources: Sources, required: seq<string>, period: string)
    ensures var conflicts := Reconciled(sources, required, period).conflicts;
      Increasing(ConflictLess, conflicts) && forall c :: c in conflicts <==> Conflicting(sources, required, c)
  {
    var results := ResultsFor(sources, required, period);
    ReconciledIsAllTotals(sources, required, period);
    ResultsOwnConflicts(sources, required, period);
    ConflictsOfAll(results);
    forall c: Conflict ensures c.patentId in results && c in results[c.patentId].conflicts <==> Conflicting(sources, required, c) {
      ConflictOfResult(sources, required, period, c);
    }
  }

  lemma ConflictOfResult(sources: Sources, required: seq<string>, period: string, c: Conflict)
    ensures var results := ResultsFor(sources, required, period);
      c.patentId in results && c in results[c.patentId].conflicts <==> Conflicting(sources, required, c)
  {
    ResultOf(sources, required, period, c.patentId);
    if Known(sources, c.patentId) { ConflictIff(sources, required, period, c.patentId, c); }
  }

  // ---------------------------------------------------------------- failed rules

  /** The order in which the rules of one id are checked. */
  function Kind(rule: FailedRule): nat {
    match rule
    case IdentityMatch(_, _) => 0
    case FieldValueConsistency(_, _) => 1
    case PeriodValid(_, _, _) => 2
    case RequiredFieldsPresent(_) => 3
    case AssetStatusValid(_, _) => 4
    case NoDuplicateRegistration(_) => 5
    case IdentityPresent(_) => 6
  }

  /** The order of failed rules: by id, by rule and by field; records without an id come last, by place. */
  predicate RuleLess(a: FailedRule, b: FailedRule) {
    if a.IdentityPresent? then b.IdentityPresent? && PlaceLess(a.malformed, b.malformed)
    else if b.IdentityPresent? then true
    else
      || Less(a.patentId, b.patentId)
      || (a.patentId == b.patentId && (Kind(a) < Kind(b) || (Kind(a) == Kind(b) == 1 && Less(a.evidence.field, b.evidence.field))))
  }

  /** The rules are in order, all of this id, and none is of a later kind. */
  ghost predicate RulesUpTo(rules: seq<FailedRule>, id: string, kind: nat) {
    && Increasing(RuleLess, rules)
    && forall r: FailedRule :: r in rules ==> !r.IdentityPresent? && r.patentId == id && Kind(r) <= kind
  }

  lemma AddIfInOrder(rules: seq<FailedRule>, id: string, kind: nat, broken: bool, rule: FailedRule)
    requires RulesUpTo(rules, id, kind) && Kind(rule) == kind + 1 && !rule.IdentityPresent? && rule.patentId == id
    ensures RulesUpTo(AddIf(rules, broken, rule), id, kind + 1)
  {
    if broken {
      forall x, y | x in rules && y in [rule] ensures RuleLess(x, y) {}
      IncreasingConcat(RuleLess, rules, [rule]);
    }
  }

  lemma ConflictRulesInOrder(rules: seq<FailedRule>, id: string, conflicts: seq<Conflict>)
    requires RulesUpTo(rules, id, 0) && Increasing(ConflictLess, conflicts) && forall c: Conflict :: c in conflicts ==> c.patentId == id
    ensures RulesUpTo(rules + ConflictRules(conflicts), id, 1)
  {
    var added := ConflictRules(conflicts);
    forall i: nat | i < |added| ensures added[i].FieldValueConsistency? && added[i].patentId == id && added[i].evidence == conflicts[i] {
      assert conflicts[i] in conflicts;
    }
    forall i, j | 0 <= i < j < |added| ensures RuleLess(added[i], added[j]) {
      assert ConflictLess(conflicts[i], conflicts[j]);
      LessTotal(id, id);
    }
    forall x, y | x in rules && y in added ensures RuleLess(x, y) {}
    IncreasingConcat(RuleLess, rules, added);
  }

  lemma IdRulesInOrder(id: string, fields: Fields, record: Record, conflicts: seq<Conflict>, required: seq<string>, period: string)
    requires Increasing(ConflictLess, conflicts) && forall c: Conflict :: c in conflicts ==> c.patentId == id
    ensures RulesUpTo(IdRules(id, fields, record, conflicts, required, period), id, 5)
  {
    var present, invalid := PresentSources(fields), InvalidStatuses(fields);
    var s0 := AddIf([], "A" !in present || "B" !in present, IdentityMatch(id, present));
    var s1 := s0 + ConflictRules(conflicts);
    var s2 := AddIf(s1, Get(record, "period") != Str(period), PeriodValid(id, period, Get(record, "period")));
    var s3 := AddIf(s2, AnyMissing(record, required), RequiredFieldsPresent(id));
    var s4 := AddIf(s3, invalid != {}, AssetStatusValid(id, invalid));
    assert RulesUpTo(s0, id, 0);
    ConflictRulesInOrder(s0, id, conflicts);
    AddIfInOrder(s1, id, 1, Get(record, "period") != Str(period), PeriodValid(id, period, Get(record, "period")));
    AddIfInOrder(s2, id, 2, AnyMissing(record, required), RequiredFieldsPresent(id));
    AddIfInOrder(s3, id, 3, invalid != {}, AssetStatusValid(id, invalid));
    AddIfInOrder(s4, id, 4, Registered(fields), NoDuplicateRegistration(id));
  }

  ghost predicate OwnRules(results: map<string, IdResult>) {
    forall id :: id in results ==> RulesUpTo(results[id].rules, id, 5)
  }

  lemma ResultsOwnRules(sources: Sources, required: seq<string>, period: string)
    ensures OwnRules(ResultsFor(sources, required, period))
  {
    var results := ResultsFor(sources, required, period);
    forall id | id in results ensures RulesUpTo(results[id].rules, id, 5) {
      var fields := Group(AllEntries(sources))[id];
      var r := ReconcileId(id, fields, required, period);
      IdConflicts(id, fields, required, period);
      IdRulesInOrder(id, fields, r.record, r.conflicts, required, period);
    }
  }

  ghost predicate AllOfIds(rules: seq<FailedRule>, ids: seq<string>) {
    forall r: FailedRule :: r in rules ==> !r.IdentityPresent? && r.patentId in ids
  }

  lemma {:induction false} RulesSoFar(results: map<string, IdResult>, ids: seq<string>, n: nat)
    requires n <= |ids| && Covers(results, ids) && StrictlySorted(ids) && OwnRules(results)
    ensures Increasing(RuleLess, Total(results, ids, n).rules) && AllOfIds(Total(results, ids, n).rules, ids[..n])
    decreases n
  {
    if n == 0 {
    } else {
      RulesSoFar(results, ids, n - 1);
      assert ids[..n] == ids[..n - 1] + [ids[n - 1]];
      var before, id := Total(results, ids, n - 1).rules, ids[n - 1];
      forall x, y | x in before && y in results[id].rules ensures RuleLess(x, y) { EarlierIsLess(ids, n - 1, x.patentId); }
      IncreasingConcat(RuleLess, before, results[id].rules);
    }
  }

  lemma MalformedRulesInOrder(malformed: seq<Malformed>)
    requires Increasing(PlaceLess, malformed)
    ensures Increasing(RuleLess, MalformedRules(malformed))
  {
    forall i, j | 0 <= i < j < |malformed| ensures RuleLess(MalformedRules(malformed)[i], MalformedRules(malformed)[j]) {
      assert PlaceLess(malformed[i], malformed[j]);
    }
  }

  lemma RulesThenMalformed(rules: seq<FailedRule>, ids: seq<string>, malformed: seq<Malformed>)
    requires Increasing(RuleLess, rules) && AllOfIds(rules, ids) && Increasing(PlaceLess, malformed)
    ensures Increasing(RuleLess, rules + MalformedRules(malformed))
  {
    MalformedRulesInOrder(malformed);
    forall x, y | x in rules && y in MalformedRules(malformed) ensures RuleLess(x, y) {}
    IncreasingConcat(RuleLess, rules, MalformedRules(malformed));
  }

  lemma RulesOfAll(results: map<string, IdResult>)
    requires OwnRules(results)
    ensures Covers(results, Sorted(results.Keys))
    ensures var rules := Total(results, Sorted(results.Keys), |Sorted(results.Keys)|).rules;
      Increasing(RuleLess, rules) && AllOfIds(rules, Sorted(results.Keys))
  {
    var ids := Sorted(results.Keys);
    SortedInKeys(results);
    RulesSoFar(results, ids, |ids|);
    assert ids[..|ids|] == ids;
  }

  /** The failed rules, each once: by id, rule and field, then the records without an id by place. */
  lemma FailedRulesInOrder(sources: Sources, required: seq<string>, period: string)
    ensures var rules := Reconciled(sources, required, period).failedRules;
      Increasing(RuleLess, rules) && forall rule :: rule in rules <==> FailsOn(sources, required, period, rule)
  {
    var results := ResultsFor(sources, required, period);
    ReconciledIsAllTotals(sources, required, period);
    ResultsOwnRules(sources, required, period);
    RulesOfAll(results);
    MalformedInOrder(sources, Sorted(sources.Keys));
    RulesThenMalformed(AllTotals(sources, required, period).rules, Sorted(results.Keys), MalformedOf(AllEntries(sources)));
    forall rule ensures rule in Reconciled(sources, required, period).failedRules <==> FailsOn(sources, required, period, rule) {
      FailedRulesMeaning(sources, required, period, rule);
    }
  }

  // ---------------------------------------------------------------- records

  /** What the merged record of an id holds for a field, whether or not the other fields agree. */
  ghost predicate HoldsMerged(sources: Sources, required: seq<string>, id: string, record: Record, f: string) {
    if f == PATENT_ID then
      f in record && if Agreed(sources, id, f) then Seen(sources, id, f, record[f]) && !IsMissing(record[f]) else record[f] == Str(id)
    else
      && (f in record <==> Considered(required, f) && Filled(sources, id, f) && Agreed(sources, id, f))
      && (f in record ==> Seen(sources, id, f, record[f]) && !IsMissing(record[f]))
  }

  lemma MergedHolds(sources: Sources, required: seq<string>, period: string, id: string, f: string)
    requires Known(sources, id)
    ensures HoldsMerged(sources, required, id, ReconcileId(id, FieldsFor(sources, id), required, period).record, f)
  {
    var fields := FieldsFor(sources, id);
    MergedRecord(id, fields, required, period, f);
    MergedOf(sources, required, id, f);
  }

  /** There is one non-empty value exactly when something is seen and all that is seen agrees. */
  lemma OneValue(sources: Sources, id: string, f: string)
    requires Known(sources, id)
    ensures var unique := UniqueValues(Values(FieldsFor(sources, id), f));
      && (|unique| == 1 <==> Filled(sources, id, f) && Agreed(sources, id, f))
      && (|unique| == 1 ==> Seen(sources, id, f, TheOne(unique)) && !IsMissing(TheOne(unique)))
  {
    var unique := UniqueValues(Values(FieldsFor(sources, id), f));
    AgreedIff(sources, id, f);
    if |unique| == 1 { UniqueAreSeen(sources, id, f, TheOne(unique)); }
  }

  lemma MergedValueOf(id: string, fields: Fields, required: seq<string>, f: string)
    ensures var unique := UniqueValues(Values(fields, f));
      MergedValue(id, MergesFor(fields, required), Sorted(FieldNames(fields, required)), f) ==
        if |unique| == 1 && (f != SOURCES_FIELD || f in required) then Some(TheOne(unique))
        else if f == PATENT_ID then Some(Str(id)) else None
  {
    NamesCover(fields, required, f);
  }

  lemma MergedOf(sources: Sources, required: seq<string>, id: string, f: string)
    requires Known(sources, id)
    ensures var fields := FieldsFor(sources, id);
      var v := MergedValue(id, MergesFor(fields, required), Sorted(FieldNames(fields, required)), f);
      if f == PATENT_ID then
        v.Some? && if Agreed(sources, id, f) then Seen(sources, id, f, v.value) && !IsMissing(v.value) else v.value == Str(id)
      else
        && (v.Some? <==> Considered(required, f) && Filled(sources, id, f) && Agreed(sources, id, f))
        && (v.Some? ==> Seen(sources, id, f, v.value) && !IsMissing(v.value))
  {
    MergedValueOf(id, FieldsFor(sources, id), required, f);
    OneValue(sources, id, f);
    IdOfIsNotMissing(sources, id);
  }

  /** One record for every known id, with exactly the fields that are seen with a single non-empty value, and the id. */
  lemma RecordsMeaning(sources: Sources, required: seq<string>, period: string, id: string)
    ensures var records := Reconciled(sources, required, period).records;
      && (id in records <==> Known(sources, id))
      && (id in records ==> forall f :: HoldsMerged(sources, required, id, records[id], f))
  {
    RecordOf(sources, required, period, id);
    if Known(sources, id) {
      var record := ReconcileId(id, FieldsFor(sources, id), required, period).record;
      forall f ensures HoldsMerged(sources, required, id, record, f) { MergedHolds(sources, required, period, id, f); }
    }
  }

  // ---------------------------------------------------------------- evidence

  /** A place where a record shows something of its id: its own field, or its source's tag. */
  datatype Spot = Spot(source: string, index: nat, own: bool)

  /** By source, by record, and the tag before the record's own field. */
  predicate SpotLess(a: Spot, b: Spot) {
    Less(a.source, b.source) || (a.source == b.source && (a.index < b.index || (a.index == b.index && !a.own && b.own)))
  }

  /** The value stands at the spot, for this id and field, and is not empty. */
  ghost predicate StandsAt(sources: Sources, id: string, f: string, spot: Spot, v: Val) {
    && spot.source in sources && spot.index < |sources[spot.source]|
    && var r := sources[spot.source][spot.index];
      && HasId(r) && IdOf(r) == id && !IsMissing(v)
      && if spot.own then f in r && r[f] == v else f == SOURCES_FIELD && v == Str(spot.source)
  }

  ghost predicate ShownBy(e: Entry, id: string, f: string, spot: Spot, v: Val) {
    && e.source == spot.source && e.index == spot.index && OfId(e, id) && !IsMissing(v)
    && if spot.own then f in e.record && e.record[f] == v else f == SOURCES_FIELD && v == Str(spot.source)
  }

  ghost predicate SomeShows(entries: seq<Entry>, id: string, f: string, spot: Spot, v: Val) {
    exists e :: e in entries && ShownBy(e, id, f, spot, v)
  }

  /** The observations `obs` stand at the spots, one by one, and no other entry shows any. */
  ghost predicate ObservedAt(entries: seq<Entry>, id: string, f: string, obs: seq<Obs>, spots: seq<Spot>) {
    && |obs| == |spots| && Increasing(SpotLess, spots)
    && (forall i :: 0 <= i < |obs| ==> obs[i].0 == spots[i].source && SomeShows(entries, id, f, spots[i], obs[i].1))
    && (forall e, spot, v :: e in entries && ShownBy(e, id, f, spot, v) ==> spot in spots)
  }

  predicate EntryLess(a: Entry, b: Entry) {
    Less(a.source, b.source) || (a.source == b.source && a.index < b.index)
  }

  lemma {:induction false} EntriesInOrder(sources: Sources, names: seq<string>)
    requires StrictlySorted(names) && forall n :: n in names ==> n in sources
    ensures Increasing(EntryLess, Entries(sources, names))
    decreases |names|
  {
    if names == [] {
    } else {
      var k := |names| - 1;
      var before, last := Entries(sources, names[..k]), EntriesOf(names[k], sources[names[k]]);
      EntriesInOrder(sources, names[..k]);
      forall x, y | x in before && y in last ensures EntryLess(x, y) {
        EntriesMembers(sources, names[..k], x);
        EarlierIsLess(names, k, x.source);
      }
      IncreasingConcat(EntryLess, before, last);
    }
  }

  lemma NonEmptyConcatOne(a: seq<Obs>, o: Obs)
    ensures NonEmpty(a + [o]) == NonEmpty(a) + if IsMissing(o.1) then [] else [o]
  {
    assert (a + [o])[..|a|] == a;
  }

  lemma {:induction false} NonEmptyConcat(a: seq<Obs>, b: seq<Obs>)
    ensures NonEmpty(a + b) == NonEmpty(a) + NonEmpty(b)
    decreases |b|
  {
    if b == [] {
      assert a + b == a;
    } else {
      var k := |b| - 1;
      assert a + b == (a + b[..k]) + [b[k]] && b == b[..k] + [b[k]];
      NonEmptyConcat(a, b[..k]);
      NonEmptyConcatOne(a + b[..k], b[k]);
      NonEmptyConcatOne(b[..k], b[k]);
      Assoc(NonEmpty(a), NonEmpty(b[..k]), if IsMissing(b[k].1) then [] else [b[k]]);
    }
  }

  /** The spots of one entry, in order, and what it shows there. */
  function SpotsOf(e: Entry, id: string, f: string): seq<Spot> {
    if !(HasId(e.record) && IdOf(e.record) == id) then []
    else
      (if f == SOURCES_FIELD && e.source != "" then [Spot(e.source, e.index, false)] else [])
      + if f in e.record && !IsMissing(e.record[f]) then [Spot(e.source, e.index, true)] else []
  }

  function ShownAt(e: Entry, id: string, f: string): seq<Obs> {
    if HasId(e.record) && IdOf(e.record) == id then NonEmpty(Contribution(e, f)) else []
  }

  lemma NonEmptyContribution(e: Entry, f: string)
    ensures NonEmpty(Contribution(e, f)) ==
      (if f == SOURCES_FIELD && e.source != "" then [(e.source, Str(e.source))] else [])
      + if f in e.record && !IsMissing(e.record[f]) then [(e.source, e.record[f])] else []
  {
    var tag: Obs := (e.source, Str(e.source));
    NonEmptyConcatOne([], tag);
    assert [] + [tag] == [tag];
    if f in e.record {
      var own: Obs := (e.source, e.record[f]);
      NonEmptyConcatOne([], own);
      NonEmptyConcatOne([tag], own);
      assert [] + [own] == [own];
    }
  }

  lemma ShownIsAt(e: Entry, id: string, f: string)
    ensures var obs, spots := ShownAt(e, id, f), SpotsOf(e, id, f);
      |obs| == |spots| && forall i :: 0 <= i < |obs| ==> obs[i].0 == spots[i].source && ShownBy(e, id, f, spots[i], obs[i].1)
  {
    NonEmptyContribution(e, f);
  }

  lemma EntrySpots(e: Entry, id: string, f: string)
    ensures ObservedAt([e], id, f, ShownAt(e, id, f), SpotsOf(e, id, f))
  {
    var obs, spots := ShownAt(e, id, f), SpotsOf(e, id, f);
    ShownIsAt(e, id, f);
    assert e in [e];
    forall i | 0 <= i < |obs| ensures obs[i].0 == spots[i].source && SomeShows([e], id, f, spots[i], obs[i].1) {
      assert ShownBy(e, id, f, spots[i], obs[i].1);
    }
    forall x, spot, v | x in [e] && ShownBy(x, id, f, spot, v) ensures spot in spots { SpotIsListed(e, id, f, spot, v); }
  }

  lemma SpotIsListed(e: Entry, id: string, f: string, spot: Spot, v: Val)
    requires ShownBy(e, id, f, spot, v)
    ensures spot in SpotsOf(e, id, f)
  {
    var tag, own := Spot(e.source, e.index, false), Spot(e.source, e.index, true);
    if spot.own { assert spot == own; } else { assert spot == tag; }
  }

  lemma ObservedConcat(entries: seq<Entry>, e: Entry, id: string, f: string, obs: seq<Obs>, spots: seq<Spot>, more: seq<Obs>, last: seq<Spot>)
    requires ObservedAt(entries, id, f, obs, spots) && ObservedAt([e], id, f, more, last)
    requires forall x :: x in entries ==> EntryLess(x, e)
    ensures ObservedAt(entries + [e], id, f, obs + more, spots + last)
  {
    forall x, y | x in spots && y in last ensures SpotLess(x, y) {
      var i :| 0 <= i < |spots| && spots[i] == x;
      var j :| 0 <= j < |last| && last[j] == y;
      assert SomeShows(entries, id, f, spots[i], obs[i].1) && SomeShows([e], id, f, last[j], more[j].1);
      var a :| a in entries && ShownBy(a, id, f, spots[i], obs[i].1);
      var b :| b in [e] && ShownBy(b, id, f, last[j], more[j].1);
      assert EntryLess(a, e);
    }
    IncreasingConcat(SpotLess, spots, last);
    var all, at := obs + more, spots + last;
    forall i | 0 <= i < |all|
      ensures all[i].0 == at[i].source && SomeShows(entries + [e], id, f, at[i], all[i].1)
    {
      if i < |obs| {
        assert SomeShows(entries, id, f, spots[i], obs[i].1);
        var x :| x in entries && ShownBy(x, id, f, spots[i], obs[i].1);
        assert x in entries + [e];
      } else {
        assert SomeShows([e], id, f, last[i - |obs|], more[i - |obs|].1);
        var x :| x in [e] && ShownBy(x, id, f, last[i - |obs|], more[i - |obs|].1);
        assert x in entries + [e];
      }
    }
  }

  lemma ShownSnoc(entries: seq<Entry>, e: Entry, id: string, f: string)
    ensures NonEmpty(Observations(entries + [e], id, f)) == NonEmpty(Observations(entries, id, f)) + ShownAt(e, id, f)
  {
    assert (entries + [e])[..|entries|] == entries;
    NonEmptyConcat(Observations(entries, id, f), if HasId(e.record) && IdOf(e.record) == id then Contribution(e, f) else []);
  }

  lemma {:induction false} ObservationsStand(entries: seq<Entry>, id: string, f: string) returns (spots: seq<Spot>)
    requires Increasing(EntryLess, entries)
    ensures ObservedAt(entries, id, f, NonEmpty(Observations(entries, id, f)), spots)
    decreases |entries|
  {
    if entries == [] {
      spots := [];
    } else {
      var k := |entries| - 1;
      var init, e := entries[..k], entries[k];
      IncreasingInit(EntryLess, entries);
      spots := ObservationsStand(init, id, f);
      assert entries == init + [e];
      forall x | x in init ensures EntryLess(x, e) {}
      ShownSnoc(init, e, id, f);
      EntrySpots(e, id, f);
      ObservedConcat(init, e, id, f, NonEmpty(Observations(init, id, f)), spots, ShownAt(e, id, f), SpotsOf(e, id, f));
      spots := spots + SpotsOf(e, id, f);
    }
  }

  lemma SpotOnSources(sources: Sources, id: string, f: string, spot: Spot, v: Val)
    ensures StandsAt(sources, id, f, spot, v) <==> SomeShows(AllEntries(sources), id, f, spot, v)
  {
    if StandsAt(sources, id, f, spot, v) {
      var e := Entry(spot.source, spot.index, sources[spot.source][spot.index]);
      AllEntriesMembers(sources, e);
      assert ShownBy(e, id, f, spot, v);
    }
    if e :| e in AllEntries(sources) && ShownBy(e, id, f, spot, v) { AllEntriesMembers(sources, e); }
  }

  /**
   The evidence of a field is a stable sorting, by source and text, of `obs`, the non-empty
   values that stand at its spots in the sources: every spot once, in the sources' order.
   */
  lemma EvidenceMeaning(sources: Sources, id: string, f: string) returns (obs: seq<Obs>, spots: seq<Spot>)
    ensures |obs| == |spots| && Increasing(SpotLess, spots)
    ensures forall i :: 0 <= i < |obs| ==> obs[i].0 == spots[i].source && StandsAt(sources, id, f, spots[i], obs[i].1)
    ensures forall spot, v :: StandsAt(sources, id, f, spot, v) ==> spot in spots
    ensures var evidence := Evidence(sources, id, f);
      && InOrder(ObsLess, evidence) && multiset(evidence) == multiset(obs)
      && forall o :: TiedWith(ObsLess, evidence, o) == TiedWith(ObsLess, obs, o)
  {
    var entries := AllEntries(sources);
    EntriesInOrder(sources, Sorted(sources.Keys));
    spots := ObservationsStand(entries, id, f);
    obs := NonEmpty(ObservationsOf(sources, id, f));
    ObsLessIsOrder();
    SortMeaning(ObsLess, obs);
    forall o ensures TiedWith(ObsLess, SortObs(obs), o) == TiedWith(ObsLess, obs, o) { SortIsStable(ObsLess, obs, o); }
    forall i | 0 <= i < |obs| ensures StandsAt(sources, id, f, spots[i], obs[i].1) {
      assert SomeShows(entries, id, f, spots[i], obs[i].1);
      SpotOnSources(sources, id, f, spots[i], obs[i].1);
    }
    forall spot, v | StandsAt(sources, id, f, spot, v) ensures spot in spots { SpotOnSources(sources, id, f, spot, v); }
  }
}
