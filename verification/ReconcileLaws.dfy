/**
 When a reconciliation is resolved, what its records hold, and that the order of
 records inside a source does not matter.
 */
module ReconcileLaws {
  import opened Sorting
  import opened Wrappers
  import opened Ordering
  import opened Reconcile

  // ---------------------------------------------------------------- observations, directly on the sources

  /** Source `s` holds record `r`. */
  ghost predicate Holds(sources: Sources, s: string, r: Record) {
    s in sources && r in sources[s]
  }

  /** Record `r` of source `s` shows value `v` for field `f`. */
  ghost predicate Shows(s: string, r: Record, f: string, v: Val) {
    (f in r && r[f] == v) || (f == SOURCES_FIELD && v == Str(s))
  }

  /** Somewhere a record with this id shows `v` for `f`. */
  ghost predicate Seen(sources: Sources, id: string, f: string, v: Val) {
    exists s, r :: Holds(sources, s, r) && HasId(r) && IdOf(r) == id && Shows(s, r, f, v)
  }

  ghost predicate Known(sources: Sources, id: string) {
    exists s, r :: Holds(sources, s, r) && HasId(r) && IdOf(r) == id
  }

  ghost predicate InSource(sources: Sources, s: string, id: string) {
    exists r :: Holds(sources, s, r) && HasId(r) && IdOf(r) == id
  }

  /** The field takes part in the merge: the bookkeeping field only when it is required. */
  ghost predicate Considered(required: seq<string>, f: string) {
    f != SOURCES_FIELD || f in required
  }

  ghost predicate Agreed(sources: Sources, id: string, f: string) {
    forall v, w :: Seen(sources, id, f, v) && Seen(sources, id, f, w) && !IsMissing(v) && !IsMissing(w) ==> v == w
  }

  /** Within one id, the non-empty observations of every merged field agree. */
  ghost predicate AllAgreed(sources: Sources, required: seq<string>, id: string) {
    forall f {:trigger Agreed(sources, id, f)} :: Considered(required, f) ==> Agreed(sources, id, f)
  }

  ghost predicate Filled(sources: Sources, id: string, f: string) {
    exists v :: Seen(sources, id, f, v) && !IsMissing(v)
  }

  /** Every rule holds of one id. */
  ghost predicate IdHolds(sources: Sources, required: seq<string>, period: string, id: string) {
    && InSource(sources, "A", id) && InSource(sources, "B", id)
    && AllAgreed(sources, required, id)
    && (forall f :: f in required ==> Filled(sources, id, f))
    && period != "" && Seen(sources, id, "period", Str(period))
    && (forall v :: Seen(sources, id, "asset_status", v) && !IsMissing(v) ==> v == Str("eligible"))
    && (forall v :: Seen(sources, id, "target_registered", v) ==> !IsTrue(v))
  }

  /** Every rule holds: no record lacks an id, and every id satisfies the rules. */
  ghost predicate RulesHold(sources: Sources, required: seq<string>, period: string) {
    && (forall s, r :: Holds(sources, s, r) ==> HasId(r))
    && (forall id :: Known(sources, id) ==> IdHolds(sources, required, period, id))
  }

  // ---------------------------------------------------------------- grouping is faithful

  lemma {:induction false} EntriesMembers(sources: Sources, names: seq<string>, e: Entry)
    requires forall n :: n in names ==> n in sources
    ensures e in Entries(sources, names) <==>
      e.source in names && e.index < |sources[e.source]| && sources[e.source][e.index] == e.record
    decreases |names|
  {
    if names == [] {
    } else {
      var k := |names| - 1;
      EntriesMembers(sources, names[..k], e);
      assert names == names[..k] + [names[k]];
      assert e in EntriesOf(names[k], sources[names[k]]) <==>
        e.source == names[k] && e.index < |sources[e.source]| && sources[e.source][e.index] == e.record by {
        if e.source == names[k] && e.index < |sources[e.source]| && sources[e.source][e.index] == e.record {
          assert EntriesOf(names[k], sources[names[k]])[e.index] == e;
        }
      }
    }
  }

  lemma AllEntriesMembers(sources: Sources, e: Entry)
    ensures e in AllEntries(sources) <==>
      e.source in sources && e.index < |sources[e.source]| && sources[e.source][e.index] == e.record
  {
    EntriesMembers(sources, Sorted(sources.Keys), e);
  }

  ghost predicate OfId(e: Entry, id: string) {
    HasId(e.record) && IdOf(e.record) == id
  }

  lemma {:induction false} ObservationsMembers(entries: seq<Entry>, id: string, f: string, o: Obs)
    ensures o in Observations(entries, id, f) <==> exists e :: e in entries && OfId(e, id) && o in Contribution(e, f)
    decreases |entries|
  {
    if entries == [] {
    } else {
      var k := |entries| - 1;
      ObservationsMembers(entries[..k], id, f, o);
      assert entries == entries[..k] + [entries[k]];
    }
  }

  lemma {:induction false} GroupKeys(entries: seq<Entry>, id: string)
    ensures id in Group(entries) <==> exists e :: e in entries && OfId(e, id)
    decreases |entries|
  {
    if entries == [] {
    } else {
      var k := |entries| - 1;
      GroupKeys(entries[..k], id);
      assert entries == entries[..k] + [entries[k]];
      assert id in Group(entries) <==> id in Group(entries[..k]) || OfId(entries[k], id);
      if OfId(entries[k], id) { assert entries[k] in entries; }
    }
  }

  /** A grouped field holds exactly the observations of the field, in order. */
  lemma {:induction false} GroupValues(entries: seq<Entry>, id: string, f: string)
    ensures id in Group(entries) ==> Values(Group(entries)[id], f) == Observations(entries, id, f)
    ensures id !in Group(entries) ==> Observations(entries, id, f) == []
    decreases |entries|
  {
    if entries == [] {
    } else {
      var k := |entries| - 1;
      var e := entries[k];
      GroupValues(entries[..k], id, f);
      if OfId(e, id) {
        var before := if id in Group(entries[..k]) then Group(entries[..k])[id] else map[];
        ObservedValues(before, e, f);
      }
    }
  }

  lemma ObservedValues(fields: Fields, e: Entry, f: string)
    ensures Values(AddFields(fields, e), f) == Values(fields, f) + Contribution(e, f)
  {
    var before := Values(fields, f);
    if f == SOURCES_FIELD && f in e.record {
      assert before + [(e.source, Str(e.source))] + [(e.source, e.record[f])] == before + Contribution(e, f);
    }
  }

  /** What the merge sees of a field is what the sources show. */
  lemma ValuesAreSeen(sources: Sources, id: string, f: string, v: Val)
    requires id in Group(AllEntries(sources))
    ensures (exists o :: o in Values(Group(AllEntries(sources))[id], f) && o.1 == v) <==> Seen(sources, id, f, v)
  {
    var entries := AllEntries(sources);
    GroupValues(entries, id, f);
    if Seen(sources, id, f, v) {
      var s, r :| Holds(sources, s, r) && HasId(r) && IdOf(r) == id && Shows(s, r, f, v);
      var i :| 0 <= i < |sources[s]| && sources[s][i] == r;
      var e := Entry(s, i, r);
      AllEntriesMembers(sources, e);
      var o := (s, v);
      assert o in Contribution(e, f);
      ObservationsMembers(entries, id, f, o);
      assert OfId(e, id);
    }
    if o :| o in Values(Group(entries)[id], f) && o.1 == v {
      ObservationsMembers(entries, id, f, o);
      var e :| e in entries && OfId(e, id) && o in Contribution(e, f);
      AllEntriesMembers(sources, e);
      assert Holds(sources, e.source, e.record) && Shows(e.source, e.record, f, v);
    }
  }

  lemma GroupedIsKnown(sources: Sources, id: string)
    ensures id in Group(AllEntries(sources)) <==> Known(sources, id)
  {
    var entries := AllEntries(sources);
    GroupKeys(entries, id);
    if Known(sources, id) {
      var s, r :| Holds(sources, s, r) && HasId(r) && IdOf(r) == id;
      var i :| 0 <= i < |sources[s]| && sources[s][i] == r;
      AllEntriesMembers(sources, Entry(s, i, r));
      assert OfId(Entry(s, i, r), id);
    }
    if e :| e in entries && OfId(e, id) {
      AllEntriesMembers(sources, e);
      assert Holds(sources, e.source, e.record);
    }
  }

  // ---------------------------------------------------------------- the rules of one id

  function FieldsFor(sources: Sources, id: string): Fields
    requires Known(sources, id)
  {
    GroupedIsKnown(sources, id);
    Group(AllEntries(sources))[id]
  }

  lemma UniqueAreSeen(sources: Sources, id: string, f: string, v: Val)
    requires Known(sources, id)
    ensures v in UniqueValues(Values(FieldsFor(sources, id), f)) <==> Seen(sources, id, f, v) && !IsMissing(v)
  {
    GroupedIsKnown(sources, id);
    ValuesAreSeen(sources, id, f, v);
    var obs := Values(FieldsFor(sources, id), f);
    if Seen(sources, id, f, v) && !IsMissing(v) {
      var o :| o in obs && o.1 == v;
      assert o in NonEmpty(obs);
    }
    if v in UniqueValues(obs) {
      var o :| o in NonEmpty(obs) && o.1 == v;
      assert o in obs;
    }
  }

  lemma AtMostOne(s: set<Val>)
    ensures |s| <= 1 <==> forall v, w :: v in s && w in s ==> v == w
  {
    forall v, w | v in s && w in s && v != w ensures |s| >= 2 {
      assert w in s - {v};
      assert |s - {v}| >= 1;
    }
    if |s| > 1 {
      var v :| v in s;
      assert |s - {v}| >= 1;
      var w :| w in s - {v};
    }
  }

  lemma AgreedIff(sources: Sources, id: string, f: string)
    requires Known(sources, id)
    ensures |UniqueValues(Values(FieldsFor(sources, id), f))| <= 1 <==> Agreed(sources, id, f)
    ensures |UniqueValues(Values(FieldsFor(sources, id), f))| >= 1 <==> Filled(sources, id, f)
  {
    var u := UniqueValues(Values(FieldsFor(sources, id), f));
    forall v ensures v in u <==> Seen(sources, id, f, v) && !IsMissing(v) { UniqueAreSeen(sources, id, f, v); }
    AtMostOne(u);
    if |u| >= 1 {
      var v :| v in u;
    }
    if Filled(sources, id, f) {
      var v :| Seen(sources, id, f, v) && !IsMissing(v);
      assert v in u;
    }
  }

  lemma PresentIff(sources: Sources, id: string, s: string)
    requires Known(sources, id)
    ensures s in PresentSources(FieldsFor(sources, id)) <==> InSource(sources, s, id)
  {
    var entries := AllEntries(sources);
    GroupedIsKnown(sources, id);
    GroupValues(entries, id, SOURCES_FIELD);
    var obs := Values(FieldsFor(sources, id), SOURCES_FIELD);
    if s in PresentSources(FieldsFor(sources, id)) {
      var o :| o in obs && o.0 == s;
      ObservationsMembers(entries, id, SOURCES_FIELD, o);
      var e :| e in entries && OfId(e, id) && o in Contribution(e, SOURCES_FIELD);
      AllEntriesMembers(sources, e);
      assert Holds(sources, s, e.record);
    }
    if InSource(sources, s, id) {
      var r :| Holds(sources, s, r) && HasId(r) && IdOf(r) == id;
      var i :| 0 <= i < |sources[s]| && sources[s][i] == r;
      var e, o := Entry(s, i, r), (s, Str(s));
      AllEntriesMembers(sources, e);
      assert OfId(e, id) && o in Contribution(e, SOURCES_FIELD);
      ObservationsMembers(entries, id, SOURCES_FIELD, o);
    }
  }

  predicate NoClash(merges: map<string, Merged>, f: string) {
    f in merges ==> !merges[f].Clash?
  }

  ghost predicate NoClashes(merges: map<string, Merged>, names: seq<string>) {
    forall f {:trigger NoClash(merges, f)} :: f in names ==> NoClash(merges, f)
  }

  lemma NoClashesStep(merges: map<string, Merged>, names: seq<string>, n: nat)
    requires 0 < n <= |names|
    ensures NoClashes(merges, names[..n]) <==> NoClashes(merges, names[..n - 1]) && NoClash(merges, names[n - 1])
  {
    assert names[..n] == names[..n - 1] + [names[n - 1]];
  }

  lemma {:induction false} MergeConflictsIff(id: string, merges: map<string, Merged>, names: seq<string>, n: nat)
    requires n <= |names| && Covers(merges, names)
    ensures MergeFields(id, merges, names, n).1 == [] <==> NoClashes(merges, names[..n])
    decreases n
  {
    if n == 0 {
    } else {
      MergeConflictsIff(id, merges, names, n - 1);
      NoClashesStep(merges, names, n);
    }
  }

  /** The value a merged record has for a field: the only observed one, or the id itself. */
  function MergedValue(id: string, merges: map<string, Merged>, names: seq<string>, f: string): Option<Val> {
    if f in names && f in merges && merges[f].Unique? then Some(merges[f].value)
    else if f == PATENT_ID then Some(Str(id))
    else None
  }

  function Lookup(record: Record, f: string): Option<Val> {
    if f in record then Some(record[f]) else None
  }

  lemma {:induction false} MergedRecordAt(id: string, merges: map<string, Merged>, names: seq<string>, n: nat, f: string)
    requires n <= |names| && Covers(merges, names)
    ensures Lookup(MergeFields(id, merges, names, n).0, f) == MergedValue(id, merges, names[..n], f)
    decreases n
  {
    if n == 0 {
    } else {
      MergedRecordAt(id, merges, names, n - 1, f);
      assert names[..n] == names[..n - 1] + [names[n - 1]];
    }
  }

  function MergesFor(fields: Fields, required: seq<string>): map<string, Merged> {
    Merges(fields, Sorted(FieldNames(fields, required)))
  }

  lemma RecordIsMerged(id: string, fields: Fields, required: seq<string>, period: string)
    ensures var names := Sorted(FieldNames(fields, required));
      ReconcileId(id, fields, required, period).record == MergeFields(id, MergesFor(fields, required), names, |names|).0
  {
  }

  lemma MergedRecord(id: string, fields: Fields, required: seq<string>, period: string, f: string)
    ensures Lookup(ReconcileId(id, fields, required, period).record, f)
         == MergedValue(id, MergesFor(fields, required), Sorted(FieldNames(fields, required)), f)
  {
    RecordIsMerged(id, fields, required, period);
    MergedAll(id, MergesFor(fields, required), Sorted(FieldNames(fields, required)), f);
  }

  lemma MergedAll(id: string, merges: map<string, Merged>, names: seq<string>, f: string)
    requires Covers(merges, names)
    ensures Lookup(MergeFields(id, merges, names, |names|).0, f) == MergedValue(id, merges, names, f)
  {
    MergedRecordAt(id, merges, names, |names|, f);
    assert names[..|names|] == names;
  }

  /** A field with an observed value takes part in the merge unless it is pure bookkeeping. */
  lemma NamesCover(fields: Fields, required: seq<string>, f: string)
    ensures f in Sorted(FieldNames(fields, required)) <==> (f in fields && f != SOURCES_FIELD) || f in required
    ensures |UniqueValues(Values(fields, f))| >= 1 ==> f in fields
  {
    if |UniqueValues(Values(fields, f))| >= 1 {
      var v :| v in UniqueValues(Values(fields, f));
    }
  }

  lemma NoClashIff(sources: Sources, id: string, required: seq<string>, f: string)
    requires Known(sources, id)
    ensures var fields := FieldsFor(sources, id);
      var named := f in Sorted(FieldNames(fields, required));
      && (named ==> Considered(required, f) && (NoClash(MergesFor(fields, required), f) <==> Agreed(sources, id, f)))
      && (!named && Considered(required, f) ==> Agreed(sources, id, f))
  {
    if f in Sorted(FieldNames(FieldsFor(sources, id), required)) {
      NoClashMeans(FieldsFor(sources, id), required, f);
    }
    NamesCover(FieldsFor(sources, id), required, f);
    AgreedIff(sources, id, f);
  }

  lemma NoClashMeans(fields: Fields, required: seq<string>, f: string)
    requires f in Sorted(FieldNames(fields, required))
    ensures NoClash(MergesFor(fields, required), f) <==> |UniqueValues(Values(fields, f))| <= 1
  {
  }

  lemma NoClashesIff(sources: Sources, id: string, required: seq<string>)
    requires Known(sources, id)
    ensures var fields := FieldsFor(sources, id);
      NoClashes(MergesFor(fields, required), Sorted(FieldNames(fields, required))) <==> AllAgreed(sources, required, id)
  {
    var fields := FieldsFor(sources, id);
    var names, merges := Sorted(FieldNames(fields, required)), MergesFor(fields, required);
    if NoClashes(merges, names) {
      forall f | Considered(required, f) ensures Agreed(sources, id, f) {
        NoClashIff(sources, id, required, f);
        assert f in names ==> NoClash(merges, f);
      }
    }
    if AllAgreed(sources, required, id) {
      forall f | f in names ensures NoClash(merges, f) { NoClashIff(sources, id, required, f); }
    }
  }

  lemma ConflictsAreMerged(id: string, fields: Fields, required: seq<string>, period: string)
    ensures var names := Sorted(FieldNames(fields, required));
      ReconcileId(id, fields, required, period).conflicts == MergeFields(id, MergesFor(fields, required), names, |names|).1
  {
  }

  lemma NoConflictMerged(id: string, merges: map<string, Merged>, names: seq<string>)
    requires Covers(merges, names)
    ensures MergeFields(id, merges, names, |names|).1 == [] <==> NoClashes(merges, names)
  {
    MergeConflictsIff(id, merges, names, |names|);
    assert names[..|names|] == names;
  }

  lemma NoConflictIff(sources: Sources, id: string, required: seq<string>, period: string)
    requires Known(sources, id)
    ensures ReconcileId(id, FieldsFor(sources, id), required, period).conflicts == [] <==> AllAgreed(sources, required, id)
  {
    NoConflictIsNoClash(id, FieldsFor(sources, id), required, period);
    NoClashesIff(sources, id, required);
  }

  lemma NoConflictIsNoClash(id: string, fields: Fields, required: seq<string>, period: string)
    ensures ReconcileId(id, fields, required, period).conflicts == [] <==>
      NoClashes(MergesFor(fields, required), Sorted(FieldNames(fields, required)))
  {
    ConflictsAreMerged(id, fields, required, period);
    NoConflictMerged(id, MergesFor(fields, required), Sorted(FieldNames(fields, required)));
  }

  /** A merged field: when its observations agree, the record has it exactly when something was observed. */
  lemma MergedFieldMeaning(sources: Sources, id: string, required: seq<string>, period: string, f: string)
    requires Known(sources, id) && Considered(required, f) && Agreed(sources, id, f)
    ensures var record := ReconcileId(id, FieldsFor(sources, id), required, period).record;
      && (Filled(sources, id, f) ==> f in record && Seen(sources, id, f, record[f]) && !IsMissing(record[f]))
      && (f in record && !Filled(sources, id, f) ==> f == PATENT_ID && record[f] == Str(id))
  {
    var fields := FieldsFor(sources, id);
    MergedRecord(id, fields, required, period, f);
    NamesCover(fields, required, f);
    AgreedIff(sources, id, f);
    var unique := UniqueValues(Values(fields, f));
    if Filled(sources, id, f) {
      UniqueAreSeen(sources, id, f, TheOne(unique));
    }
  }

  lemma IdOfIsNotMissing(sources: Sources, id: string)
    requires Known(sources, id)
    ensures !IsMissing(Str(id)) && Filled(sources, id, PATENT_ID)
  {
    var s, r :| Holds(sources, s, r) && HasId(r) && IdOf(r) == id;
    assert Shows(s, r, PATENT_ID, r[PATENT_ID]);
    assert Seen(sources, id, PATENT_ID, r[PATENT_ID]);
  }

  lemma NoneMissingIff(sources: Sources, id: string, required: seq<string>, period: string)
    requires Known(sources, id)
    requires AllAgreed(sources, required, id)
    ensures !ReconcileId(id, FieldsFor(sources, id), required, period).missing <==>
      forall f :: f in required ==> Filled(sources, id, f)
  {
    var record := ReconcileId(id, FieldsFor(sources, id), required, period).record;
    forall f | f in required ensures !IsMissing(Get(record, f)) <==> Filled(sources, id, f) {
      assert Considered(required, f);
      MergedFieldMeaning(sources, id, required, period, f);
      IdOfIsNotMissing(sources, id);
    }
  }

  /** When a field's observations agree, its merged value is whichever non-empty value was seen. */
  lemma AgreedValue(sources: Sources, id: string, f: string, got: Val, v: Val)
    requires Agreed(sources, id, f) && !IsMissing(v)
    requires Filled(sources, id, f) ==> Seen(sources, id, f, got) && !IsMissing(got)
    requires !Filled(sources, id, f) ==> got == Null
    ensures got == v <==> Seen(sources, id, f, v)
  {
  }

  lemma PeriodIff(sources: Sources, id: string, required: seq<string>, period: string)
    requires Known(sources, id) && Agreed(sources, id, "period")
    ensures Get(ReconcileId(id, FieldsFor(sources, id), required, period).record, "period") == Str(period) <==>
      period != "" && Seen(sources, id, "period", Str(period))
  {
    var got := Get(ReconcileId(id, FieldsFor(sources, id), required, period).record, "period");
    MergedFieldMeaning(sources, id, required, period, "period");
    if period != "" { AgreedValue(sources, id, "period", got, Str(period)); }
  }

  lemma StatusIff(sources: Sources, id: string)
    requires Known(sources, id)
    ensures InvalidStatuses(FieldsFor(sources, id)) == {} <==>
      forall v :: Seen(sources, id, "asset_status", v) && !IsMissing(v) ==> v == Str("eligible")
  {
    GroupedIsKnown(sources, id);
    var bad := InvalidStatuses(FieldsFor(sources, id));
    forall v ensures v in bad <==> Seen(sources, id, "asset_status", v) && !IsMissing(v) && v != Str("eligible") {
      ValuesAreSeen(sources, id, "asset_status", v);
    }
  }

  lemma RegisteredIff(sources: Sources, id: string)
    requires Known(sources, id)
    ensures !Registered(FieldsFor(sources, id)) <==>
      forall v :: Seen(sources, id, "target_registered", v) ==> !IsTrue(v)
  {
    GroupedIsKnown(sources, id);
    var fields := FieldsFor(sources, id);
    forall v | Seen(sources, id, "target_registered", v) && IsTrue(v) ensures Registered(fields) {
      ValuesAreSeen(sources, id, "target_registered", v);
    }
    if Registered(fields) {
      var o :| o in Values(fields, "target_registered") && IsTrue(o.1);
      ValuesAreSeen(sources, id, "target_registered", o.1);
    }
  }

  lemma IdRulesEmptyIff(id: string, fields: Fields, required: seq<string>, period: string)
    ensures var r := ReconcileId(id, fields, required, period);
      r.rules == [] <==>
        && "A" in PresentSources(fields) && "B" in PresentSources(fields)
        && r.conflicts == [] && !r.missing
        && Get(r.record, "period") == Str(period)
        && InvalidStatuses(fields) == {}
        && !Registered(fields)
  {
  }

  /** No rule fails for an id exactly when every rule holds of what the sources show. */
  lemma IdRulesIff(sources: Sources, required: seq<string>, period: string, id: string)
    requires Known(sources, id)
    ensures ReconcileId(id, FieldsFor(sources, id), required, period).rules == [] <==> IdHolds(sources, required, period, id)
  {
    IdRulesEmptyIff(id, FieldsFor(sources, id), required, period);
    PresentIff(sources, id, "A");
    PresentIff(sources, id, "B");
    NoConflictIff(sources, id, required, period);
    StatusIff(sources, id);
    RegisteredIff(sources, id);
    if AllAgreed(sources, required, id) {
      NoneMissingIff(sources, id, required, period);
      assert Considered(required, "period");
      PeriodIff(sources, id, required, period);
    }
  }

  // ---------------------------------------------------------------- the verdict

  /** A result without failed rules has no conflict and nothing missing. */
  predicate Honest(r: IdResult) {
    r.rules == [] ==> r.conflicts == [] && !r.missing
  }

  predicate Passes(results: map<string, IdResult>, id: string) {
    id in results && results[id].rules == []
  }

  lemma {:induction false} TotalRules(results: map<string, IdResult>, ids: seq<string>, n: nat)
    requires n <= |ids| && Covers(results, ids) && forall id :: id in results ==> Honest(results[id])
    ensures var t := Total(results, ids, n);
      && (t.rules == [] <==> FirstPass(results, ids, n))
      && (t.rules == [] ==> t.conflicts == [] && t.missing == [])
    decreases n
  {
    if n == 0 {
    } else {
      TotalRules(results, ids, n - 1);
      AddIdEmptyIff(Total(results, ids, n - 1), ids[n - 1], results[ids[n - 1]]);
      FirstPassSnoc(results, ids, n);
    }
  }

  predicate FirstPass(results: map<string, IdResult>, ids: seq<string>, n: nat)
    requires n <= |ids|
  {
    forall i :: 0 <= i < n ==> Passes(results, ids[i])
  }

  lemma FirstPassSnoc(results: map<string, IdResult>, ids: seq<string>, n: nat)
    requires 0 < n <= |ids|
    ensures FirstPass(results, ids, n) <==> FirstPass(results, ids, n - 1) && Passes(results, ids[n - 1])
  {
  }

  lemma AddIdEmptyIff(t: Totals, id: string, r: IdResult)
    requires Honest(r) && (t.rules == [] ==> t.conflicts == [] && t.missing == [])
    ensures var u := AddId(t, id, r);
      && (u.rules == [] <==> t.rules == [] && r.rules == [])
      && (u.rules == [] ==> u.conflicts == [] && u.missing == [])
  {
  }

  lemma {:induction false} TotalRecords(results: map<string, IdResult>, ids: seq<string>, n: nat, id: string)
    requires n <= |ids| && Covers(results, ids)
    ensures var records := Total(results, ids, n).records;
      && (id in records <==> id in ids[..n])
      && (id in records ==> id in results && records[id] == results[id].record)
    decreases n
  {
    if n == 0 {
    } else {
      TotalRecords(results, ids, n - 1, id);
      assert ids[..n] == ids[..n - 1] + [ids[n - 1]];
    }
  }

  lemma {:induction false} MalformedIff(entries: seq<Entry>)
    ensures MalformedOf(entries) == [] <==> forall e :: e in entries ==> HasId(e.record)
    decreases |entries|
  {
    if entries == [] {
    } else {
      var k := |entries| - 1;
      MalformedIff(entries[..k]);
      assert entries == entries[..k] + [entries[k]];
      assert entries[k] in entries;
    }
  }

  lemma NoMalformedIff(sources: Sources)
    ensures MalformedOf(AllEntries(sources)) == [] <==> forall s, r :: Holds(sources, s, r) ==> HasId(r)
  {
    var entries := AllEntries(sources);
    MalformedIff(entries);
    if forall e :: e in entries ==> HasId(e.record) {
      forall s, r | Holds(sources, s, r) ensures HasId(r) {
        var i :| 0 <= i < |sources[s]| && sources[s][i] == r;
        AllEntriesMembers(sources, Entry(s, i, r));
      }
    }
    if forall s, r :: Holds(sources, s, r) ==> HasId(r) {
      forall e | e in entries ensures HasId(e.record) {
        AllEntriesMembers(sources, e);
        assert Holds(sources, e.source, e.record);
      }
    }
  }

  function ResultsFor(sources: Sources, required: seq<string>, period: string): map<string, IdResult> {
    Results(Group(AllEntries(sources)), required, period)
  }

  lemma ResultsAreHonest(sources: Sources, required: seq<string>, period: string)
    ensures forall id :: id in ResultsFor(sources, required, period) ==> Honest(ResultsFor(sources, required, period)[id])
  {
    var grouped := Group(AllEntries(sources));
    forall id | id in grouped ensures Honest(ReconcileId(id, grouped[id], required, period)) {
      IdRulesEmptyIff(id, grouped[id], required, period);
    }
  }

  lemma PassesIff(sources: Sources, required: seq<string>, period: string)
    ensures (forall id :: id in ResultsFor(sources, required, period) ==> Passes(ResultsFor(sources, required, period), id)) <==>
      forall id :: Known(sources, id) ==> IdHolds(sources, required, period, id)
  {
    var results := ResultsFor(sources, required, period);
    forall id ensures id in results <==> Known(sources, id) { GroupedIsKnown(sources, id); }
    forall id | Known(sources, id)
      ensures Passes(results, id) <==> IdHolds(sources, required, period, id)
    {
      IdRulesIff(sources, required, period, id);
    }
  }

  lemma AllPass(results: map<string, IdResult>, ids: seq<string>)
    requires Covers(results, ids) && forall id :: id in results ==> id in ids
    ensures (forall i :: 0 <= i < |ids| ==> Passes(results, ids[i])) <==> forall id :: id in results ==> Passes(results, id)
  {
    if forall i :: 0 <= i < |ids| ==> Passes(results, ids[i]) {
      forall id | id in results ensures Passes(results, id) { assert id in ids; }
    }
  }

  /** The totals over every known id. */
  function AllTotals(sources: Sources, required: seq<string>, period: string): Totals {
    var results := ResultsFor(sources, required, period);
    SortedInKeys(results);
    Total(results, Sorted(results.Keys), |Sorted(results.Keys)|)
  }

  lemma ReconciledIsAllTotals(sources: Sources, required: seq<string>, period: string)
    ensures var t, malformed := AllTotals(sources, required, period), MalformedOf(AllEntries(sources));
      var rules := t.rules + MalformedRules(malformed);
      Reconciled(sources, required, period) ==
        Reconciliation(t.conflicts == [] && t.missing == [] && rules == [],
                       Counts(sources), t.records, t.missing, t.conflicts, malformed, rules)
  {
    assert ResultsFor(sources, required, period).Keys == Group(AllEntries(sources)).Keys;
  }

  lemma NoRulesIff(sources: Sources, required: seq<string>, period: string)
    ensures var t := AllTotals(sources, required, period);
      && (t.rules == [] <==> forall id :: Known(sources, id) ==> IdHolds(sources, required, period, id))
      && (t.rules == [] ==> t.conflicts == [] && t.missing == [])
  {
    var results := ResultsFor(sources, required, period);
    var ids := Sorted(results.Keys);
    SortedInKeys(results);
    ResultsAreHonest(sources, required, period);
    TotalRules(results, ids, |ids|);
    AllPass(results, ids);
    PassesIff(sources, required, period);
  }

  /** "Resolved" says exactly that every rule holds of the sources. */
  lemma ResolvedIff(sources: Sources, required: seq<string>, period: string)
    ensures Reconciled(sources, required, period).resolved <==> RulesHold(sources, required, period)
  {
    ReconciledIsAllTotals(sources, required, period);
    NoRulesIff(sources, required, period);
    NoMalformedIff(sources);
  }

  // ---------------------------------------------------------------- which rules are listed

  lemma AddIfMembers(rules: seq<FailedRule>, broken: bool, added: FailedRule, rule: FailedRule)
    ensures rule in AddIf(rules, broken, added) <==> rule in rules || (broken && rule == added)
  {
  }

  lemma ConflictRuleMembers(conflicts: seq<Conflict>, rule: FailedRule)
    ensures rule in ConflictRules(conflicts) <==>
      exists c :: c in conflicts && rule == FieldValueConsistency(c.patentId, c)
  {
    if c :| c in conflicts && rule == FieldValueConsistency(c.patentId, c) {
      var i :| 0 <= i < |conflicts| && conflicts[i] == c;
      assert ConflictRules(conflicts)[i] == rule;
    }
    if rule in ConflictRules(conflicts) {
      var i :| 0 <= i < |conflicts| && ConflictRules(conflicts)[i] == rule;
      assert conflicts[i] in conflicts;
    }
  }

  /** The rules listed for one id, as conditions on its grouped observations. */
  ghost predicate Listed(id: string, fields: Fields, r: IdResult, period: string, rule: FailedRule) {
    match rule
    case IdentityMatch(i, s) => i == id && s == PresentSources(fields) && !("A" in s && "B" in s)
    case FieldValueConsistency(i, c) => i == c.patentId && c in r.conflicts
    case PeriodValid(i, expected, actual) =>
      i == id && expected == period && actual == Get(r.record, "period") && actual != Str(period)
    case RequiredFieldsPresent(i) => i == id && r.missing
    case AssetStatusValid(i, s) => i == id && s == InvalidStatuses(fields) && s != {}
    case NoDuplicateRegistration(i) => i == id && Registered(fields)
    case IdentityPresent(_) => false
  }

  lemma IdRuleMembers(id: string, fields: Fields, required: seq<string>, period: string, rule: FailedRule)
    ensures var r := ReconcileId(id, fields, required, period);
      rule in r.rules <==> Listed(id, fields, r, period, rule)
  {
    var r := ReconcileId(id, fields, required, period);
    RulesMembers(id, fields, r.record, r.conflicts, required, period, rule);
  }

  lemma RulesMembers(id: string, fields: Fields, record: Record, conflicts: seq<Conflict>, required: seq<string>, period: string,
                     rule: FailedRule)
    ensures rule in IdRules(id, fields, record, conflicts, required, period) <==>
      Listed(id, fields, IdResult(record, conflicts, AnyMissing(record, required), []), period, rule)
  {
    var present, invalid := PresentSources(fields), InvalidStatuses(fields);
    var matched := AddIf([], "A" !in present || "B" !in present, IdentityMatch(id, present));
    var s1 := matched + ConflictRules(conflicts);
    var s2 := AddIf(s1, Get(record, "period") != Str(period), PeriodValid(id, period, Get(record, "period")));
    var s3 := AddIf(s2, AnyMissing(record, required), RequiredFieldsPresent(id));
    var s4 := AddIf(s3, invalid != {}, AssetStatusValid(id, invalid));
    AddIfMembers([], "A" !in present || "B" !in present, IdentityMatch(id, present), rule);
    ConflictRuleMembers(conflicts, rule);
    AddIfMembers(s1, Get(record, "period") != Str(period), PeriodValid(id, period, Get(record, "period")), rule);
    AddIfMembers(s2, AnyMissing(record, required), RequiredFieldsPresent(id), rule);
    AddIfMembers(s3, invalid != {}, AssetStatusValid(id, invalid), rule);
    AddIfMembers(s4, Registered(fields), NoDuplicateRegistration(id), rule);
  }

  ghost predicate RuleOfResult(results: map<string, IdResult>, ids: seq<string>, n: nat, rule: FailedRule)
    requires n <= |ids| && Covers(results, ids)
  {
    exists i :: 0 <= i < n && rule in results[ids[i]].rules
  }

  lemma {:induction false} TotalRuleMembers(results: map<string, IdResult>, ids: seq<string>, n: nat, rule: FailedRule)
    requires n <= |ids| && Covers(results, ids)
    ensures rule in Total(results, ids, n).rules <==> RuleOfResult(results, ids, n, rule)
    decreases n
  {
    if n == 0 {
    } else {
      TotalRuleMembers(results, ids, n - 1, rule);
    }
  }

  lemma MalformedRuleMembers(malformed: seq<Malformed>, rule: FailedRule)
    ensures rule in MalformedRules(malformed) <==> rule.IdentityPresent? && rule.malformed in malformed
  {
    if rule in MalformedRules(malformed) {
      var i :| 0 <= i < |malformed| && MalformedRules(malformed)[i] == rule;
      assert malformed[i] in malformed;
    }
    if rule.IdentityPresent? && rule.malformed in malformed {
      var i :| 0 <= i < |malformed| && malformed[i] == rule.malformed;
      assert MalformedRules(malformed)[i] == rule;
    }
  }

  lemma {:induction false} MalformedMembers(entries: seq<Entry>, m: Malformed)
    ensures m in MalformedOf(entries) <==> Entry(m.source, m.index, m.record) in entries && !HasId(m.record)
    decreases |entries|
  {
    if entries == [] {
    } else {
      var k := |entries| - 1;
      MalformedMembers(entries[..k], m);
      assert entries == entries[..k] + [entries[k]];
    }
  }

  /** The record stands at this place of a source and has no id. */
  ghost predicate LacksId(sources: Sources, m: Malformed) {
    m.source in sources && m.index < |sources[m.source]| && sources[m.source][m.index] == m.record && !HasId(m.record)
  }

  lemma ResultOf(sources: Sources, required: seq<string>, period: string, id: string)
    ensures var results := ResultsFor(sources, required, period);
      && (id in results <==> Known(sources, id))
      && (id in results ==> results[id] == ReconcileId(id, FieldsFor(sources, id), required, period))
  {
    GroupedIsKnown(sources, id);
  }

  lemma ListedAmongAll(results: map<string, IdResult>, rule: FailedRule)
    ensures Covers(results, Sorted(results.Keys))
    ensures rule in Total(results, Sorted(results.Keys), |Sorted(results.Keys)|).rules <==>
      exists id :: id in results && rule in results[id].rules
  {
    var ids := Sorted(results.Keys);
    SortedInKeys(results);
    TotalRuleMembers(results, ids, |ids|, rule);
    if id :| id in results && rule in results[id].rules {
      assert id in ids;
      var i :| 0 <= i < |ids| && ids[i] == id;
    }
  }

  /** The rule is listed for an id of the sources. */
  ghost predicate ListedFor(sources: Sources, required: seq<string>, period: string, id: string, rule: FailedRule) {
    Known(sources, id)
    && Listed(id, FieldsFor(sources, id), ReconcileId(id, FieldsFor(sources, id), required, period), period, rule)
  }

  lemma ListedForIff(sources: Sources, required: seq<string>, period: string, id: string, rule: FailedRule)
    ensures var results := ResultsFor(sources, required, period);
      id in results && rule in results[id].rules <==> ListedFor(sources, required, period, id, rule)
  {
    ResultOf(sources, required, period, id);
    if Known(sources, id) { IdRuleMembers(id, FieldsFor(sources, id), required, period, rule); }
  }

  lemma SomeListedIff(sources: Sources, required: seq<string>, period: string, rule: FailedRule)
    ensures var results := ResultsFor(sources, required, period);
      (exists id :: id in results && rule in results[id].rules) <==> exists id :: ListedFor(sources, required, period, id, rule)
  {
    var results := ResultsFor(sources, required, period);
    forall id ensures id in results && rule in results[id].rules <==> ListedFor(sources, required, period, id, rule) {
      ListedForIff(sources, required, period, id, rule);
    }
  }

  lemma MalformedListed(sources: Sources, rule: FailedRule)
    ensures rule in MalformedRules(MalformedOf(AllEntries(sources))) <==>
      rule.IdentityPresent? && LacksId(sources, rule.malformed)
  {
    MalformedRuleMembers(MalformedOf(AllEntries(sources)), rule);
    if rule.IdentityPresent? {
      MalformedMembers(AllEntries(sources), rule.malformed);
      AllEntriesMembers(sources, Entry(rule.malformed.source, rule.malformed.index, rule.malformed.record));
    }
  }

  lemma FailedRulesListed(sources: Sources, required: seq<string>, period: string, rule: FailedRule)
    ensures rule in Reconciled(sources, required, period).failedRules <==>
      || (rule.IdentityPresent? && LacksId(sources, rule.malformed))
      || exists id :: ListedFor(sources, required, period, id, rule)
  {
    ReconciledIsAllTotals(sources, required, period);
    ListedAmongAll(ResultsFor(sources, required, period), rule);
    MalformedListed(sources, rule);
    SomeListedIff(sources, required, period, rule);
  }

  // ---------------------------------------------------------------- each rule, on the sources

  /** Every observation of a field for an id, in source and record order. */
  function ObservationsOf(sources: Sources, id: string, f: string): seq<Obs> {
    Observations(AllEntries(sources), id, f)
  }

  lemma ObsLessIsOrder()
    ensures IsOrder(ObsLess)
  {
    forall a: Obs, b: Obs | ObsLess(a, b) ensures !ObsLess(b, a) { ObsLessTotal(a, b); }
    forall a: Obs, b: Obs, c: Obs {:trigger ObsLess(b, a), ObsLess(c, b)} | !ObsLess(b, a) && !ObsLess(c, b)
      ensures !ObsLess(c, a)
    {
      ObsNotLessTransitive(a, b, c);
    }
  }

  lemma ObsLessTotal(a: Obs, b: Obs)
    ensures !(ObsLess(a, b) && ObsLess(b, a))
  {
    LessTotal(a.0, b.0);
    LessTotal(Text(a.1), Text(b.1));
  }

  lemma ObsNotLessTransitive(a: Obs, b: Obs, c: Obs)
    requires !ObsLess(b, a) && !ObsLess(c, b)
    ensures !ObsLess(c, a)
  {
    LessTotal(a.0, b.0);
    LessTotal(b.0, c.0);
    LessTotal(c.0, a.0);
    if Less(a.0, b.0) && Less(b.0, c.0) { LessTransitive(a.0, b.0, c.0); }
    if a.0 == b.0 == c.0 { NotLessTransitive(Text(a.1), Text(b.1), Text(c.1)); }
  }

  /** What is listed as a field's evidence: its non-empty observations, sorted. */
  function Evidence(sources: Sources, id: string, f: string): seq<Obs> {
    SortObs(NonEmpty(ObservationsOf(sources, id, f)))
  }

  lemma {:induction false} ConflictMembers(id: string, merges: map<string, Merged>, names: seq<string>, n: nat, c: Conflict)
    requires n <= |names| && Covers(merges, names)
    ensures c in MergeFields(id, merges, names, n).1 <==>
      c.patentId == id && c.field in names[..n] && merges[c.field] == Clash(c.values)
    decreases n
  {
    if n == 0 {
    } else {
      ConflictMembers(id, merges, names, n - 1, c);
      assert names[..n] == names[..n - 1] + [names[n - 1]];
    }
  }

  /** A conflict is reported for a merged field exactly when its observations disagree, with all of them as evidence. */
  lemma ConflictIff(sources: Sources, required: seq<string>, period: string, id: string, c: Conflict)
    requires Known(sources, id)
    ensures c in ReconcileId(id, FieldsFor(sources, id), required, period).conflicts <==>
      && c.patentId == id && Considered(required, c.field) && !Agreed(sources, id, c.field)
      && c.values == Evidence(sources, id, c.field)
  {
    ConflictIsClash(id, FieldsFor(sources, id), required, period, c);
    ClashIff(sources, required, id, c.field, c.values);
  }

  lemma ConflictIsClash(id: string, fields: Fields, required: seq<string>, period: string, c: Conflict)
    ensures c in ReconcileId(id, fields, required, period).conflicts <==>
      && c.patentId == id && c.field in Sorted(FieldNames(fields, required))
      && MergesFor(fields, required)[c.field] == Clash(c.values)
  {
    var names := Sorted(FieldNames(fields, required));
    ConflictsAreMerged(id, fields, required, period);
    NamesCovered(fields, required);
    ConflictOfAny(id, MergesFor(fields, required), names, c);
  }

  lemma ConflictOfAny(id: string, merges: map<string, Merged>, names: seq<string>, c: Conflict)
    requires Covers(merges, names)
    ensures c in MergeFields(id, merges, names, |names|).1 <==>
      c.patentId == id && c.field in names && merges[c.field] == Clash(c.values)
  {
    ConflictMembers(id, merges, names, |names|, c);
    assert names[..|names|] == names;
  }

  lemma NamesCovered(fields: Fields, required: seq<string>)
    ensures Covers(MergesFor(fields, required), Sorted(FieldNames(fields, required)))
  {
  }

  lemma ClashIff(sources: Sources, required: seq<string>, id: string, f: string, values: seq<Obs>)
    requires Known(sources, id)
    ensures var fields := FieldsFor(sources, id);
      f in Sorted(FieldNames(fields, required)) && MergesFor(fields, required)[f] == Clash(values) <==>
        Considered(required, f) && !Agreed(sources, id, f) && values == Evidence(sources, id, f)
  {
    GroupedIsKnown(sources, id);
    GroupValues(AllEntries(sources), id, f);
    NamesCover(FieldsFor(sources, id), required, f);
    AgreedIff(sources, id, f);
  }

  /** The merged value of a field: the one non-empty value seen, or nothing. */
  ghost predicate MergesTo(sources: Sources, id: string, f: string, v: Val) {
    if Filled(sources, id, f) && Agreed(sources, id, f) then Seen(sources, id, f, v) && !IsMissing(v) else v == Null
  }

  lemma MergedIs(sources: Sources, required: seq<string>, period: string, id: string, f: string)
    requires Known(sources, id) && Considered(required, f) && f != PATENT_ID
    ensures MergesTo(sources, id, f, Get(ReconcileId(id, FieldsFor(sources, id), required, period).record, f))
  {
    var fields := FieldsFor(sources, id);
    MergedRecord(id, fields, required, period, f);
    NamesCover(fields, required, f);
    AgreedIff(sources, id, f);
    var unique := UniqueValues(Values(fields, f));
    if |unique| == 1 { UniqueAreSeen(sources, id, f, TheOne(unique)); }
  }

  lemma MergesToOne(sources: Sources, id: string, f: string, v: Val, w: Val)
    requires MergesTo(sources, id, f, v)
    ensures MergesTo(sources, id, f, w) <==> v == w
  {
  }

  /** The merged value of the id field is a seen id, or the id itself. */
  lemma MergedIdValue(sources: Sources, required: seq<string>, id: string)
    requires Known(sources, id)
    ensures var fields := FieldsFor(sources, id);
      var v := MergedValue(id, MergesFor(fields, required), Sorted(FieldNames(fields, required)), PATENT_ID);
      v.Some? && !IsMissing(v.value)
  {
    IdOfIsNotMissing(sources, id);
    var unique := UniqueValues(Values(FieldsFor(sources, id), PATENT_ID));
    if |unique| == 1 { UniqueAreSeen(sources, id, PATENT_ID, TheOne(unique)); }
  }

  /** The id itself is never missing from its record. */
  lemma IdNotMissing(sources: Sources, required: seq<string>, period: string, id: string)
    requires Known(sources, id)
    ensures !IsMissing(Get(ReconcileId(id, FieldsFor(sources, id), required, period).record, PATENT_ID))
  {
    MergedRecord(id, FieldsFor(sources, id), required, period, PATENT_ID);
    MergedIdValue(sources, required, id);
  }

  /** Some required field was never seen filled, or was seen with different values. */
  ghost predicate LacksRequired(sources: Sources, required: seq<string>, id: string) {
    exists f :: f in required && f != PATENT_ID && !(Filled(sources, id, f) && Agreed(sources, id, f))
  }

  lemma MissingIff(sources: Sources, required: seq<string>, period: string, id: string)
    requires Known(sources, id)
    ensures ReconcileId(id, FieldsFor(sources, id), required, period).missing <==> LacksRequired(sources, required, id)
  {
    var record := ReconcileId(id, FieldsFor(sources, id), required, period).record;
    IdNotMissing(sources, required, period, id);
    forall f | f in required && f != PATENT_ID
      ensures IsMissing(Get(record, f)) <==> !(Filled(sources, id, f) && Agreed(sources, id, f))
    {
      assert Considered(required, f);
      MergedIs(sources, required, period, id, f);
    }
  }

  /** Exactly these sources hold the id. */
  ghost predicate HoldingSources(sources: Sources, id: string, present: set<string>) {
    forall s :: s in present <==> InSource(sources, s, id)
  }

  /** Exactly these statuses other than "eligible" are seen for the id. */
  ghost predicate WrongStatuses(sources: Sources, id: string, statuses: set<Val>) {
    forall v :: v in statuses <==> Seen(sources, id, "asset_status", v) && !IsMissing(v) && v != Str("eligible")
  }

  ghost predicate MarkedRegistered(sources: Sources, id: string) {
    exists v :: Seen(sources, id, "target_registered", v) && IsTrue(v)
  }

  /** The rule fails on the sources, with the evidence it names. */
  ghost predicate FailsOn(sources: Sources, required: seq<string>, period: string, rule: FailedRule) {
    match rule
    case IdentityMatch(id, present) =>
      Known(sources, id) && !(InSource(sources, "A", id) && InSource(sources, "B", id)) && HoldingSources(sources, id, present)
    case FieldValueConsistency(id, c) =>
      Known(sources, id) && c.patentId == id && Considered(required, c.field) && !Agreed(sources, id, c.field)
      && c.values == Evidence(sources, id, c.field)
    case PeriodValid(id, expected, actual) =>
      Known(sources, id) && expected == period && MergesTo(sources, id, "period", actual) && actual != Str(period)
    case RequiredFieldsPresent(id) => Known(sources, id) && LacksRequired(sources, required, id)
    case AssetStatusValid(id, statuses) =>
      Known(sources, id) && statuses != {} && WrongStatuses(sources, id, statuses)
    case NoDuplicateRegistration(id) =>
      Known(sources, id) && MarkedRegistered(sources, id)
    case IdentityPresent(m) => LacksId(sources, m)
  }

  lemma PresentSet(sources: Sources, id: string, present: set<string>)
    requires Known(sources, id)
    ensures present == PresentSources(FieldsFor(sources, id)) <==> HoldingSources(sources, id, present)
  {
    forall s ensures s in PresentSources(FieldsFor(sources, id)) <==> InSource(sources, s, id) { PresentIff(sources, id, s); }
  }

  lemma InvalidSet(sources: Sources, id: string, statuses: set<Val>)
    requires Known(sources, id)
    ensures statuses == InvalidStatuses(FieldsFor(sources, id)) <==> WrongStatuses(sources, id, statuses)
  {
    GroupedIsKnown(sources, id);
    var bad := InvalidStatuses(FieldsFor(sources, id));
    forall v ensures v in bad <==> Seen(sources, id, "asset_status", v) && !IsMissing(v) && v != Str("eligible") {
      ValuesAreSeen(sources, id, "asset_status", v);
    }
  }

  lemma MarkedIff(sources: Sources, id: string)
    requires Known(sources, id)
    ensures Registered(FieldsFor(sources, id)) <==> MarkedRegistered(sources, id)
  {
    RegisteredIff(sources, id);
  }

  /** The id a rule speaks of. */
  function RuleId(rule: FailedRule): string
    requires !rule.IdentityPresent?
  {
    rule.patentId
  }

  /** The grouped observations `fields` and the result `r` of an id say what the sources say. */
  ghost predicate Describes(sources: Sources, required: seq<string>, id: string, fields: Fields, r: IdResult) {
    && HoldingSources(sources, id, PresentSources(fields))
    && WrongStatuses(sources, id, InvalidStatuses(fields))
    && (Registered(fields) <==> MarkedRegistered(sources, id))
    && (r.missing <==> LacksRequired(sources, required, id))
    && MergesTo(sources, id, "period", Get(r.record, "period"))
    && ConflictsOf(sources, required, id, r.conflicts)
  }

  /** The conflicts of an id are exactly its merged fields on which it disagrees, with their evidence. */
  ghost predicate ConflictsOf(sources: Sources, required: seq<string>, id: string, conflicts: seq<Conflict>) {
    forall c :: c in conflicts <==>
      && c.patentId == id && Considered(required, c.field) && !Agreed(sources, id, c.field)
      && c.values == Evidence(sources, id, c.field)
  }

  lemma ResultDescribes(sources: Sources, required: seq<string>, period: string, id: string)
    requires Known(sources, id)
    ensures Describes(sources, required, id, FieldsFor(sources, id), ReconcileId(id, FieldsFor(sources, id), required, period))
  {
    PresentSet(sources, id, PresentSources(FieldsFor(sources, id)));
    InvalidSet(sources, id, InvalidStatuses(FieldsFor(sources, id)));
    MarkedIff(sources, id);
    MissingIff(sources, required, period, id);
    MergedIs(sources, required, period, id, "period");
    ResultConflicts(sources, required, period, id);
  }

  lemma ResultConflicts(sources: Sources, required: seq<string>, period: string, id: string)
    requires Known(sources, id)
    ensures ConflictsOf(sources, required, id, ReconcileId(id, FieldsFor(sources, id), required, period).conflicts)
  {
    var conflicts := ReconcileId(id, FieldsFor(sources, id), required, period).conflicts;
    forall c ensures c in conflicts <==>
        && c.patentId == id && Considered(required, c.field) && !Agreed(sources, id, c.field)
        && c.values == Evidence(sources, id, c.field)
    {
      ConflictIff(sources, required, period, id, c);
    }
  }

  lemma SameHolding(sources: Sources, id: string, a: set<string>, b: set<string>)
    requires HoldingSources(sources, id, a)
    ensures HoldingSources(sources, id, b) <==> a == b
  {
    forall s ensures s in a <==> InSource(sources, s, id) {}
  }

  lemma SameStatuses(sources: Sources, id: string, a: set<Val>, b: set<Val>)
    requires WrongStatuses(sources, id, a)
    ensures WrongStatuses(sources, id, b) <==> a == b
  {
  }

  /** For one id, listing on the grouped observations and failing on the sources are the same. */
  lemma ListedIffFails(sources: Sources, required: seq<string>, period: string, fields: Fields, r: IdResult, rule: FailedRule)
    requires !rule.IdentityPresent? && Known(sources, RuleId(rule))
    requires Describes(sources, required, RuleId(rule), fields, r)
    ensures Listed(RuleId(rule), fields, r, period, rule) <==> FailsOn(sources, required, period, rule)
  {
    match rule
    case IdentityMatch(id, present) => SameHolding(sources, id, PresentSources(fields), present);
    case PeriodValid(id, _, actual) => MergesToOne(sources, id, "period", Get(r.record, "period"), actual);
    case AssetStatusValid(id, statuses) => SameStatuses(sources, id, InvalidStatuses(fields), statuses);
    case _ =>
  }

  lemma ListedForIffFails(sources: Sources, required: seq<string>, period: string, rule: FailedRule)
    requires !rule.IdentityPresent? && Known(sources, RuleId(rule))
    ensures ListedFor(sources, required, period, RuleId(rule), rule) <==> FailsOn(sources, required, period, rule)
  {
    var id := RuleId(rule);
    ResultDescribes(sources, required, period, id);
    ListedIffFails(sources, required, period, FieldsFor(sources, id), ReconcileId(id, FieldsFor(sources, id), required, period), rule);
  }

  lemma ListedNamesItsId(sources: Sources, required: seq<string>, period: string, id: string, rule: FailedRule)
    ensures ListedFor(sources, required, period, id, rule) ==> !rule.IdentityPresent? && RuleId(rule) == id
  {
    if rule.FieldValueConsistency? && Known(sources, id) { ConflictIff(sources, required, period, id, rule.evidence); }
  }

  lemma FailsOnKnown(sources: Sources, required: seq<string>, period: string, rule: FailedRule)
    ensures FailsOn(sources, required, period, rule) && !rule.IdentityPresent? ==> Known(sources, RuleId(rule))
    ensures rule.IdentityPresent? ==> (FailsOn(sources, required, period, rule) <==> LacksId(sources, rule.malformed))
  {
  }

  lemma SomeIdListed(sources: Sources, required: seq<string>, period: string, rule: FailedRule)
    ensures (exists id :: ListedFor(sources, required, period, id, rule)) <==>
      !rule.IdentityPresent? && ListedFor(sources, required, period, RuleId(rule), rule)
  {
    forall id ensures ListedFor(sources, required, period, id, rule) ==> !rule.IdentityPresent? && RuleId(rule) == id {
      ListedNamesItsId(sources, required, period, id, rule);
    }
  }

  /** A rule is listed as failed exactly when it fails on the sources, with exactly the evidence it names. */
  lemma FailedRulesMeaning(sources: Sources, required: seq<string>, period: string, rule: FailedRule)
    ensures rule in Reconciled(sources, required, period).failedRules <==> FailsOn(sources, required, period, rule)
  {
    FailedRulesListed(sources, required, period, rule);
    SomeIdListed(sources, required, period, rule);
    FailsOnKnown(sources, required, period, rule);
    if !rule.IdentityPresent? && Known(sources, RuleId(rule)) { ListedForIffFails(sources, required, period, rule); }
  }

  // ---------------------------------------------------------------- what a resolved reconciliation holds

  /** The record holds, for each merged field, the one non-empty value seen, and nothing else. */
  ghost predicate Faithful(sources: Sources, required: seq<string>, id: string, record: Record) {
    forall f {:trigger Lookup(record, f)} {:trigger f in record} ::
      && (f in record <==> Considered(required, f) && Filled(sources, id, f))
      && (f in record ==> !IsMissing(record[f]) && Seen(sources, id, f, record[f]))
  }

  lemma MergedOnlyConsidered(sources: Sources, id: string, required: seq<string>, period: string, f: string)
    requires Known(sources, id) && !Considered(required, f)
    ensures f !in ReconcileId(id, FieldsFor(sources, id), required, period).record
  {
    MergedRecord(id, FieldsFor(sources, id), required, period, f);
    NamesCover(FieldsFor(sources, id), required, f);
  }

  lemma MergedIsFaithful(sources: Sources, required: seq<string>, period: string, id: string)
    requires Known(sources, id) && AllAgreed(sources, required, id)
    ensures Faithful(sources, required, id, ReconcileId(id, FieldsFor(sources, id), required, period).record)
  {
    var record := ReconcileId(id, FieldsFor(sources, id), required, period).record;
    IdOfIsNotMissing(sources, id);
    forall f
      ensures f in record <==> Considered(required, f) && Filled(sources, id, f)
      ensures f in record ==> !IsMissing(record[f]) && Seen(sources, id, f, record[f])
    {
      if Considered(required, f) {
        MergedFieldMeaning(sources, id, required, period, f);
      } else {
        MergedOnlyConsidered(sources, id, required, period, f);
      }
    }
  }

  lemma AllTotalsRecords(results: map<string, IdResult>, id: string)
    ensures Covers(results, Sorted(results.Keys))
    ensures var records := Total(results, Sorted(results.Keys), |Sorted(results.Keys)|).records;
      && (id in records <==> id in results)
      && (id in records ==> records[id] == results[id].record)
  {
    var ids := Sorted(results.Keys);
    SortedInKeys(results);
    TotalRecords(results, ids, |ids|, id);
    assert ids[..|ids|] == ids;
  }

  lemma RecordOf(sources: Sources, required: seq<string>, period: string, id: string)
    ensures var records := Reconciled(sources, required, period).records;
      && (id in records <==> Known(sources, id))
      && (id in records ==> records[id] == ReconcileId(id, FieldsFor(sources, id), required, period).record)
  {
    ReconciledIsAllTotals(sources, required, period);
    AllTotalsRecords(ResultsFor(sources, required, period), id);
    ResultOf(sources, required, period, id);
  }

  /** A resolved reconciliation has one record for each known id, and every field of it is the one value seen. */
  lemma ResolvedRecords(sources: Sources, required: seq<string>, period: string, id: string)
    requires Reconciled(sources, required, period).resolved
    ensures var records := Reconciled(sources, required, period).records;
      && (id in records <==> Known(sources, id))
      && (id in records ==> Faithful(sources, required, id, records[id]))
      && (id in records ==> forall f, v :: Considered(required, f) && Seen(sources, id, f, v) && !IsMissing(v) ==>
           Lookup(records[id], f) == Some(v))
  {
    ResolvedIff(sources, required, period);
    RecordOf(sources, required, period, id);
    if Known(sources, id) {
      assert IdHolds(sources, required, period, id);
      MergedIsFaithful(sources, required, period, id);
      FaithfulValues(sources, required, id, Reconciled(sources, required, period).records[id]);
    }
  }

  lemma FaithfulValues(sources: Sources, required: seq<string>, id: string, record: Record)
    requires Faithful(sources, required, id, record) && AllAgreed(sources, required, id)
    ensures forall f, v :: Considered(required, f) && Seen(sources, id, f, v) && !IsMissing(v) ==> Lookup(record, f) == Some(v)
  {
    forall f, v | Considered(required, f) && Seen(sources, id, f, v) && !IsMissing(v)
      ensures Lookup(record, f) == Some(v)
    {
      assert Filled(sources, id, f) && Agreed(sources, id, f);
    }
  }

  // ---------------------------------------------------------------- the order of records does not matter

  /** The same sources, each with its records in some other order. */
  ghost predicate Permuted(a: Sources, b: Sources) {
    a.Keys == b.Keys && forall s :: s in a ==> multiset(a[s]) == multiset(b[s])
  }

  lemma PermutedHolds(a: Sources, b: Sources, s: string, r: Record)
    requires Permuted(a, b)
    ensures Holds(a, s, r) <==> Holds(b, s, r)
  {
    if s in a {
      assert r in a[s] <==> r in multiset(a[s]);
      assert r in b[s] <==> r in multiset(b[s]);
    }
  }

  lemma PermutedCounts(a: Sources, b: Sources)
    requires Permuted(a, b)
    ensures Counts(a) == Counts(b)
  {
    forall s | s in a ensures |a[s]| == |b[s]| {
      assert |multiset(a[s])| == |a[s]| && |multiset(b[s])| == |b[s]|;
    }
  }

  ghost predicate SameRecords(a: Sources, b: Sources) {
    forall s, r :: Holds(a, s, r) <==> Holds(b, s, r)
  }

  lemma SameSeen(a: Sources, b: Sources, id: string)
    requires SameRecords(a, b)
    ensures Known(a, id) <==> Known(b, id)
    ensures forall s :: InSource(a, s, id) <==> InSource(b, s, id)
    ensures forall f, v :: Seen(a, id, f, v) <==> Seen(b, id, f, v)
  {
  }

  lemma SameFilled(a: Sources, b: Sources, required: seq<string>, id: string)
    requires SameRecords(a, b)
    ensures forall f :: Filled(a, id, f) <==> Filled(b, id, f)
    ensures AllAgreed(a, required, id) <==> AllAgreed(b, required, id)
  {
    SameSeen(a, b, id);
    forall f ensures Agreed(a, id, f) <==> Agreed(b, id, f) {}
  }

  lemma SameIdHolds(a: Sources, b: Sources, required: seq<string>, period: string, id: string)
    requires SameRecords(a, b)
    ensures IdHolds(a, required, period, id) <==> IdHolds(b, required, period, id)
  {
    SameSeen(a, b, id);
    SameFilled(a, b, required, id);
  }

  lemma SameVerdict(a: Sources, b: Sources, required: seq<string>, period: string)
    requires SameRecords(a, b)
    ensures RulesHold(a, required, period) <==> RulesHold(b, required, period)
  {
    forall id
      ensures Known(a, id) <==> Known(b, id)
      ensures IdHolds(a, required, period, id) <==> IdHolds(b, required, period, id)
    {
      SameSeen(a, b, id);
      SameIdHolds(a, b, required, period, id);
    }
  }

  /** The record of an id is determined by what is seen. */
  lemma FaithfulUnique(a: Sources, b: Sources, required: seq<string>, id: string, r: Record, q: Record)
    requires SameRecords(a, b) && AllAgreed(a, required, id)
    requires Faithful(a, required, id, r) && Faithful(b, required, id, q)
    ensures r == q
  {
    SameSeen(a, b, id);
    SameFilled(a, b, required, id);
    forall f ensures Lookup(r, f) == Lookup(q, f) {
      assert f in r <==> f in q;
      if f in r {
        assert Considered(required, f) && Agreed(a, id, f);
      }
    }
    LookupExtensional(r, q);
  }

  lemma LookupExtensional(r: Record, q: Record)
    requires forall f :: Lookup(r, f) == Lookup(q, f)
    ensures r == q
  {
    assert forall f :: f in r <==> f in q by {
      forall f ensures f in r <==> f in q { assert Lookup(r, f) == Lookup(q, f); }
    }
    forall f | f in r ensures r[f] == q[f] { assert Lookup(r, f) == Lookup(q, f); }
  }

  lemma SameRecordAt(a: Sources, b: Sources, required: seq<string>, period: string, id: string)
    requires SameRecords(a, b)
    requires Reconciled(a, required, period).resolved && Reconciled(b, required, period).resolved
    ensures var x, y := Reconciled(a, required, period).records, Reconciled(b, required, period).records;
      (id in x <==> id in y) && (id in x ==> x[id] == y[id])
  {
    ResolvedRecords(a, required, period, id);
    ResolvedRecords(b, required, period, id);
    SameSeen(a, b, id);
    if Known(a, id) {
      ResolvedIff(a, required, period);
      assert IdHolds(a, required, period, id);
      FaithfulUnique(a, b, required, id,
                     Reconciled(a, required, period).records[id], Reconciled(b, required, period).records[id]);
    }
  }

  lemma SameMaps(x: map<string, Record>, y: map<string, Record>)
    requires forall id :: id in x <==> id in y
    requires forall id :: id in x ==> x[id] == y[id]
    ensures x == y
  {
  }

  lemma SameRecordMaps(a: Sources, b: Sources, required: seq<string>, period: string)
    requires SameRecords(a, b)
    requires Reconciled(a, required, period).resolved && Reconciled(b, required, period).resolved
    ensures Reconciled(a, required, period).records == Reconciled(b, required, period).records
  {
    var x, y := Reconciled(a, required, period).records, Reconciled(b, required, period).records;
    forall id
      ensures id in x <==> id in y
      ensures id in x ==> x[id] == y[id]
    {
      SameRecordAt(a, b, required, period, id);
    }
    SameMaps(x, y);
  }

  lemma ResolvedParts(sources: Sources, required: seq<string>, period: string)
    requires Reconciled(sources, required, period).resolved
    ensures var r := Reconciled(sources, required, period);
      r == Reconciliation(true, Counts(sources), r.records, [], [], [], [])
  {
    ReconciledIsAllTotals(sources, required, period);
  }

  /** Reordering the records inside the sources of a resolved reconciliation changes nothing in it. */
  lemma PermutationInvariant(a: Sources, b: Sources, required: seq<string>, period: string)
    requires Permuted(a, b)
    ensures Reconciled(a, required, period).resolved <==> Reconciled(b, required, period).resolved
    ensures Reconciled(a, required, period).resolved ==>
      Reconciled(a, required, period) == Reconciled(b, required, period)
  {
    forall s, r ensures Holds(a, s, r) <==> Holds(b, s, r) { PermutedHolds(a, b, s, r); }
    SameVerdict(a, b, required, period);
    ResolvedIff(a, required, period);
    ResolvedIff(b, required, period);
    if Reconciled(a, required, period).resolved {
      ResolvedParts(a, required, period);
      ResolvedParts(b, required, period);
      PermutedCounts(a, b);
      SameRecordMaps(a, b, required, period);
    }
  }
}
