/**
 What a run gathers from its connectors, on their answers alone: when source C is asked,
 what it is asked about, and which sources are reconciled in the end.
 */
module Gathering {
  import opened Sequences
  import opened Sorting
  import opened Ordering
  import opened Reconcile
  import opened ReconcileLaws
  import opened ReconcileReport
  import opened Workflow

  /** Some id of the two sources lacks a required field. */
  ghost predicate SomeLacks(ab: Sources, required: seq<string>) {
    exists id :: Known(ab, id) && LacksRequired(ab, required, id)
  }

  /** The ids that lack a required field, in order, and their reconciled records. */
  ghost predicate AsksAbout(ab: Sources, required: seq<string>, period: string, ids: seq<string>, asked: seq<Record>) {
    && StrictlySorted(ids)
    && (forall id :: id in ids <==> Known(ab, id) && LacksRequired(ab, required, id))
    && |asked| == |ids|
    && forall i :: 0 <= i < |ids| ==>
         ids[i] in Reconciled(ab, required, period).records && asked[i] == Reconciled(ab, required, period).records[ids[i]]
  }

  /** Source C is asked about these records, and gives this answer. */
  ghost predicate Asked(ab: Sources, required: seq<string>, period: string, enrich: Enrich, answer: Answer) {
    exists ids, asked :: AsksAbout(ab, required, period, ids, asked) && answer == enrich(period, asked)
  }

  /** A and B answer, and C as well when it is asked; together these are the sources. */
  ghost predicate Gathers(required: seq<string>, period: string, a: Answer, b: Answer, enrich: Enrich, sources: Sources) {
    && a.Records? && b.Records?
    && var ab := map["A" := a.records, "B" := b.records];
      if SomeLacks(ab, required) then
        exists c :: Asked(ab, required, period, enrich, Records(c)) && sources == map["A" := a.records, "B" := b.records, "C" := c]
      else sources == ab
  }

  /** A or B raises, or C does when it is asked. */
  ghost predicate GatheringFails(required: seq<string>, period: string, a: Answer, b: Answer, enrich: Enrich) {
    || a.Raised? || b.Raised?
    || var ab := map["A" := a.records, "B" := b.records];
      SomeLacks(ab, required) && Asked(ab, required, period, enrich, Raised)
  }

  lemma SameSortedIds(a: seq<string>, b: seq<string>)
    requires StrictlySorted(a) && StrictlySorted(b) && forall id :: id in a <==> id in b
    ensures a == b
  {
    forall i, j | 0 <= i < j < |a| ensures a[i] != a[j] { LessTotal(a[i], a[j]); }
    forall i, j | 0 <= i < j < |b| ensures b[i] != b[j] { LessTotal(b[i], b[j]); }
    SameItems(a, b);
    LessIsOrder();
    IncreasingUnique(Less, a, b);
  }

  lemma LessIsOrder()
    ensures IsOrder(Less)
  {
    forall a, b | Less(a, b) ensures !Less(b, a) { LessTotal(a, b); }
    forall a, b, c {:trigger Less(b, a), Less(c, b)} | !Less(b, a) && !Less(c, b) ensures !Less(c, a) {
      NotLessTransitive(a, b, c);
    }
  }

  /** There is only one thing to ask. */
  lemma AskedOnce(ab: Sources, required: seq<string>, period: string, ids: seq<string>, asked: seq<Record>,
                  ids': seq<string>, asked': seq<Record>)
    requires AsksAbout(ab, required, period, ids, asked) && AsksAbout(ab, required, period, ids', asked')
    ensures asked == asked'
  {
    SameSortedIds(ids, ids');
  }

  lemma NoneMissingIffNoneLacks(ab: Sources, required: seq<string>, period: string)
    ensures Reconciled(ab, required, period).missingRequired == [] <==> !SomeLacks(ab, required)
  {
    MissingRequiredMeaning(ab, required, period);
    var missing := Reconciled(ab, required, period).missingRequired;
    if missing != [] { assert missing[0] in missing; }
  }

  lemma RecordsAtPlaces(records: map<string, Record>, ids: seq<string>)
    requires Covers(records, ids)
    ensures |RecordsAt(records, ids)| == |ids|
    ensures forall i :: 0 <= i < |ids| ==> ids[i] in records && RecordsAt(records, ids)[i] == records[ids[i]]
  {
  }

  /** What the run asks about is what it reported as missing. */
  lemma MissingIsAsked(ab: Sources, required: seq<string>, period: string)
    ensures var first := Reconciled(ab, required, period);
      && Covers(first.records, first.missingRequired)
      && AsksAbout(ab, required, period, first.missingRequired, RecordsAt(first.records, first.missingRequired))
  {
    var first := Reconciled(ab, required, period);
    MissingHaveRecords(ab, required, period);
    MissingRequiredMeaning(ab, required, period);
    RecordsAtPlaces(first.records, first.missingRequired);
  }

  lemma AskedIff(ab: Sources, required: seq<string>, period: string, enrich: Enrich, answer: Answer)
    ensures var first := Reconciled(ab, required, period);
      Covers(first.records, first.missingRequired)
    ensures var first := Reconciled(ab, required, period);
      Asked(ab, required, period, enrich, answer) <==> answer == enrich(period, RecordsAt(first.records, first.missingRequired))
  {
    var first := Reconciled(ab, required, period);
    MissingIsAsked(ab, required, period);
    var records := RecordsAt(first.records, first.missingRequired);
    if ids, asked :| AsksAbout(ab, required, period, ids, asked) && answer == enrich(period, asked) {
      AskedOnce(ab, required, period, ids, asked, first.missingRequired, records);
    }
  }

  lemma GatherTwo(required: seq<string>, period: string, a: Answer, b: Answer, enrich: Enrich)
    requires a.Records? && b.Records? && !SomeLacks(TwoSources(a.records, b.records), required)
    ensures var ab := TwoSources(a.records, b.records);
      Gather(required, period, a, b, enrich) == Got(ab, Reconciled(ab, required, period))
  {
    NoneMissingIffNoneLacks(TwoSources(a.records, b.records), required, period);
  }

  lemma GatherThree(required: seq<string>, period: string, a: Answer, b: Answer, enrich: Enrich) returns (answer: Answer)
    requires a.Records? && b.Records? && SomeLacks(TwoSources(a.records, b.records), required)
    ensures var ab := TwoSources(a.records, b.records);
      forall other :: Asked(ab, required, period, enrich, other) <==> other == answer
    ensures Gather(required, period, a, b, enrich) ==
      if answer.Raised? then Failed
      else
        var abc := ThreeSources(a.records, b.records, answer.records);
        Got(abc, Reconciled(abc, required, period))
  {
    var ab := TwoSources(a.records, b.records);
    var first := Reconciled(ab, required, period);
    NoneMissingIffNoneLacks(ab, required, period);
    MissingIsAsked(ab, required, period);
    answer := enrich(period, RecordsAt(first.records, first.missingRequired));
    forall other ensures Asked(ab, required, period, enrich, other) <==> other == answer {
      AskedIff(ab, required, period, enrich, other);
    }
  }

  /**
   A run gathers exactly these sources and reconciles them; it fails to gather exactly when
   one of the connector calls it makes raises.
   */
  lemma GatherMeaning(required: seq<string>, period: string, a: Answer, b: Answer, enrich: Enrich)
    ensures var g := Gather(required, period, a, b, enrich);
      && (g.Failed? <==> GatheringFails(required, period, a, b, enrich))
      && (g.Got? ==> g.reconciliation == Reconciled(g.sources, required, period))
      && forall sources :: Gathers(required, period, a, b, enrich, sources) <==> g.Got? && sources == g.sources
  {
    if a.Raised? || b.Raised? {
    } else if SomeLacks(TwoSources(a.records, b.records), required) {
      var answer := GatherThree(required, period, a, b, enrich);
      GathersThree(required, period, a, b, enrich, answer);
    } else {
      GatherTwo(required, period, a, b, enrich);
    }
  }

  lemma GathersThree(required: seq<string>, period: string, a: Answer, b: Answer, enrich: Enrich, answer: Answer)
    requires a.Records? && b.Records? && SomeLacks(TwoSources(a.records, b.records), required)
    requires forall other :: Asked(TwoSources(a.records, b.records), required, period, enrich, other) <==> other == answer
    ensures GatheringFails(required, period, a, b, enrich) <==> answer.Raised?
    ensures forall sources :: Gathers(required, period, a, b, enrich, sources) <==>
      answer.Records? && sources == ThreeSources(a.records, b.records, answer.records)
  {
  }
}
