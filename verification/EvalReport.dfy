/**
 What the subset matcher reports: every mismatch that is due, once and in the expectation's
 own order, and for lists the items that a greedy assignment leaves without a partner.
 */
module EvalReport {
  import opened EvalMatcher
  import opened EvalMatching

  // ---------------------------------------------------------------- the greedy assignment of a list

  datatype Partner = Nobody | At(place: nat)

  /** Which actual items suit which expected ones. */
  type Relation = (Json, Json) -> bool

  /** From the first free actual place on, the item has the first one that suits it, or nobody when there is none. */
  ghost predicate GreedyAt(actual: seq<Json>, item: Json, suits: Relation, free: nat, p: Partner) {
    match p
    case At(j) => free <= j < |actual| && suits(actual[j], item) && forall k :: free <= k < j ==> !suits(actual[k], item)
    case Nobody => forall k :: free <= k < |actual| ==> !suits(actual[k], item)
  }

  /** The first free place after that. */
  function FreeAfter(free: nat, p: Partner): nat {
    if p.At? then p.place + 1 else free
  }

  /** One expected item after another has its partner; `frees` are the first free places before each and in the end. */
  ghost predicate Greedy(actual: seq<Json>, items: seq<Json>, suits: Relation, f: seq<Partner>, frees: seq<nat>) {
    && |f| <= |items| && |frees| == |f| + 1 && frees[0] == 0
    && forall i :: 0 <= i < |f| ==> Turn(actual, items[i], suits, frees[i], f[i], frees[i + 1])
  }

  ghost predicate Turn(actual: seq<Json>, item: Json, suits: Relation, free: nat, p: Partner, next: nat) {
    GreedyAt(actual, item, suits, free, p) && next == FreeAfter(free, p)
  }

  lemma GreedySnoc(actual: seq<Json>, items: seq<Json>, suits: Relation, f: seq<Partner>, frees: seq<nat>, p: Partner)
    requires Greedy(actual, items, suits, f, frees) && |f| < |items|
    requires GreedyAt(actual, items[|f|], suits, frees[|f|], p)
    ensures Greedy(actual, items, suits, f + [p], frees + [FreeAfter(frees[|f|], p)])
  {
    var g, after := f + [p], frees + [FreeAfter(frees[|f|], p)];
    forall i | 0 <= i < |g| ensures Turn(actual, items[i], suits, after[i], g[i], after[i + 1]) {
      if i < |f| { assert Turn(actual, items[i], suits, frees[i], f[i], frees[i + 1]); }
    }
  }

  /** What is reported for an expected item without a partner. */
  function Lonely(item: Json, path: Path, i: nat, traceEvents: bool): Mismatch {
    if traceEvents && !item.JObj? then ExpectedObjectSubset(path + [Index(i)]) else NoMatchingItem(path + [Index(i)], item)
  }

  /** The mismatches are those of the lonely items at these places, in order. */
  ghost predicate LonelyAt(items: seq<Json>, path: Path, traceEvents: bool, f: seq<Partner>, mismatches: seq<Mismatch>, places: seq<nat>) {
    && |f| <= |items| && |places| == |mismatches|
    && (forall u, v :: 0 <= u < v < |places| ==> places[u] < places[v])
    && (forall i: nat :: i in places <==> i < |f| && f[i] == Nobody)
    && forall u :: 0 <= u < |places| ==> places[u] < |items| && mismatches[u] == Lonely(items[places[u]], path, places[u], traceEvents)
  }

  lemma LonelySnoc(items: seq<Json>, path: Path, traceEvents: bool, f: seq<Partner>, mismatches: seq<Mismatch>, places: seq<nat>, p: Partner)
    requires LonelyAt(items, path, traceEvents, f, mismatches, places) && |f| < |items|
    ensures p.At? ==> LonelyAt(items, path, traceEvents, f + [p], mismatches, places)
    ensures p == Nobody ==>
      LonelyAt(items, path, traceEvents, f + [p], mismatches + [Lonely(items[|f|], path, |f|, traceEvents)], places + [|f|])
  {
    var g := f + [p];
    forall i: nat ensures i < |g| && g[i] == Nobody <==> (i < |f| && f[i] == Nobody) || (i == |f| && p == Nobody) {}
    forall i: nat ensures i in places + [|f|] <==> i in places || i == |f| {}
    forall u | 0 <= u < |places| ensures places[u] < |f| { assert places[u] in places; }
  }

  /** The expected item matches the actual one; among trace events only an object does. */
  ghost predicate Suits(actual: Json, item: Json, traceEvents: bool) {
    (traceEvents ==> item.JObj?) && Matches(actual, item, Inside)
  }

  ghost function Suiting(traceEvents: bool): Relation {
    (actual, item) => Suits(actual, item, traceEvents)
  }

  lemma PartnerOf(actual: seq<Json>, item: Json, free: nat, path: Path, traceEvents: bool) returns (p: Partner)
    requires free <= |actual| && |path| > 0 && path != TRACE_PATH
    ensures GreedyAt(actual, item, Suiting(traceEvents), free, p)
    ensures p == Nobody <==> (traceEvents && !item.JObj?) || FirstMatch(actual, item, free, path) == |actual|
    ensures p.At? ==> p.place == FirstMatch(actual, item, free, path)
  {
    FirstMatchIs(actual, item, free, path);
    var j := FirstMatch(actual, item, free, path);
    p := if (traceEvents && !item.JObj?) || j == |actual| then Nobody else At(j);
  }

  /** What one more expected item adds to the scan. */
  lemma ScanStep(actual: seq<Json>, e: Json, n: nat, path: Path, traceEvents: bool) returns (p: Partner)
    requires e.JList? && n < |e.items|
    ensures var (mismatches, free) := Scan(actual, e, n, path, traceEvents);
      && GreedyAt(actual, e.items[n], Suiting(traceEvents), free, p)
      && Scan(actual, e, n + 1, path, traceEvents) ==
           (if p == Nobody then mismatches + [Lonely(e.items[n], path, n, traceEvents)] else mismatches, FreeAfter(free, p))
  {
    var free, itemPath := Scan(actual, e, n, path, traceEvents).1, path + [Index(n)];
    assert itemPath[|itemPath| - 1] == Index(n);
    p := PartnerOf(actual, e.items[n], free, itemPath, traceEvents);
  }

  /** What a scan has found: its report and its search position, by the greedy assignment. */
  ghost predicate Scanned(actual: seq<Json>, items: seq<Json>, path: Path, traceEvents: bool, mismatches: seq<Mismatch>, free: nat,
                          f: seq<Partner>, frees: seq<nat>, places: seq<nat>)
  {
    && Greedy(actual, items, Suiting(traceEvents), f, frees) && free == frees[|f|]
    && LonelyAt(items, path, traceEvents, f, mismatches, places)
  }

  lemma ScannedSnoc(actual: seq<Json>, items: seq<Json>, path: Path, traceEvents: bool, mismatches: seq<Mismatch>, free: nat,
                    f: seq<Partner>, frees: seq<nat>, places: seq<nat>, p: Partner)
    requires Scanned(actual, items, path, traceEvents, mismatches, free, f, frees, places) && |f| < |items|
    requires GreedyAt(actual, items[|f|], Suiting(traceEvents), free, p)
    ensures p.At? ==>
      Scanned(actual, items, path, traceEvents, mismatches, FreeAfter(free, p), f + [p], frees + [FreeAfter(free, p)], places)
    ensures p == Nobody ==>
      Scanned(actual, items, path, traceEvents, mismatches + [Lonely(items[|f|], path, |f|, traceEvents)], FreeAfter(free, p),
              f + [p], frees + [FreeAfter(free, p)], places + [|f|])
  {
    GreedySnoc(actual, items, Suiting(traceEvents), f, frees, p);
    LonelySnoc(items, path, traceEvents, f, mismatches, places, p);
  }

  /** The scan's report and search position, by the greedy assignment. */
  lemma {:induction false} ScanIsGreedy(actual: seq<Json>, e: Json, n: nat, path: Path, traceEvents: bool)
    returns (f: seq<Partner>, frees: seq<nat>, places: seq<nat>)
    requires e.JList? && n <= |e.items|
    ensures |f| == n
    ensures var (mismatches, free) := Scan(actual, e, n, path, traceEvents);
      Scanned(actual, e.items, path, traceEvents, mismatches, free, f, frees, places)
    decreases n
  {
    if n == 0 {
      f, frees, places := [], [0], [];
    } else {
      f, frees, places := ScanIsGreedy(actual, e, n - 1, path, traceEvents);
      var p := ScanStep(actual, e, n - 1, path, traceEvents);
      var (mismatches, free) := Scan(actual, e, n - 1, path, traceEvents);
      ScannedSnoc(actual, e.items, path, traceEvents, mismatches, free, f, frees, places, p);
      f, frees, places := f + [p], frees + [FreeAfter(free, p)], if p == Nobody then places + [n - 1] else places;
    }
  }

  lemma SamePartner(actual: seq<Json>, item: Json, suits: Relation, free: nat, p: Partner, q: Partner)
    requires GreedyAt(actual, item, suits, free, p) && GreedyAt(actual, item, suits, free, q)
    ensures p == q
  {
  }

  /** There is only one greedy assignment. */
  lemma {:induction false} GreedyOnce(actual: seq<Json>, items: seq<Json>, suits: Relation, f: seq<Partner>, frees: seq<nat>,
                                      g: seq<Partner>, others: seq<nat>, i: nat)
    requires Greedy(actual, items, suits, f, frees) && Greedy(actual, items, suits, g, others) && i <= |f| == |g|
    ensures frees[i] == others[i] && forall j :: 0 <= j < i ==> f[j] == g[j]
    decreases i
  {
    if i == 0 {
    } else {
      GreedyOnce(actual, items, suits, f, frees, g, others, i - 1);
      assert Turn(actual, items[i - 1], suits, frees[i - 1], f[i - 1], frees[i - 1 + 1]);
      assert Turn(actual, items[i - 1], suits, others[i - 1], g[i - 1], others[i - 1 + 1]);
      SamePartner(actual, items[i - 1], suits, frees[i - 1], f[i - 1], g[i - 1]);
    }
  }

  // ---------------------------------------------------------------- what is due, by position

  /**
   The mismatch is due at this position of the expectation: the position names one field after
   another, and in the end the key that is forbidden or the list item that has no partner.
   */
  ghost predicate Due(a: Json, e: Json, path: Path, at: seq<nat>, m: Mismatch)
    decreases |at|
  {
    if path == [Key("trace_events")] then
      if !e.JList? then at == [] && m == ExpectedArray(path, e)
      else if !a.JList? then at == [] && m == ExpectedArray(path, a)
      else DueInList(a.items, e.items, path, true, at, m)
    else match e
      case JObj(fields) =>
        if !a.JObj? then at == [] && m == ExpectedObject(path)
        else at != [] && at[0] < |fields| && DueInField(a.fields, fields[at[0]], path, at, m)
      case JList(items) =>
        if !a.JList? then at == [] && m == ExpectedArray(path, a) else DueInList(a.items, items, path, false, at, m)
      case _ => at == [] && !ScalarEq(a, e) && m == NotEqual(path, e, a)
  }

  ghost predicate DueInField(a: seq<Field>, field: Field, path: Path, at: seq<nat>, m: Mismatch)
    requires at != []
    decreases |at|, 0
  {
    if field.key == "$absent" then DueForAbsent(a, field.value, path, at[1..], m)
    else if !HasKey(a, field.key) then |at| == 1 && m == MissingKey(path + [Key(field.key)])
    else Due(Get(a, field.key), field.value, path + [Key(field.key)], at[1..], m)
  }

  ghost predicate DueForAbsent(a: seq<Field>, spec: Json, path: Path, at: seq<nat>, m: Mismatch) {
    if !spec.JList? || exists v :: v in spec.items && !v.JStr? then at == [] && m == BadAbsentSpec(path + [Key("$absent")])
    else
      |at| == 1 && at[0] < |spec.items| && spec.items[at[0]].JStr? && HasKey(a, spec.items[at[0]].s)
      && m == ExpectedAbsent(path + [Key(spec.items[at[0]].s)])
  }

  ghost predicate DueInList(actual: seq<Json>, items: seq<Json>, path: Path, traceEvents: bool, at: seq<nat>, m: Mismatch) {
    && |at| == 1 && at[0] < |items| && m == Lonely(items[at[0]], path, at[0], traceEvents)
    && exists f, frees :: |f| == |items| && Greedy(actual, items, Suiting(traceEvents), f, frees) && f[at[0]] == Nobody
  }

  /** Positions are compared like words. */
  predicate Before(a: seq<nat>, b: seq<nat>)
    decreases |a|
  {
    if a == [] then b != []
    else b != [] && (a[0] < b[0] || (a[0] == b[0] && Before(a[1..], b[1..])))
  }

  /** Mismatches at these positions, in order. */
  ghost predicate Placed(mismatches: seq<Mismatch>, ats: seq<seq<nat>>) {
    && |ats| == |mismatches|
    && forall u, v :: 0 <= u < v < |ats| ==> Before(ats[u], ats[v])
  }

  ghost predicate Reported(a: Json, e: Json, path: Path, mismatches: seq<Mismatch>, ats: seq<seq<nat>>) {
    && Placed(mismatches, ats)
    && (forall u :: 0 <= u < |ats| ==> Due(a, e, path, ats[u], mismatches[u]))
    && (forall at, m :: Due(a, e, path, at, m) ==> at in ats)
  }

  ghost predicate ReportedInList(actual: seq<Json>, items: seq<Json>, path: Path, traceEvents: bool, mismatches: seq<Mismatch>,
                                 ats: seq<seq<nat>>)
  {
    && Placed(mismatches, ats)
    && (forall u :: 0 <= u < |ats| ==> DueInList(actual, items, path, traceEvents, ats[u], mismatches[u]))
    && (forall at, m :: DueInList(actual, items, path, traceEvents, at, m) ==> at in ats)
  }

  function Singles(places: seq<nat>): (ats: seq<seq<nat>>)
    ensures |ats| == |places| && forall u :: 0 <= u < |ats| ==> ats[u] == [places[u]]
  {
    seq(|places|, u requires 0 <= u < |places| => [places[u]])
  }

  lemma DueIsLonely(actual: seq<Json>, items: seq<Json>, path: Path, traceEvents: bool, f: seq<Partner>, frees: seq<nat>,
                    at: seq<nat>, m: Mismatch)
    requires |f| == |items| && Greedy(actual, items, Suiting(traceEvents), f, frees)
    requires DueInList(actual, items, path, traceEvents, at, m)
    ensures |at| == 1 && at[0] < |f| && f[at[0]] == Nobody
  {
    var g, others :| |g| == |items| && Greedy(actual, items, Suiting(traceEvents), g, others) && g[at[0]] == Nobody;
    GreedyOnce(actual, items, Suiting(traceEvents), f, frees, g, others, |f|);
  }

  lemma LonelyIsDue(actual: seq<Json>, items: seq<Json>, path: Path, traceEvents: bool, f: seq<Partner>, frees: seq<nat>,
                    mismatches: seq<Mismatch>, places: seq<nat>)
    requires |f| == |items| && Greedy(actual, items, Suiting(traceEvents), f, frees)
    requires LonelyAt(items, path, traceEvents, f, mismatches, places)
    ensures ReportedInList(actual, items, path, traceEvents, mismatches, Singles(places))
  {
    var ats := Singles(places);
    forall u | 0 <= u < |ats| ensures DueInList(actual, items, path, traceEvents, ats[u], mismatches[u]) {
      assert places[u] in places;
    }
    forall at, m | DueInList(actual, items, path, traceEvents, at, m) ensures at in ats {
      DueIsLonely(actual, items, path, traceEvents, f, frees, at, m);
      var u :| 0 <= u < |places| && places[u] == at[0];
      assert ats[u] == at;
    }
  }

  lemma ListReport(actual: seq<Json>, e: Json, path: Path, traceEvents: bool) returns (ats: seq<seq<nat>>)
    requires e.JList?
    ensures ReportedInList(actual, e.items, path, traceEvents, Scan(actual, e, |e.items|, path, traceEvents).0, ats)
  {
    var f, frees, places := ScanIsGreedy(actual, e, |e.items|, path, traceEvents);
    ats := Singles(places);
    LonelyIsDue(actual, e.items, path, traceEvents, f, frees, Scan(actual, e, |e.items|, path, traceEvents).0, places);
  }

  // ---------------------------------------------------------------- fields

  ghost predicate AbsentSoFar(a: seq<Field>, spec: Json, n: nat, path: Path, mismatches: seq<Mismatch>, ats: seq<seq<nat>>) {
    && spec.JList? && n <= |spec.items|
    && Placed(mismatches, ats)
    && (forall u :: 0 <= u < |ats| ==> DueForAbsent(a, spec, path, ats[u], mismatches[u]) && |ats[u]| == 1 && ats[u][0] < n)
    && (forall at, m :: DueForAbsent(a, spec, path, at, m) && |at| == 1 && at[0] < n ==> at in ats)
  }

  ghost predicate TextNames(spec: Json) {
    spec.JList? && forall v :: v in spec.items ==> v.JStr?
  }

  lemma {:induction false} AbsentReport(a: seq<Field>, spec: Json, n: nat, path: Path) returns (ats: seq<seq<nat>>)
    requires TextNames(spec) && n <= |spec.items|
    ensures AbsentSoFar(a, spec, n, path, AbsentMismatches(a, spec.items, n, path), ats)
    decreases n
  {
    if n == 0 {
      ats := [];
    } else {
      ats := AbsentReport(a, spec, n - 1, path);
      AbsentSnoc(a, spec, n - 1, path, AbsentMismatches(a, spec.items, n - 1, path), ats);
      if HasKey(a, spec.items[n - 1].s) { ats := ats + [[n - 1]]; }
    }
  }

  lemma AbsentSnoc(a: seq<Field>, spec: Json, n: nat, path: Path, mismatches: seq<Mismatch>, ats: seq<seq<nat>>)
    requires TextNames(spec) && n < |spec.items| && AbsentSoFar(a, spec, n, path, mismatches, ats)
    ensures if HasKey(a, spec.items[n].s) then
        AbsentSoFar(a, spec, n + 1, path, mismatches + [ExpectedAbsent(path + [Key(spec.items[n].s)])], ats + [[n]])
      else AbsentSoFar(a, spec, n + 1, path, mismatches, ats)
  {
    assert spec.items[n] in spec.items;
    forall at, m | DueForAbsent(a, spec, path, at, m) && |at| == 1 && at[0] < n + 1
      ensures at in ats || (at == [n] && HasKey(a, spec.items[n].s))
    {
      if at[0] == n { assert at == [n]; }
    }
    if HasKey(a, spec.items[n].s) {
      forall u | 0 <= u < |ats| ensures Before(ats[u], [n]) {}
    }
  }

  ghost predicate ReportedInField(a: seq<Field>, field: Field, path: Path, i: nat, mismatches: seq<Mismatch>, ats: seq<seq<nat>>) {
    && Placed(mismatches, ats)
    && (forall u :: 0 <= u < |ats| ==> ats[u] != [] && ats[u][0] == i && DueInField(a, field, path, ats[u], mismatches[u]))
    && (forall at, m :: at != [] && at[0] == i && DueInField(a, field, path, at, m) ==> at in ats)
  }

  function Under(i: nat, ats: seq<seq<nat>>): (r: seq<seq<nat>>)
    ensures |r| == |ats| && forall u :: 0 <= u < |r| ==> r[u] == [i] + ats[u]
  {
    seq(|ats|, u requires 0 <= u < |ats| => [i] + ats[u])
  }

  lemma UnderPlaced(i: nat, mismatches: seq<Mismatch>, ats: seq<seq<nat>>)
    requires Placed(mismatches, ats)
    ensures Placed(mismatches, Under(i, ats))
  {
    forall u, v | 0 <= u < v < |ats| ensures Before(Under(i, ats)[u], Under(i, ats)[v]) {
      assert ([i] + ats[u])[1..] == ats[u] && ([i] + ats[v])[1..] == ats[v];
    }
  }

  lemma FieldReport(a: seq<Field>, field: Field, path: Path, i: nat) returns (ats: seq<seq<nat>>)
    requires path != TRACE_PATH
    ensures ReportedInField(a, field, path, i, CompareField(a, field, path), ats)
    decreases field.value, 2, 0
  {
    var mismatches := CompareField(a, field, path);
    if field.key == ABSENT {
      var inner := AbsentFieldReport(a, field.value, path);
      ats := Under(i, inner);
      UnderPlaced(i, mismatches, inner);
      UnderAbsent(a, field, path, i, mismatches, inner);
    } else if !HasKey(a, field.key) {
      ats := [[i]];
      forall at, m | at != [] && at[0] == i && DueInField(a, field, path, at, m) ensures at in ats { assert at == [i]; }
    } else {
      var inner := CompareReport(Get(a, field.key), field.value, path + [Key(field.key)]);
      ats := Under(i, inner);
      UnderPlaced(i, mismatches, inner);
      UnderReported(a, field, path, i, mismatches, inner);
    }
  }

  ghost predicate ReportedForAbsent(a: seq<Field>, spec: Json, path: Path, mismatches: seq<Mismatch>, ats: seq<seq<nat>>) {
    && Placed(mismatches, ats)
    && (forall u :: 0 <= u < |ats| ==> DueForAbsent(a, spec, path, ats[u], mismatches[u]))
    && (forall at, m :: DueForAbsent(a, spec, path, at, m) ==> at in ats)
  }

  lemma AbsentFieldReport(a: seq<Field>, spec: Json, path: Path) returns (ats: seq<seq<nat>>)
    ensures ReportedForAbsent(a, spec, path, CompareAbsent(a, spec, path), ats)
  {
    if TextNames(spec) {
      ats := AbsentReport(a, spec, |spec.items|, path);
    } else {
      ats := [[]];
    }
  }

  lemma UnderAbsent(a: seq<Field>, field: Field, path: Path, i: nat, mismatches: seq<Mismatch>, inner: seq<seq<nat>>)
    requires field.key == ABSENT && ReportedForAbsent(a, field.value, path, mismatches, inner) && Placed(mismatches, Under(i, inner))
    ensures ReportedInField(a, field, path, i, mismatches, Under(i, inner))
  {
    var ats := Under(i, inner);
    forall u | 0 <= u < |ats| ensures ats[u] != [] && ats[u][0] == i && DueInField(a, field, path, ats[u], mismatches[u]) {
      assert ats[u][1..] == inner[u];
    }
    forall at, m | at != [] && at[0] == i && DueInField(a, field, path, at, m) ensures at in ats {
      assert DueForAbsent(a, field.value, path, at[1..], m);
      var u :| 0 <= u < |inner| && inner[u] == at[1..];
      assert ats[u] == at;
    }
  }

  lemma UnderReported(a: seq<Field>, field: Field, path: Path, i: nat, mismatches: seq<Mismatch>, inner: seq<seq<nat>>)
    requires field.key != ABSENT && HasKey(a, field.key) && Placed(mismatches, Under(i, inner))
    requires Reported(Get(a, field.key), field.value, path + [Key(field.key)], mismatches, inner)
    ensures ReportedInField(a, field, path, i, mismatches, Under(i, inner))
  {
    var ats := Under(i, inner);
    forall u | 0 <= u < |ats| ensures ats[u] != [] && ats[u][0] == i && DueInField(a, field, path, ats[u], mismatches[u]) {
      assert ats[u][1..] == inner[u];
    }
    forall at, m | at != [] && at[0] == i && DueInField(a, field, path, at, m) ensures at in ats {
      assert Due(Get(a, field.key), field.value, path + [Key(field.key)], at[1..], m);
      var u :| 0 <= u < |inner| && inner[u] == at[1..];
      assert ats[u] == at;
    }
  }

  ghost predicate FieldsSoFar(a: seq<Field>, fields: seq<Field>, n: nat, path: Path, mismatches: seq<Mismatch>, ats: seq<seq<nat>>) {
    && n <= |fields| && Placed(mismatches, ats)
    && (forall u :: 0 <= u < |ats| ==>
         ats[u] != [] && ats[u][0] < n && DueInField(a, fields[ats[u][0]], path, ats[u], mismatches[u]))
    && (forall at, m :: at != [] && at[0] < n && DueInField(a, fields[at[0]], path, at, m) ==> at in ats)
  }

  lemma FieldsSnoc(a: seq<Field>, fields: seq<Field>, n: nat, path: Path, mismatches: seq<Mismatch>, ats: seq<seq<nat>>,
                   more: seq<Mismatch>, last: seq<seq<nat>>)
    requires FieldsSoFar(a, fields, n, path, mismatches, ats) && n < |fields|
    requires ReportedInField(a, fields[n], path, n, more, last)
    ensures FieldsSoFar(a, fields, n + 1, path, mismatches + more, ats + last)
  {
    var all, at' := mismatches + more, ats + last;
    forall u, v | 0 <= u < v < |at'| ensures Before(at'[u], at'[v]) {}
    forall u | 0 <= u < |at'| ensures at'[u] != [] && at'[u][0] < n + 1 && DueInField(a, fields[at'[u][0]], path, at'[u], all[u]) {}
  }

  lemma {:induction false} FieldsReport(a: seq<Field>, e: Json, n: nat, path: Path) returns (ats: seq<seq<nat>>)
    requires e.JObj? && n <= |e.fields| && path != TRACE_PATH
    ensures FieldsSoFar(a, e.fields, n, path, CompareFields(a, e, n, path), ats)
    decreases e, 0, n
  {
    if n == 0 {
      ats := [];
    } else {
      var before := FieldsReport(a, e, n - 1, path);
      var last := FieldReport(a, e.fields[n - 1], path, n - 1);
      FieldsSnoc(a, e.fields, n - 1, path, CompareFields(a, e, n - 1, path), before, CompareField(a, e.fields[n - 1], path), last);
      ats := before + last;
    }
  }

  /** The report of a comparison: every mismatch that is due, once, in the order of the expectation. */
  lemma {:induction false} CompareReport(a: Json, e: Json, path: Path) returns (ats: seq<seq<nat>>)
    ensures Reported(a, e, path, Compare(a, e, path), ats)
    decreases e, 1, 0
  {
    if path == TRACE_PATH {
      if e.JList? && a.JList? { ats := ListReport(a.items, e, path, true); } else { ats := [[]]; }
    } else if e.JObj? && a.JObj? {
      ats := FieldsReport(a.fields, e, |e.fields|, path);
    } else if e.JList? && a.JList? {
      ats := ListReport(a.items, e, path, false);
    } else {
      ats := if Compare(a, e, path) == [] then [] else [[]];
    }
  }
}
