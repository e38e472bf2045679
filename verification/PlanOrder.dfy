/**
 In which order a plan's groups list their steps, on the plan's own order alone: the first
 group by first appearance, every later one by the dependency that is finished last.
 */
module PlanOrder {
  import opened Sequences
  import opened Sorting
  import opened Planner

  // ---------------------------------------------------------------- the first group

  /** The id appears first at step `i`. */
  ghost predicate FirstAppears(steps: seq<PlanStep>, id: string, i: nat) {
    && i < |steps| && steps[i].stepId == id
    && forall j :: 0 <= j < i ==> steps[j].stepId != id
  }

  /** The ids appear first at these steps, one after another. */
  ghost predicate AppearAt(steps: seq<PlanStep>, ids: seq<string>, places: seq<nat>) {
    && |places| == |ids| && Ascending(places)
    && forall u :: 0 <= u < |ids| ==> FirstAppears(steps, ids[u], places[u])
  }

  lemma AppearMore(steps: seq<PlanStep>, last: PlanStep, ids: seq<string>, places: seq<nat>)
    requires AppearAt(steps, ids, places)
    ensures AppearAt(steps + [last], ids, places)
  {
    forall u | 0 <= u < |ids| ensures FirstAppears(steps + [last], ids[u], places[u]) {
      assert FirstAppears(steps, ids[u], places[u]);
    }
  }

  lemma {:induction false} IdOrderAppears(steps: seq<PlanStep>) returns (places: seq<nat>)
    ensures AppearAt(steps, IdOrder(steps), places)
    decreases |steps|
  {
    if steps == [] {
      places := [];
    } else {
      var n := |steps| - 1;
      var front, last := steps[..n], steps[n];
      places := IdOrderAppears(front);
      assert steps == front + [last];
      AppearMore(front, last, IdOrder(front), places);
      if last.stepId !in IdOrder(front) {
        LastAppears(front, last, IdOrder(front), places);
        places := places + [n];
      }
    }
  }

  lemma LastAppears(front: seq<PlanStep>, last: PlanStep, ids: seq<string>, places: seq<nat>)
    requires AppearAt(front, ids, places) && AppearAt(front + [last], ids, places) && last.stepId !in Ids(front)
    ensures AppearAt(front + [last], ids + [last.stepId], places + [|front|])
  {
    forall j | 0 <= j < |front| ensures (front + [last])[j].stepId != last.stepId { assert front[j].stepId in Ids(front); }
    assert FirstAppears(front + [last], last.stepId, |front|);
    forall i | i in places ensures i < |front| {
      var u :| 0 <= u < |places| && places[u] == i;
      assert FirstAppears(front, ids[u], places[u]);
    }
    AscendingSnoc(places, |front|);
  }

  lemma {:induction false} FilterAppears(steps: seq<PlanStep>, order: seq<string>, edges: seq<Edge>, places: seq<nat>) returns (kept: seq<nat>)
    requires AppearAt(steps, order, places)
    ensures AppearAt(steps, Filter(order, edges), kept) && forall i :: i in kept ==> i in places
    decreases |order|
  {
    if order == [] {
      kept := [];
    } else {
      var n := |order| - 1;
      kept := FilterAppears(steps, order[..n], edges, places[..n]);
      if Pending(edges, order[n], {}) == 0 {
        forall i | i in kept ensures i < places[n] {
          var u :| 0 <= u < n && places[u] == i;
        }
        AscendingSnoc(kept, places[n]);
        kept := kept + [places[n]];
      }
    }
  }

  lemma AppearsOnce(steps: seq<PlanStep>, id: string, i: nat, j: nat)
    requires FirstAppears(steps, id, i) && FirstAppears(steps, id, j)
    ensures i == j
  {
  }

  lemma FirstGroupAppears(steps: seq<PlanStep>) returns (places: seq<nat>)
    ensures AppearAt(steps, LevelIds(steps, 0).0, places)
  {
    var order := IdOrderAppears(steps);
    places := FilterAppears(steps, IdOrder(steps), EdgesOf(steps, Ids(steps)), order);
  }

  lemma AppearanceOrder(steps: seq<PlanStep>, ids: seq<string>, places: seq<nat>, u: nat, v: nat, i: nat, j: nat)
    requires AppearAt(steps, ids, places) && u < |ids| && v < |ids|
    requires FirstAppears(steps, ids[u], i) && FirstAppears(steps, ids[v], j)
    ensures u < v <==> i < j
  {
    AppearsOnce(steps, ids[u], i, places[u]);
    AppearsOnce(steps, ids[v], j, places[v]);
  }

  /** In the first group a step stands before another exactly when its id appears first earlier in the plan. */
  lemma FirstGroupOrder(steps: seq<PlanStep>, groups: seq<seq<PlanStep>>, u: nat, v: nat, i: nat, j: nat)
    requires IsLevelling(steps, groups) && |groups| > 0 && u < |groups[0]| && v < |groups[0]|
    requires FirstAppears(steps, groups[0][u].stepId, i) && FirstAppears(steps, groups[0][v].stepId, j)
    ensures u < v <==> i < j
  {
    assert GroupAt(steps, 0, groups[0]);
    var places := FirstGroupAppears(steps);
    AppearanceOrder(steps, GroupIds(groups[0]), places, u, v, i, j);
  }

  // ---------------------------------------------------------------- where an edge stands

  /** The `dep`-th dependency of the `step`-th step. */
  datatype Spot = Spot(step: nat, dep: nat)

  predicate SpotLess(a: Spot, b: Spot) {
    a.step < b.step || (a.step == b.step && a.dep < b.dep)
  }

  /** At this spot a step with this id names this dependency. */
  ghost predicate NamesAt(steps: seq<PlanStep>, id: string, dep: string, s: Spot) {
    && s.step < |steps| && s.dep < |steps[s.step].dependsOn|
    && steps[s.step].stepId == id && steps[s.step].dependsOn[s.dep] == dep
  }

  /** These are the spots that name the dependency, in order, and the ids that do. */
  ghost predicate NamedAt(steps: seq<PlanStep>, dep: string, ids: seq<string>, spots: seq<Spot>) {
    && |spots| == |ids| && Increasing(SpotLess, spots)
    && (forall q :: 0 <= q < |ids| ==> NamesAt(steps, ids[q], dep, spots[q]))
    && (forall id, s :: NamesAt(steps, id, dep, s) ==> s in spots)
  }

  /** The same for the first `n` dependencies of the last step only. */
  ghost predicate StepNamedAt(steps: seq<PlanStep>, n: nat, dep: string, ids: seq<string>, spots: seq<Spot>) {
    && |spots| == |ids| && Increasing(SpotLess, spots)
    && (forall q :: 0 <= q < |ids| ==> NamesAt(steps, ids[q], dep, spots[q]) && spots[q].step == |steps| - 1 && spots[q].dep < n)
    && (forall id, s :: NamesAt(steps, id, dep, s) && s.step == |steps| - 1 && s.dep < n ==> s in spots)
  }

  lemma {:induction false} DependentsConcat(a: seq<Edge>, b: seq<Edge>, dep: string)
    ensures DependentsOf(a + b, dep) == DependentsOf(a, dep) + DependentsOf(b, dep)
    decreases |b|
  {
    if b == [] {
      assert a + b == a;
    } else {
      var n := |b| - 1;
      assert (a + b)[..|a + b| - 1] == a + b[..n];
      DependentsConcat(a, b[..n], dep);
    }
  }

  lemma {:induction false} StepSpots(steps: seq<PlanStep>, ids: set<string>, n: nat, dep: string) returns (spots: seq<Spot>)
    requires steps != [] && n <= |steps[|steps| - 1].dependsOn| && dep in ids
    ensures var last := steps[|steps| - 1];
      StepNamedAt(steps, n, dep, DependentsOf(EdgesOfStep(last.stepId, last.dependsOn[..n], ids), dep), spots)
    decreases n
  {
    var last := steps[|steps| - 1];
    if n == 0 {
      assert last.dependsOn[..0] == [];
      assert EdgesOfStep(last.stepId, [], ids) == [] && DependentsOf([], dep) == [];
      spots := [];
    } else {
      spots := StepSpots(steps, ids, n - 1, dep);
      assert last.dependsOn[..n][..n - 1] == last.dependsOn[..n - 1];
      var before := EdgesOfStep(last.stepId, last.dependsOn[..n - 1], ids);
      var d := last.dependsOn[n - 1];
      var all := EdgesOfStep(last.stepId, last.dependsOn[..n], ids);
      assert all == before + if d in ids then [(last.stepId, d)] else [];
      if d == dep {
        assert all == before + [(last.stepId, d)];
        OneMoreDependent(before, last.stepId, d, dep);
        StepSpotsSnoc(steps, n, dep, DependentsOf(before, dep), spots);
        assert DependentsOf(all, dep) == DependentsOf(before, dep) + [last.stepId];
        spots := spots + [Spot(|steps| - 1, n - 1)];
      } else {
        if d in ids { OneMoreDependent(before, last.stepId, d, dep); } else { assert all == before; }
        assert DependentsOf(all, dep) == DependentsOf(before, dep);
        StepSpotsSame(steps, n, dep, DependentsOf(before, dep), spots);
      }
    }
  }

  lemma OneMoreDependent(edges: seq<Edge>, id: string, d: string, dep: string)
    ensures DependentsOf(edges + [(id, d)], dep) == DependentsOf(edges, dep) + if d == dep then [id] else []
  {
    assert (edges + [(id, d)])[..|edges|] == edges;
  }

  lemma StepSpotsSame(steps: seq<PlanStep>, n: nat, dep: string, ids: seq<string>, spots: seq<Spot>)
    requires steps != [] && 0 < n <= |steps[|steps| - 1].dependsOn| && steps[|steps| - 1].dependsOn[n - 1] != dep
    requires StepNamedAt(steps, n - 1, dep, ids, spots)
    ensures StepNamedAt(steps, n, dep, ids, spots)
  {
  }

  lemma StepSpotsSnoc(steps: seq<PlanStep>, n: nat, dep: string, ids: seq<string>, spots: seq<Spot>)
    requires steps != [] && 0 < n <= |steps[|steps| - 1].dependsOn| && steps[|steps| - 1].dependsOn[n - 1] == dep
    requires StepNamedAt(steps, n - 1, dep, ids, spots)
    ensures StepNamedAt(steps, n, dep, ids + [steps[|steps| - 1].stepId], spots + [Spot(|steps| - 1, n - 1)])
  {
    var s := Spot(|steps| - 1, n - 1);
    forall x, y | x in spots && y in [s] ensures SpotLess(x, y) {}
    IncreasingConcat(SpotLess, spots, [s]);
  }

  lemma NamedMore(front: seq<PlanStep>, last: PlanStep, dep: string, ids: seq<string>, spots: seq<Spot>, more: seq<string>, at: seq<Spot>)
    requires NamedAt(front, dep, ids, spots) && StepNamedAt(front + [last], |last.dependsOn|, dep, more, at)
    ensures NamedAt(front + [last], dep, ids + more, spots + at)
  {
    forall x, y | x in spots && y in at ensures SpotLess(x, y) {
      var q :| 0 <= q < |spots| && spots[q] == x;
      assert NamesAt(front, ids[q], dep, spots[q]);
    }
    IncreasingConcat(SpotLess, spots, at);
    var steps := front + [last];
    forall q | 0 <= q < |ids + more| ensures NamesAt(steps, (ids + more)[q], dep, (spots + at)[q]) {
      if q < |ids| { assert NamesAt(front, ids[q], dep, spots[q]); }
    }
    forall id, s | NamesAt(steps, id, dep, s) ensures s in spots + at {
      if s.step < |front| { assert NamesAt(front, id, dep, s); }
    }
  }

  /** The dependents of an id stand where the plan names it, in plan order. */
  lemma {:induction false} DependentSpots(steps: seq<PlanStep>, ids: set<string>, dep: string) returns (spots: seq<Spot>)
    requires dep in ids
    ensures NamedAt(steps, dep, DependentsOf(EdgesOf(steps, ids), dep), spots)
    decreases |steps|
  {
    if steps == [] {
      spots := [];
    } else {
      var n := |steps| - 1;
      var front, last := steps[..n], steps[n];
      assert steps == front + [last];
      var before := DependentSpots(front, ids, dep);
      var more := StepSpots(steps, ids, |last.dependsOn|, dep);
      assert last.dependsOn[..|last.dependsOn|] == last.dependsOn;
      DependentsConcat(EdgesOf(front, ids), EdgesOfStep(last.stepId, last.dependsOn, ids), dep);
      NamedMore(front, last, dep, DependentsOf(EdgesOf(front, ids), dep), before,
                DependentsOf(EdgesOfStep(last.stepId, last.dependsOn, ids), dep), more);
      spots := before + more;
    }
  }

  // ---------------------------------------------------------------- when a step is released

  /** The place in its group of the dependency that releases a step, and the place among that one's dependents. */
  datatype Stamp = Stamp(place: nat, edge: nat)

  predicate StampLess(a: Stamp, b: Stamp) {
    a.place < b.place || (a.place == b.place && a.edge < b.edge)
  }

  /** The id stands last at place `q` among the dependents, and waits for nothing after `done`. */
  ghost predicate ReleasedAt(edges: seq<Edge>, done: set<string>, dependents: seq<string>, id: string, q: nat) {
    && q < |dependents| && dependents[q] == id && id !in dependents[q + 1..] && Pending(edges, id, done) == 0
  }

  /** The ids are released at these places, in order. */
  ghost predicate AllReleasedAt(edges: seq<Edge>, done: set<string>, dependents: seq<string>, ids: seq<string>, places: seq<nat>, j: nat) {
    && |places| == |ids| && Ascending(places) && (forall q :: q in places ==> q < j)
    && forall u :: 0 <= u < |places| ==> ReleasedAt(edges, done, dependents, ids[u], places[u])
  }

  lemma ReleasedSnoc(edges: seq<Edge>, done: set<string>, dependents: seq<string>, ids: seq<string>, places: seq<nat>, j: nat)
    requires AllReleasedAt(edges, done, dependents, ids, places, j) && j < |dependents|
    requires ReleasedAt(edges, done, dependents, dependents[j], j)
    ensures AllReleasedAt(edges, done, dependents, ids + [dependents[j]], places + [j], j + 1)
  {
    AscendingSnoc(places, j);
  }

  lemma ReleasedStep(edges: seq<Edge>, done: set<string>, dependents: seq<string>, j: nat)
    requires j < |dependents|
    ensures Released(edges, done, dependents, j + 1) ==
      Released(edges, done, dependents, j)
      + if ReleasedAt(edges, done, dependents, dependents[j], j) then [dependents[j]] else []
  {
  }

  lemma {:induction false} ReleasedPlaces(edges: seq<Edge>, done: set<string>, dependents: seq<string>, j: nat) returns (places: seq<nat>)
    requires j <= |dependents|
    ensures AllReleasedAt(edges, done, dependents, Released(edges, done, dependents, j), places, j)
    decreases j
  {
    if j == 0 {
      places := [];
    } else {
      places := ReleasedPlaces(edges, done, dependents, j - 1);
      ReleasedStep(edges, done, dependents, j - 1);
      if ReleasedAt(edges, done, dependents, dependents[j - 1], j - 1) {
        ReleasedSnoc(edges, done, dependents, Released(edges, done, dependents, j - 1), places, j - 1);
        places := places + [j - 1];
      }
    }
  }

  ghost predicate StampedAt(edges: seq<Edge>, done: set<string>, group: seq<string>, id: string, s: Stamp) {
    && s.place < |group|
    && ReleasedAt(edges, done + Elements(group[..s.place + 1]), DependentsOf(edges, group[s.place]), id, s.edge)
  }

  ghost predicate Stamped(edges: seq<Edge>, done: set<string>, group: seq<string>, i: nat, ids: seq<string>, stamps: seq<Stamp>) {
    && |stamps| == |ids| && Increasing(StampLess, stamps)
    && (forall u :: 0 <= u < |ids| ==> StampedAt(edges, done, group, ids[u], stamps[u]) && stamps[u].place < i)
  }

  function StampsOf(place: nat, edges: seq<nat>): (r: seq<Stamp>)
    ensures |r| == |edges| && forall u :: 0 <= u < |r| ==> r[u] == Stamp(place, edges[u])
  {
    seq(|edges|, u requires 0 <= u < |edges| => Stamp(place, edges[u]))
  }

  lemma StampMore(edges: seq<Edge>, done: set<string>, group: seq<string>, i: nat, ids: seq<string>, stamps: seq<Stamp>,
                  more: seq<string>, places: seq<nat>)
    requires i < |group| && Stamped(edges, done, group, i, ids, stamps) && |places| == |more| && Ascending(places)
    requires forall u :: 0 <= u < |more| ==>
      ReleasedAt(edges, done + Elements(group[..i + 1]), DependentsOf(edges, group[i]), more[u], places[u])
    ensures Stamped(edges, done, group, i + 1, ids + more, stamps + StampsOf(i, places))
  {
    var last := StampsOf(i, places);
    forall x, y | x in stamps && y in last ensures StampLess(x, y) {
      var u :| 0 <= u < |stamps| && stamps[u] == x;
      assert StampedAt(edges, done, group, ids[u], stamps[u]);
    }
    IncreasingConcat(StampLess, stamps, last);
    forall u | 0 <= u < |ids + more|
      ensures StampedAt(edges, done, group, (ids + more)[u], (stamps + last)[u]) && (stamps + last)[u].place < i + 1
    {
      if u < |ids| { assert StampedAt(edges, done, group, ids[u], stamps[u]); }
    }
  }

  lemma {:induction false} NextStamps(edges: seq<Edge>, done: set<string>, group: seq<string>, i: nat) returns (stamps: seq<Stamp>)
    requires i <= |group|
    ensures Stamped(edges, done, group, i, NextIds(edges, done, group, i), stamps)
    decreases i
  {
    if i == 0 {
      stamps := [];
    } else {
      stamps := NextStamps(edges, done, group, i - 1);
      var dependents := DependentsOf(edges, group[i - 1]);
      var places := ReleasedPlaces(edges, done + Elements(group[..i]), dependents, |dependents|);
      StampMore(edges, done, group, i - 1, NextIds(edges, done, group, i - 1), stamps,
                Released(edges, done + Elements(group[..i]), dependents, |dependents|), places);
      stamps := stamps + StampsOf(i - 1, places);
    }
  }

  // ---------------------------------------------------------------- every later group

  /**
   Of the group's steps, the one at `place` is the last that the id depends on, and the id
   names it for the last time at this spot of the plan.
   */
  ghost predicate WaitsFor(steps: seq<PlanStep>, group: seq<string>, id: string, place: nat, s: Spot) {
    && place < |group| && NamesAt(steps, id, group[place], s)
    && (forall t :: NamesAt(steps, id, group[place], t) && t != s ==> SpotLess(t, s))
    && (forall later, t :: place < later < |group| ==> !NamesAt(steps, id, group[later], t))
  }

  lemma WaitsForOne(steps: seq<PlanStep>, group: seq<string>, id: string, p: nat, s: Spot, p': nat, s': Spot)
    requires WaitsFor(steps, group, id, p, s) && WaitsFor(steps, group, id, p', s')
    ensures p == p' && s == s'
  {
  }

  lemma NamesIsEdge(steps: seq<PlanStep>, id: string, dep: string, s: Spot)
    requires NamesAt(steps, id, dep, s) && dep in Ids(steps)
    ensures (id, dep) in EdgesOf(steps, Ids(steps))
  {
    EdgesOfMembers(steps, Ids(steps), (id, dep));
  }

  lemma NoneLater(steps: seq<PlanStep>, done: set<string>, group: seq<string>, id: string, place: nat, later: nat, t: Spot)
    requires place < later < |group| && Distinct(group) && Elements(group) !! done && Elements(group) <= Ids(steps)
    requires Pending(EdgesOf(steps, Ids(steps)), id, done + Elements(group[..place + 1])) == 0
    ensures !NamesAt(steps, id, group[later], t)
  {
    var edges, dep := EdgesOf(steps, Ids(steps)), group[later];
    assert dep in Elements(group);
    PendingZero(edges, id, done + Elements(group[..place + 1]));
    assert (id, dep).1 !in done + Elements(group[..place + 1]);
    if NamesAt(steps, id, dep, t) { NamesIsEdge(steps, id, dep, t); }
  }

  /** The last of the dependents' spots with this id is the last spot where the id names the dependency. */
  lemma LastSpot(steps: seq<PlanStep>, dep: string, ids: seq<string>, spots: seq<Spot>, id: string, q: nat)
    requires NamedAt(steps, dep, ids, spots) && q < |ids| && ids[q] == id && id !in ids[q + 1..]
    ensures NamesAt(steps, id, dep, spots[q])
    ensures forall t :: NamesAt(steps, id, dep, t) && t != spots[q] ==> SpotLess(t, spots[q])
  {
    forall r | q < r < |ids| ensures ids[r] != id { assert ids[r] == ids[q + 1..][r - q - 1]; }
    forall t | NamesAt(steps, id, dep, t) && t != spots[q] ensures SpotLess(t, spots[q]) {
      var r :| 0 <= r < |spots| && spots[r] == t;
      assert NamesAt(steps, ids[r], dep, spots[r]);
    }
  }

  lemma StampWaits(steps: seq<PlanStep>, done: set<string>, group: seq<string>, id: string, s: Stamp, spots: seq<Spot>)
    requires Distinct(group) && Elements(group) !! done && Elements(group) <= Ids(steps)
    requires StampedAt(EdgesOf(steps, Ids(steps)), done, group, id, s)
    requires NamedAt(steps, group[s.place], DependentsOf(EdgesOf(steps, Ids(steps)), group[s.place]), spots)
    ensures s.edge < |spots| && WaitsFor(steps, group, id, s.place, spots[s.edge])
  {
    LastSpot(steps, group[s.place], DependentsOf(EdgesOf(steps, Ids(steps)), group[s.place]), spots, id, s.edge);
    forall later, t | s.place < later < |group| ensures !NamesAt(steps, id, group[later], t) {
      NoneLater(steps, done, group, id, s.place, later, t);
    }
  }

  lemma GroupIsElements(steps: seq<PlanStep>, k: nat)
    ensures var (group, done) := LevelIds(steps, k);
      Distinct(group) && Elements(group) !! done && Elements(group) <= Ids(steps)
  {
    LevelIdsAreLevels(steps, k);
    DeepNodesShrink(DependencyGraph(steps), k);
  }

  /** Every step of a later group waits for one dependency last. */
  lemma WaitsForSome(steps: seq<PlanStep>, groups: seq<seq<PlanStep>>, k: nat, u: nat) returns (place: nat, s: Spot)
    requires IsLevelling(steps, groups) && k + 1 < |groups| && u < |groups[k + 1]|
    ensures WaitsFor(steps, GroupIds(groups[k]), groups[k + 1][u].stepId, place, s)
  {
    var (group, done) := LevelIds(steps, k);
    assert GroupAt(steps, k, groups[k]) && GroupAt(steps, k + 1, groups[k + 1]);
    GroupIsElements(steps, k);
    var stamps := NextStamps(EdgesOf(steps, Ids(steps)), done, group, |group|);
    var id := GroupIds(groups[k + 1])[u];
    assert StampedAt(EdgesOf(steps, Ids(steps)), done, group, id, stamps[u]);
    place := stamps[u].place;
    assert group[place] in Elements(group);
    var spots := DependentSpots(steps, Ids(steps), group[place]);
    StampWaits(steps, done, group, id, stamps[u], spots);
    s := spots[stamps[u].edge];
  }

  /**
   In a later group a step stands before another exactly when the dependency it waits for last
   stands earlier in the group before, or is the same and is named for the last time earlier.
   */
  lemma LaterGroupOrder(steps: seq<PlanStep>, groups: seq<seq<PlanStep>>, k: nat, u: nat, v: nat, p: nat, s: Spot, p': nat, s': Spot)
    requires IsLevelling(steps, groups) && k + 1 < |groups| && u < |groups[k + 1]| && v < |groups[k + 1]|
    requires WaitsFor(steps, GroupIds(groups[k]), groups[k + 1][u].stepId, p, s)
    requires WaitsFor(steps, GroupIds(groups[k]), groups[k + 1][v].stepId, p', s')
    ensures u < v <==> p < p' || (p == p' && SpotLess(s, s'))
  {
    var (group, done) := LevelIds(steps, k);
    var edges := EdgesOf(steps, Ids(steps));
    assert GroupAt(steps, k, groups[k]) && GroupAt(steps, k + 1, groups[k + 1]);
    GroupIsElements(steps, k);
    var stamps := NextStamps(edges, done, group, |group|);
    var x, y := GroupIds(groups[k + 1])[u], GroupIds(groups[k + 1])[v];
    StampIsWait(steps, done, group, x, stamps[u], p, s);
    StampIsWait(steps, done, group, y, stamps[v], p', s');
    if u < v { assert StampLess(stamps[u], stamps[v]); }
    if v < u { assert StampLess(stamps[v], stamps[u]); }
    SameOrder(steps, group, p, x, stamps[u], s, y, stamps[v], s', p');
  }

  /** What a stamp says of the spot, for any list of the dependents' spots. */
  ghost predicate AtSpot(steps: seq<PlanStep>, dep: string, edge: nat, s: Spot) {
    forall spots :: NamedAt(steps, dep, DependentsOf(EdgesOf(steps, Ids(steps)), dep), spots) ==> edge < |spots| && spots[edge] == s
  }

  lemma StampIsWait(steps: seq<PlanStep>, done: set<string>, group: seq<string>, id: string, stamp: Stamp, p: nat, s: Spot)
    requires Distinct(group) && Elements(group) !! done && Elements(group) <= Ids(steps)
    requires StampedAt(EdgesOf(steps, Ids(steps)), done, group, id, stamp) && WaitsFor(steps, group, id, p, s)
    ensures stamp.place == p && AtSpot(steps, group[p], stamp.edge, s)
  {
    assert group[stamp.place] in Elements(group);
    var some := DependentSpots(steps, Ids(steps), group[stamp.place]);
    StampWaits(steps, done, group, id, stamp, some);
    WaitsForOne(steps, group, id, stamp.place, some[stamp.edge], p, s);
    forall spots | NamedAt(steps, group[p], DependentsOf(EdgesOf(steps, Ids(steps)), group[p]), spots)
      ensures stamp.edge < |spots| && spots[stamp.edge] == s
    {
      StampWaits(steps, done, group, id, stamp, spots);
      WaitsForOne(steps, group, id, stamp.place, spots[stamp.edge], p, s);
    }
  }

  lemma SameOrder(steps: seq<PlanStep>, group: seq<string>, p: nat, x: string, a: Stamp, s: Spot, y: string, b: Stamp, s': Spot, p': nat)
    requires p < |group| && p' < |group| && Elements(group) <= Ids(steps)
    requires a.place == p && b.place == p' && AtSpot(steps, group[p], a.edge, s) && AtSpot(steps, group[p'], b.edge, s')
    ensures StampLess(a, b) <==> p < p' || (p == p' && SpotLess(s, s'))
    ensures StampLess(b, a) <==> p' < p || (p == p' && SpotLess(s', s))
  {
    if p == p' {
      assert group[p] in Elements(group);
      var spots := DependentSpots(steps, Ids(steps), group[p]);
      assert spots[a.edge] == s && spots[b.edge] == s';
    }
  }
}
