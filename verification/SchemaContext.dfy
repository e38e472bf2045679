/**
 Ranked retrieval of schema tables: score, sort, select the best, expand along joins.
 */
module SchemaContext {
  import opened Sequences
  import opened Sorting
  import opened Wrappers
  import opened Ordering

  /** A table of the metadata: its curated priority and the targets of its relationships. */
  datatype Table = Table(priority: string, targets: seq<Option<string>>)

  datatype SeedTable = SeedTable(priority: string, commonJoins: seq<string>)

  /** The tables and the curated seed by id. */
  datatype Catalog = Catalog(tables: map<string, Table>, seeds: map<string, SeedTable>)

  /** `order` lists every table once, as the metadata does. */
  ghost predicate Lists(order: seq<string>, c: Catalog) {
    Distinct(order) && forall id :: id in order <==> id in c.tables
  }

  type Score = string -> nat

  // ---------------------------------------------------------------- the sort key

  datatype Rank = Rank(score: nat, primary: bool, density: nat)

  type Ranking = string -> Rank

  function Joins(c: Catalog, id: string): seq<string> {
    if id in c.seeds then c.seeds[id].commonJoins else []
  }

  function Targets(c: Catalog, id: string): seq<Option<string>> {
    if id in c.tables then c.tables[id].targets else []
  }

  function RankOf(c: Catalog, id: string, score: nat): Rank {
    var seeded := if id in c.seeds then c.seeds[id].priority else "";
    var priority := if seeded != "" then seeded else if id in c.tables then c.tables[id].priority else "";
    Rank(score, priority == "primary", |Targets(c, id)| + |Joins(c, id)|)
  }

  function ByScore(c: Catalog, score: Score): Ranking {
    (id: string) => RankOf(c, id, score(id))
  }

  /** Every table reached by a join competes with the same score. */
  function ByJoin(c: Catalog): Ranking {
    (id: string) => RankOf(c, id, 10)
  }

  predicate Better(x: Rank, y: Rank) {
    x.score > y.score
    || (x.score == y.score && ((x.primary && !y.primary) || (x.primary == y.primary && x.density > y.density)))
  }

  /** The sort order: higher score, then primary, then denser, then by id. */
  predicate Before(rank: Ranking, x: string, y: string) {
    Better(rank(x), rank(y)) || (rank(x) == rank(y) && Less(x, y))
  }

  lemma BeforeTotal(rank: Ranking, x: string, y: string)
    ensures x == y || Before(rank, x, y) || Before(rank, y, x)
    ensures !(Before(rank, x, y) && Before(rank, y, x)) && !Before(rank, x, x)
  {
    LessTotal(x, y);
    LessTotal(x, x);
  }

  lemma BeforeTransitive(rank: Ranking, x: string, y: string, z: string)
    requires Before(rank, x, y) && Before(rank, y, z)
    ensures Before(rank, x, z)
  {
    if Less(x, y) && Less(y, z) { LessTransitive(x, y, z); }
  }

  // ---------------------------------------------------------------- sorting

  function ByRank(rank: Ranking): Comparison<string> {
    (x: string, y: string) => Before(rank, x, y)
  }

  function SortIds(rank: Ranking, ids: seq<string>): seq<string> {
    Sort(ByRank(rank), ids)
  }

  // ---------------------------------------------------------------- retrieval

  datatype Clarification = Clarification(required: bool, reason: string, candidates: seq<string>)

  datatype Retrieval = Retrieval(selected: seq<string>, rejected: seq<string>,
                                 considered: seq<string>, clarification: Clarification)

  function TopScore(scored: seq<string>, score: Score): nat {
    if scored == [] then 0 else score(scored[0])
  }

  /** The ids that share the top score, when it reaches the threshold. */
  function TopTied(scored: seq<string>, score: Score, top: nat, min: int): seq<string> {
    if scored == [] then []
    else
      var last := |scored| - 1;
      TopTied(scored[..last], score, top, min) + if score(scored[last]) == top && top >= min then [scored[last]] else []
  }

  function ClarificationState(top: nat, tied: seq<string>, min: int): Clarification {
    if top < min then Clarification(true, "weak_schema_match", tied)
    else if |tied| > 1 then Clarification(true, "ambiguous_schema_match", tied)
    else Clarification(false, "", [])
  }

  /** The ids taken from the first `n`: those that reach the threshold, while there is room. */
  function Picked(scored: seq<string>, score: Score, min: int, limit: int, n: nat): seq<string>
    requires n <= |scored|
  {
    if n == 0 then []
    else
      var before := Picked(scored, score, min, limit, n - 1);
      if score(scored[n - 1]) < min || |before| >= limit then before else before + [scored[n - 1]]
  }

  /** The tables are directly joined: by a curated join of `x`, or by a relationship of either to the other. */
  predicate Joined(c: Catalog, x: string, y: string) {
    y in Joins(c, x) || (y != "" && Some(y) in Targets(c, x)) || Some(x) in Targets(c, y)
  }

  /** The tables joined to a selected one, and not selected themselves. */
  function Candidates(c: Catalog, selected: seq<string>): set<string> {
    set y | y in c.tables && y !in selected && exists x :: x in selected && Joined(c, x, y)
  }

  /** How many items the slice `[:n]` takes of `length`; a negative bound counts from the end. */
  function SliceLength(n: int, length: nat): nat {
    if n >= 0 then (if n < length then n else length)
    else if length + n > 0 then length + n
    else 0
  }

  /** How many of `length` ranked joins are added to the `taken` tables. */
  function Added(length: nat, taken: nat, maxAdded: int, limit: int): (n: nat)
    ensures n <= length
  {
    var most := SliceLength(maxAdded, length);
    var room := limit - taken;
    if room <= 0 then 0 else if room < most then room else most
  }

  function Extended(selected: seq<string>, ranked: seq<string>, maxAdded: int, limit: int): seq<string> {
    selected + ranked[..Added(|ranked|, |selected|, maxAdded, limit)]
  }

  function Expanded(c: Catalog, selected: seq<string>, maxAdded: int, limit: int): seq<string> {
    Extended(selected, SortIds(ByJoin(c), Sorted(Candidates(c, selected))), maxAdded, limit)
  }

  function Without(scored: seq<string>, selected: seq<string>): seq<string> {
    if scored == [] then []
    else
      var last := |scored| - 1;
      Without(scored[..last], selected) + if scored[last] in selected then [] else [scored[last]]
  }

  function Selection(c: Catalog, scored: seq<string>, score: Score, required: bool, limit: int, maxAdded: int, min: int)
    : seq<string>
  {
    if required then [] else Expanded(c, Picked(scored, score, min, limit, |scored|), maxAdded, limit)
  }

  function RetrievedFrom(c: Catalog, scored: seq<string>, score: Score, limit: int, maxAdded: int, min: int): Retrieval {
    var top := TopScore(scored, score);
    var clarification := ClarificationState(top, TopTied(scored, score, top, min), min);
    var selected := Selection(c, scored, score, clarification.required, limit, maxAdded, min);
    Retrieval(selected, Without(scored, selected), scored, clarification)
  }

  /** The retrieval as a function of the artifacts and the scores. */
  function Retrieved(order: seq<string>, c: Catalog, score: Score, limit: int, maxAdded: int, min: int): Retrieval {
    RetrievedFrom(c, SortIds(ByScore(c, score), order), score, limit, maxAdded, min)
  }

  // ---------------------------------------------------------------- the loops

  method SelectBest(scored: seq<string>, score: Score, min: int, limit: int) returns (selected: seq<string>)
    ensures selected == Picked(scored, score, min, limit, |scored|)
  {
    selected := [];
    for i := 0 to |scored|
      invariant selected == Picked(scored, score, min, limit, i)
    {
      if score(scored[i]) < min || |selected| >= limit { continue; }
      selected := selected + [scored[i]];
    }
  }

  method Extend(selected0: seq<string>, ranked: seq<string>, maxAdded: int, limit: int) returns (selected: seq<string>)
    ensures selected == Extended(selected0, ranked, maxAdded, limit)
  {
    var most := SliceLength(maxAdded, |ranked|);
    selected := selected0;
    var i := 0;
    while i < most
      invariant 0 <= i <= most <= |ranked|
      invariant selected == selected0 + ranked[..i]
      invariant i == 0 || |selected| <= limit
    {
      if |selected| >= limit { break; }
      selected := selected + [ranked[i]];
      i := i + 1;
    }
    assert i == Added(|ranked|, |selected0|, maxAdded, limit);
  }

  method ExpandRelationships(c: Catalog, selected0: seq<string>, maxAdded: int, limit: int) returns (selected: seq<string>)
    ensures selected == Expanded(c, selected0, maxAdded, limit)
  {
    var ranked := SortIds(ByJoin(c), Sorted(Candidates(c, selected0)));
    selected := Extend(selected0, ranked, maxAdded, limit);
  }

  method BuildCompactSchemaContext(order: seq<string>, c: Catalog, score: Score, limit: int, maxAdded: int, min: int)
    returns (r: Retrieval)
    ensures r == Retrieved(order, c, score, limit, maxAdded, min)
  {
    var scored := SortIds(ByScore(c, score), order);
    var top := TopScore(scored, score);
    var clarification := ClarificationState(top, TopTied(scored, score, top, min), min);
    var selected := [];
    if !clarification.required {
      selected := SelectBest(scored, score, min, limit);
      selected := ExpandRelationships(c, selected, maxAdded, limit);
    }
    r := Retrieval(selected, Without(scored, selected), scored, clarification);
  }
}
