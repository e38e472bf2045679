/**
 What schema retrieval returns, on the metadata and the curated seed: the order of tables, the
 lists in that order, how many joins are added, and why a clarification is asked.
 */
module SchemaContextReport {
  import opened Ordering
  import opened SchemaContext
  import opened SchemaContextLaws

  // ---------------------------------------------------------------- the order of tables

  /** The curated priority counts, and the metadata's own where none is curated. */
  predicate IsPrimary(c: Catalog, id: string) {
    if id in c.seeds && c.seeds[id].priority != "" then c.seeds[id].priority == "primary"
    else id in c.tables && c.tables[id].priority == "primary"
  }

  /** Relationships in the metadata and curated joins. */
  function Density(c: Catalog, id: string): nat {
    (if id in c.tables then |c.tables[id].targets| else 0) + (if id in c.seeds then |c.seeds[id].commonJoins| else 0)
  }

  /** At equal scores: primary tables first, then the more connected, then by id. */
  predicate StandsFirst(c: Catalog, x: string, y: string) {
    if IsPrimary(c, x) != IsPrimary(c, y) then IsPrimary(c, x)
    else if Density(c, x) != Density(c, y) then Density(c, x) > Density(c, y)
    else Less(x, y)
  }

  /** Tables rank by score and then by this order; joins, which all score the same, by this order alone. */
  lemma RankMeaning(c: Catalog, score: Score, x: string, y: string)
    ensures Before(ByScore(c, score), x, y) <==> score(x) > score(y) || (score(x) == score(y) && StandsFirst(c, x, y))
    ensures Before(ByJoin(c), x, y) <==> StandsFirst(c, x, y)
  {
  }

  /** A join is curated, or a relationship of one table to the other. */
  lemma JoinedIff(c: Catalog, x: string, y: string)
    ensures Joined(c, x, y) <==>
      || (x in c.seeds && y in c.seeds[x].commonJoins)
      || (x in c.tables && y != "" && exists i :: 0 <= i < |c.tables[x].targets| && c.tables[x].targets[i].Some? && c.tables[x].targets[i].value == y)
      || (y in c.tables && exists i :: 0 <= i < |c.tables[y].targets| && c.tables[y].targets[i].Some? && c.tables[y].targets[i].value == x)
  {
    forall t ensures t in Targets(c, x) <==> exists i :: 0 <= i < |Targets(c, x)| && Targets(c, x)[i] == t {}
  }

  // ---------------------------------------------------------------- the lists

  lemma {:induction false} WithoutAscends(rank: Ranking, scored: seq<string>, selected: seq<string>)
    requires InRankOrder(rank, scored)
    ensures InRankOrder(rank, Without(scored, selected))
    decreases |scored|
  {
    if scored == [] {
    } else {
      var last := |scored| - 1;
      WithoutAscends(rank, scored[..last], selected);
      forall x | x in Without(scored[..last], selected) ensures Before(rank, x, scored[last]) {
        WithoutMembers(scored[..last], selected, x);
        var i :| 0 <= i < last && scored[i] == x;
      }
    }
  }

  lemma {:induction false} TiedAscends(rank: Ranking, scored: seq<string>, score: Score, top: nat, min: int)
    requires InRankOrder(rank, scored)
    ensures InRankOrder(rank, TopTied(scored, score, top, min))
    decreases |scored|
  {
    if scored == [] {
    } else {
      var last := |scored| - 1;
      TiedAscends(rank, scored[..last], score, top, min);
      forall x | x in TopTied(scored[..last], score, top, min) ensures Before(rank, x, scored[last]) {
        TopTiedMembers(scored[..last], score, top, min, x);
        var i :| 0 <= i < last && scored[i] == x;
      }
    }
  }

  /** All tables are considered, and those not selected are rejected, both in rank order. */
  lemma ListsMeaning(order: seq<string>, c: Catalog, score: Score, limit: int, maxAdded: int, min: int)
    requires Lists(order, c)
    ensures var r := Retrieved(order, c, score, limit, maxAdded, min);
      && InRankOrder(ByScore(c, score), r.considered) && (forall id :: id in r.considered <==> id in c.tables)
      && InRankOrder(ByScore(c, score), r.rejected) && (forall id :: id in r.rejected <==> id in c.tables && id !in r.selected)
  {
    var scored := Ranked(order, c, score);
    var r := Retrieved(order, c, score, limit, maxAdded, min);
    WithoutAscends(ByScore(c, score), scored, r.selected);
    forall id ensures id in r.rejected <==> id in c.tables && id !in r.selected { WithoutMembers(scored, r.selected, id); }
  }

  /** How many joins are added: what the slice `[:maxAdded]` leaves of them, as far as there is room. */
  function JoinsAdded(joins: nat, chosen: nat, maxAdded: int, limit: int): int {
    var sliced := if maxAdded < 0 then joins + maxAdded else if maxAdded < joins then maxAdded else joins;
    var room := limit - chosen;
    if sliced <= 0 || room <= 0 then 0 else if room < sliced then room else sliced
  }

  /** The selection in its order: the best tables and then their best joins, each part in rank order, and how many. */
  lemma SelectionInOrder(order: seq<string>, c: Catalog, score: Score, limit: int, maxAdded: int, min: int)
    returns (chosen: seq<string>, extra: seq<string>)
    requires Lists(order, c) && !Retrieved(order, c, score, limit, maxAdded, min).clarification.required
    ensures Retrieved(order, c, score, limit, maxAdded, min).selected == chosen + extra
    ensures BestScoring(c, score, min, limit, chosen) && (chosen == [] || |chosen| <= limit)
    ensures BestJoined(c, chosen, extra) && |extra| == JoinsAdded(|Candidates(c, chosen)|, |chosen|, maxAdded, limit)
    ensures InRankOrder(ByScore(c, score), chosen) && InRankOrder(ByJoin(c), extra)
  {
    var scored := Ranked(order, c, score);
    var k, j := SelectionStructure(c, scored, score, limit, maxAdded, min);
    chosen := scored[..k];
    var ranked := SortIds(ByJoin(c), Sorted(Candidates(c, chosen)));
    extra := ranked[..j];
    RankedJoins(c, chosen);
    RankedCount(c, chosen);
    AddedIsJoinsAdded(|ranked|, |chosen|, maxAdded, limit);
    PrefixInOrder(ByScore(c, score), scored, k);
    PrefixInOrder(ByJoin(c), ranked, j);
    PrefixIsBest(c, score, scored, min, limit, k);
    JoinsAreBest(c, chosen, ranked, j);
  }

  lemma AddedIsJoinsAdded(joins: nat, chosen: nat, maxAdded: int, limit: int)
    ensures Added(joins, chosen, maxAdded, limit) == JoinsAdded(joins, chosen, maxAdded, limit)
  {
  }

  lemma PrefixInOrder(rank: Ranking, ids: seq<string>, n: nat)
    requires InRankOrder(rank, ids) && n <= |ids|
    ensures InRankOrder(rank, ids[..n])
  {
  }

  lemma RankedCount(c: Catalog, chosen: seq<string>)
    ensures |SortIds(ByJoin(c), Sorted(Candidates(c, chosen)))| == |Candidates(c, chosen)|
  {
    SortedIsDistinct(Candidates(c, chosen));
    SortIdsMeaning(ByJoin(c), Sorted(Candidates(c, chosen)));
  }

  // ---------------------------------------------------------------- the clarification

  /** No table scores higher. */
  ghost predicate ScoresBest(c: Catalog, score: Score, id: string) {
    id in c.tables && forall other :: other in c.tables ==> score(other) <= score(id)
  }

  lemma TiedAreBest(c: Catalog, score: Score, scored: seq<string>, min: int)
    requires ScoresFall(scored, score) && InRankOrder(ByScore(c, score), scored) && forall id :: id in scored <==> id in c.tables
    ensures var tied := TopTied(scored, score, TopScore(scored, score), min);
      && InRankOrder(ByScore(c, score), tied)
      && (forall id :: id in tied <==> ScoresBest(c, score, id) && score(id) >= min)
  {
    var top := TopScore(scored, score);
    TiedAscends(ByScore(c, score), scored, score, top, min);
    forall id ensures id in TopTied(scored, score, top, min) <==> ScoresBest(c, score, id) && score(id) >= min {
      TopTiedMembers(scored, score, top, min, id);
      if scored != [] {
        TopIsBest(scored, score);
        assert scored[0] in scored;
      }
    }
  }

  /**
   A weak match is reported, without candidates, when no table reaches a threshold above zero or
   the best score is below it; an ambiguous one when several reach it with the best score, and these
   are the candidates, in rank order; otherwise there is nothing to clarify.
   */
  lemma ClarificationMeaning(order: seq<string>, c: Catalog, score: Score, limit: int, maxAdded: int, min: int)
    requires Lists(order, c)
    ensures var q := Retrieved(order, c, score, limit, maxAdded, min).clarification;
      var weak := min > 0 && forall id :: id in c.tables ==> score(id) < min;
      && (q.required <==> q.reason != "")
      && (q.reason == "weak_schema_match" <==> weak)
      && (q.reason != "" && !weak ==> q.reason == "ambiguous_schema_match")
      && (q.reason == "ambiguous_schema_match" <==> |q.candidates| > 1)
      && (q.reason != "ambiguous_schema_match" ==> q.candidates == [])
      && (q.reason == "ambiguous_schema_match" ==>
           && InRankOrder(ByScore(c, score), q.candidates)
           && forall id :: id in q.candidates <==> ScoresBest(c, score, id) && score(id) >= min)
  {
    var scored := Ranked(order, c, score);
    var top := TopScore(scored, score);
    var tied := TopTied(scored, score, top, min);
    TiedAreBest(c, score, scored, min);
    if scored == [] {
      assert forall id :: id !in c.tables;
    } else {
      TopIsBest(scored, score);
      assert scored[0] in scored;
    }
    assert tied != [] ==> tied[0] in tied;
  }
}
