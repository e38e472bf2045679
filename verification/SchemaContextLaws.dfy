/**
 What schema retrieval selects and rejects, and that the metadata's table order does not matter.
 */
module SchemaContextLaws {
  import opened Sequences
  import opened Sorting
  import opened Ordering
  import opened SchemaContext

  // ---------------------------------------------------------------- sorting by rank

  ghost predicate InRankOrder(rank: Ranking, ids: seq<string>) {
    forall i, j :: 0 <= i < j < |ids| ==> Before(rank, ids[i], ids[j])
  }

  ghost predicate SameIds(a: seq<string>, b: seq<string>) {
    forall id :: id in a <==> id in b
  }

  lemma DistinctInit(ids: seq<string>)
    requires Distinct(ids) && ids != []
    ensures Distinct(ids[..|ids| - 1]) && ids[|ids| - 1] !in ids[..|ids| - 1]
  {
  }

  lemma BeforeIsOrder(rank: Ranking)
    ensures IsOrder(ByRank(rank))
  {
    var less := ByRank(rank);
    forall a, b | less(a, b) ensures !less(b, a) { BeforeTotal(rank, a, b); }
    forall a, b, c {:trigger less(b, a), less(c, b)} | !less(b, a) && !less(c, b) ensures !less(c, a) {
      BeforeTotal(rank, a, b);
      BeforeTotal(rank, b, c);
      BeforeTotal(rank, c, a);
      if less(c, a) && a != b { BeforeTransitive(rank, c, a, b); }
    }
  }

  lemma InOrderIsAscending(rank: Ranking, ids: seq<string>)
    requires InOrder(ByRank(rank), ids) && Distinct(ids)
    ensures InRankOrder(rank, ids)
  {
    forall i, j | 0 <= i < j < |ids| ensures Before(rank, ids[i], ids[j]) {
      assert !ByRank(rank)(ids[j], ids[i]);
      BeforeTotal(rank, ids[i], ids[j]);
    }
  }

  /** Sorting distinct ids gives the same ids in strictly ascending order. */
  lemma SortIdsMeaning(rank: Ranking, ids: seq<string>)
    requires Distinct(ids)
    ensures InRankOrder(rank, SortIds(rank, ids)) && SameIds(SortIds(rank, ids), ids) && |SortIds(rank, ids)| == |ids|
  {
    BeforeIsOrder(rank);
    SortMeaning(ByRank(rank), ids);
    SortMembers(ByRank(rank), ids);
    DistinctPermutation(ids, SortIds(rank, ids));
    InOrderIsAscending(rank, SortIds(rank, ids));
  }

  lemma AscendingDistinct(rank: Ranking, ids: seq<string>)
    requires InRankOrder(rank, ids)
    ensures Distinct(ids)
  {
    forall i, j | 0 <= i < j < |ids| ensures ids[i] != ids[j] { BeforeTotal(rank, ids[i], ids[j]); }
  }

  /** There is only one ascending order of the same ids. */
  lemma AscendingUnique(rank: Ranking, a: seq<string>, b: seq<string>)
    requires InRankOrder(rank, a) && InRankOrder(rank, b) && SameIds(a, b)
    ensures a == b
  {
    AscendingDistinct(rank, a);
    AscendingDistinct(rank, b);
    SameItems(a, b);
    BeforeIsOrder(rank);
    IncreasingUnique(ByRank(rank), a, b);
  }

  /** Sorting by a total key forgets the order the ids came in. */
  lemma SortForgetsOrder(rank: Ranking, a: seq<string>, b: seq<string>)
    requires Distinct(a) && Distinct(b) && SameIds(a, b)
    ensures SortIds(rank, a) == SortIds(rank, b)
  {
    SortIdsMeaning(rank, a);
    SortIdsMeaning(rank, b);
    AscendingUnique(rank, SortIds(rank, a), SortIds(rank, b));
  }

  /** The retrieval does not depend on the order in which the metadata lists the tables. */
  lemma OrderDoesNotMatter(a: seq<string>, b: seq<string>, c: Catalog, score: Score, limit: int, maxAdded: int, min: int)
    requires Lists(a, c) && Lists(b, c)
    ensures Retrieved(a, c, score, limit, maxAdded, min) == Retrieved(b, c, score, limit, maxAdded, min)
  {
    SortForgetsOrder(ByScore(c, score), a, b);
  }

  // ---------------------------------------------------------------- the selected prefix

  ghost predicate ScoresFall(scored: seq<string>, score: Score) {
    forall i, j :: 0 <= i < j < |scored| ==> score(scored[i]) >= score(scored[j])
  }

  lemma AscendingScoresFall(c: Catalog, score: Score, ids: seq<string>)
    requires InRankOrder(ByScore(c, score), ids)
    ensures ScoresFall(ids, score)
  {
    forall i, j | 0 <= i < j < |ids| ensures score(ids[i]) >= score(ids[j]) {
      assert Before(ByScore(c, score), ids[i], ids[j]);
    }
  }

  /** `k` is where picking stops: everything before reaches the threshold, and there is no room or no score after. */
  ghost predicate StopsAt(scored: seq<string>, score: Score, min: int, limit: int, k: nat) {
    && k <= |scored| && (k == 0 || k <= limit)
    && (forall i :: 0 <= i < k ==> score(scored[i]) >= min)
    && (k < |scored| && k < limit ==> score(scored[k]) < min)
  }

  lemma {:induction false} PickedPrefix(scored: seq<string>, score: Score, min: int, limit: int, n: nat) returns (k: nat)
    requires ScoresFall(scored, score) && n <= |scored|
    ensures k <= n && Picked(scored, score, min, limit, n) == scored[..k] && (k == 0 || k <= limit)
    ensures forall i :: 0 <= i < k ==> score(scored[i]) >= min
    ensures k < n && k < limit ==> score(scored[k]) < min
    decreases n
  {
    if n == 0 {
      k := 0;
    } else {
      k := PickedPrefix(scored, score, min, limit, n - 1);
      var taken := !(score(scored[n - 1]) < min || k >= limit);
      if k < n - 1 { assert score(scored[k]) >= score(scored[n - 1]); }
      if taken {
        assert scored[..n] == scored[..n - 1] + [scored[n - 1]];
        k := n;
      }
    }
  }

  // ---------------------------------------------------------------- the whole selection

  /**
   The selection is a prefix of the ranked tables followed by a prefix of the ranked joins
   of that prefix: `k` tables by score and `j` by join.
   */
  ghost predicate Structure(c: Catalog, scored: seq<string>, score: Score, limit: int, maxAdded: int, min: int,
                            selected: seq<string>, k: nat, j: nat)
    requires k <= |scored|
  {
    var ranked := SortIds(ByJoin(c), Sorted(Candidates(c, scored[..k])));
    && StopsAt(scored, score, min, limit, k)
    && j <= |ranked| && j == Added(|ranked|, k, maxAdded, limit)
    && selected == scored[..k] + ranked[..j]
  }

  lemma SelectionStructure(c: Catalog, scored: seq<string>, score: Score, limit: int, maxAdded: int, min: int)
    returns (k: nat, j: nat)
    requires ScoresFall(scored, score)
    ensures k <= |scored|
    ensures Structure(c, scored, score, limit, maxAdded, min, Selection(c, scored, score, false, limit, maxAdded, min), k, j)
  {
    k := PickedPrefix(scored, score, min, limit, |scored|);
    j := Added(|SortIds(ByJoin(c), Sorted(Candidates(c, scored[..k])))|, k, maxAdded, limit);
  }

  lemma SortedIsDistinct(s: set<string>)
    ensures Distinct(Sorted(s))
  {
    forall i, j | 0 <= i < j < |Sorted(s)| ensures Sorted(s)[i] != Sorted(s)[j] { SortedDistinct(s, i, j); }
  }

  /** The ranked joins: each once, in rank order, exactly the candidates. */
  lemma RankedJoins(c: Catalog, selected: seq<string>)
    ensures var ranked := SortIds(ByJoin(c), Sorted(Candidates(c, selected)));
      && InRankOrder(ByJoin(c), ranked) && Distinct(ranked)
      && forall y :: y in ranked <==> y in Candidates(c, selected)
  {
    var names := Sorted(Candidates(c, selected));
    SortedIsDistinct(Candidates(c, selected));
    SortIdsMeaning(ByJoin(c), names);
    AscendingDistinct(ByJoin(c), SortIds(ByJoin(c), names));
  }

  lemma AddedBounds(length: nat, taken: nat, maxAdded: int, limit: int)
    requires taken == 0 || taken <= limit
    ensures var n := Added(length, taken, maxAdded, limit);
      && n <= length
      && (taken + n <= limit || taken + n == 0)
      && (maxAdded >= 0 ==> n <= maxAdded)
      && (maxAdded >= 0 && n < length && n < maxAdded ==> taken + n >= limit)
  {
  }

  lemma PrefixDistinct(ids: seq<string>, n: nat)
    requires Distinct(ids) && n <= |ids|
    ensures Distinct(ids[..n])
  {
  }

  /** A selection has no table twice, stays within the limit, and consists of known tables. */
  ghost predicate Bounded(c: Catalog, selected: seq<string>, limit: int) {
    && Distinct(selected)
    && (selected == [] || |selected| <= limit)
    && forall id :: id in selected ==> id in c.tables
  }

  lemma StructureIsBounded(c: Catalog, scored: seq<string>, score: Score, limit: int, maxAdded: int, min: int,
                           selected: seq<string>, k: nat, j: nat)
    requires k <= |scored| && Structure(c, scored, score, limit, maxAdded, min, selected, k, j)
    requires Distinct(scored) && forall id :: id in scored ==> id in c.tables
    ensures Bounded(c, selected, limit)
  {
    var ranked := SortIds(ByJoin(c), Sorted(Candidates(c, scored[..k])));
    RankedJoins(c, scored[..k]);
    AddedBounds(|ranked|, k, maxAdded, limit);
    PrefixDistinct(scored, k);
    PrefixDistinct(ranked, j);
    forall id | id in ranked[..j] ensures id !in scored[..k] && id in c.tables { assert id in ranked; }
    DistinctConcat(scored[..k], ranked[..j]);
    forall id | id in selected ensures id in c.tables {
      if id in scored[..k] { assert id in scored; }
    }
  }

  // ---------------------------------------------------------------- selected and rejected

  lemma {:induction false} WithoutMembers(scored: seq<string>, selected: seq<string>, id: string)
    ensures id in Without(scored, selected) <==> id in scored && id !in selected
    decreases |scored|
  {
    if scored == [] {
    } else {
      var last := |scored| - 1;
      assert scored == scored[..last] + [scored[last]];
      WithoutMembers(scored[..last], selected, id);
    }
  }

  lemma {:induction false} WithoutDistinct(scored: seq<string>, selected: seq<string>)
    requires Distinct(scored)
    ensures Distinct(Without(scored, selected))
    decreases |scored|
  {
    if scored == [] {
    } else {
      var last := |scored| - 1;
      DistinctInit(scored);
      WithoutDistinct(scored[..last], selected);
      WithoutMembers(scored[..last], selected, scored[last]);
      if scored[last] !in selected {
        forall id | id in [scored[last]] ensures id !in Without(scored[..last], selected) {}
        DistinctConcat(Without(scored[..last], selected), [scored[last]]);
      }
    }
  }

  lemma Ranked(order: seq<string>, c: Catalog, score: Score) returns (scored: seq<string>)
    requires Lists(order, c)
    ensures scored == SortIds(ByScore(c, score), order)
    ensures InRankOrder(ByScore(c, score), scored) && ScoresFall(scored, score) && Distinct(scored) && |scored| == |order|
    ensures forall id :: id in scored <==> id in c.tables
  {
    scored := SortIds(ByScore(c, score), order);
    SortIdsMeaning(ByScore(c, score), order);
    AscendingScoresFall(c, score, scored);
    AscendingDistinct(ByScore(c, score), scored);
  }

  /** Every table is either selected or rejected, never both and never twice, and the selection stays within the limit. */
  lemma SelectedAndRejectedPartition(order: seq<string>, c: Catalog, score: Score, limit: int, maxAdded: int, min: int)
    requires Lists(order, c)
    ensures var r := Retrieved(order, c, score, limit, maxAdded, min);
      && Bounded(c, r.selected, limit)
      && Distinct(r.rejected)
      && (forall id :: id in c.tables <==> id in r.selected || id in r.rejected)
      && (forall id :: !(id in r.selected && id in r.rejected))
  {
    var scored := Ranked(order, c, score);
    var r := Retrieved(order, c, score, limit, maxAdded, min);
    if !r.clarification.required {
      var k, j := SelectionStructure(c, scored, score, limit, maxAdded, min);
      StructureIsBounded(c, scored, score, limit, maxAdded, min, r.selected, k, j);
    }
    WithoutDistinct(scored, r.selected);
    forall id ensures id in r.rejected <==> id in scored && id !in r.selected { WithoutMembers(scored, r.selected, id); }
  }

  /** The best scoring tables: each reaches the threshold,
      and every other table ranks after them and is below it or finds no room. */
  ghost predicate BestScoring(c: Catalog, score: Score, min: int, limit: int, chosen: seq<string>) {
    && (forall x :: x in chosen ==> score(x) >= min)
    && (forall id, x :: id in c.tables && id !in chosen && x in chosen ==> Before(ByScore(c, score), x, id))
    && (forall id :: id in c.tables && id !in chosen ==> score(id) < min || |chosen| >= limit)
  }

  ghost predicate JoinedToOneOf(c: Catalog, chosen: seq<string>, y: string) {
    exists x :: x in chosen && Joined(c, x, y)
  }

  /** The best ranked joins of the chosen tables: every other join ranks after them. */
  ghost predicate BestJoined(c: Catalog, chosen: seq<string>, extra: seq<string>) {
    && (forall y :: y in extra ==> JoinedToOneOf(c, chosen, y) && y !in chosen)
    && (forall id, y :: id in Candidates(c, chosen) && id !in extra && y in extra ==> Before(ByJoin(c), y, id))
  }

  /** As many joins as the bound and the room allow. */
  ghost predicate Saturated(c: Catalog, chosen: seq<string>, extra: seq<string>, maxAdded: int, limit: int) {
    maxAdded >= 0 ==>
      && |extra| <= maxAdded
      && ((exists id :: id in Candidates(c, chosen) && id !in extra) ==> |extra| == maxAdded || |chosen| + |extra| >= limit)
  }

  lemma IndexAfter(ids: seq<string>, k: nat, id: string) returns (n: nat)
    requires k <= |ids| && id in ids && id !in ids[..k]
    ensures k <= n < |ids| && ids[n] == id
  {
    forall i | 0 <= i < k ensures ids[i] in ids[..k] { assert ids[..k][i] == ids[i]; }
    n :| 0 <= n < |ids| && ids[n] == id;
  }

  lemma LaterIsAfter(rank: Ranking, ids: seq<string>, k: nat, x: string, id: string)
    requires InRankOrder(rank, ids) && k <= |ids| && x in ids[..k] && id in ids && id !in ids[..k]
    ensures Before(rank, x, id)
  {
    var i :| 0 <= i < k && ids[..k][i] == x;
    var n := IndexAfter(ids, k, id);
    assert ids[i] == x;
  }

  lemma PrefixIsBest(c: Catalog, score: Score, scored: seq<string>, min: int, limit: int, k: nat)
    requires InRankOrder(ByScore(c, score), scored) && ScoresFall(scored, score) && StopsAt(scored, score, min, limit, k)
    requires forall id :: id in scored <==> id in c.tables
    ensures BestScoring(c, score, min, limit, scored[..k])
  {
    var chosen := scored[..k];
    forall id, x | id in c.tables && id !in chosen && x in chosen ensures Before(ByScore(c, score), x, id) {
      LaterIsAfter(ByScore(c, score), scored, k, x, id);
    }
    forall id | id in c.tables && id !in chosen ensures score(id) < min || k >= limit {
      var n := IndexAfter(scored, k, id);
      if n > k { assert score(scored[k]) >= score(scored[n]); }
    }
  }

  lemma JoinsAreBest(c: Catalog, chosen: seq<string>, ranked: seq<string>, j: nat)
    requires InRankOrder(ByJoin(c), ranked) && j <= |ranked| && forall y :: y in ranked <==> y in Candidates(c, chosen)
    ensures BestJoined(c, chosen, ranked[..j])
  {
    var extra := ranked[..j];
    forall id, y | id in Candidates(c, chosen) && id !in extra && y in extra ensures Before(ByJoin(c), y, id) {
      LaterIsAfter(ByJoin(c), ranked, j, y, id);
    }
    forall y | y in extra ensures JoinedToOneOf(c, chosen, y) && y !in chosen {
      assert y in ranked;
    }
  }

  lemma JoinsSaturate(c: Catalog, chosen: seq<string>, ranked: seq<string>, maxAdded: int, limit: int, j: nat)
    requires j == Added(|ranked|, |chosen|, maxAdded, limit) && (chosen == [] || |chosen| <= limit)
    requires forall y :: y in ranked <==> y in Candidates(c, chosen)
    ensures Saturated(c, chosen, ranked[..j], maxAdded, limit)
  {
    AddedBounds(|ranked|, |chosen|, maxAdded, limit);
    if id :| id in Candidates(c, chosen) && id !in ranked[..j] {
      var n := IndexAfter(ranked, j, id);
    }
  }

  /**
   What is selected when no clarification is needed: the best scoring tables, then the best
   ranked tables directly joined to one of those.
   */
  lemma SelectionMeaning(order: seq<string>, c: Catalog, score: Score, limit: int, maxAdded: int, min: int)
    returns (chosen: seq<string>, extra: seq<string>)
    requires Lists(order, c) && !Retrieved(order, c, score, limit, maxAdded, min).clarification.required
    ensures Retrieved(order, c, score, limit, maxAdded, min).selected == chosen + extra
    ensures BestScoring(c, score, min, limit, chosen)
    ensures BestJoined(c, chosen, extra) && Saturated(c, chosen, extra, maxAdded, limit)
  {
    var scored := Ranked(order, c, score);
    var k, j := SelectionStructure(c, scored, score, limit, maxAdded, min);
    chosen := scored[..k];
    var ranked := SortIds(ByJoin(c), Sorted(Candidates(c, chosen)));
    extra := ranked[..j];
    RankedJoins(c, chosen);
    PrefixIsBest(c, score, scored, min, limit, k);
    JoinsAreBest(c, chosen, ranked, j);
    JoinsSaturate(c, chosen, ranked, maxAdded, limit, j);
  }

  // ---------------------------------------------------------------- clarification

  lemma {:induction false} TopTiedMembers(scored: seq<string>, score: Score, top: nat, min: int, id: string)
    ensures id in TopTied(scored, score, top, min) <==> id in scored && score(id) == top && top >= min
    decreases |scored|
  {
    if scored == [] {
    } else {
      var last := |scored| - 1;
      assert scored == scored[..last] + [scored[last]];
      TopTiedMembers(scored[..last], score, top, min, id);
    }
  }

  lemma {:induction false} TopTiedDistinct(scored: seq<string>, score: Score, top: nat, min: int)
    requires Distinct(scored)
    ensures Distinct(TopTied(scored, score, top, min))
    decreases |scored|
  {
    if scored == [] {
    } else {
      var last := |scored| - 1;
      DistinctInit(scored);
      TopTiedDistinct(scored[..last], score, top, min);
      TopTiedMembers(scored[..last], score, top, min, scored[last]);
      DistinctConcat(TopTied(scored[..last], score, top, min), [scored[last]]);
    }
  }

  /** Every other table scores less than `id`. */
  ghost predicate UniqueBest(c: Catalog, score: Score, id: string) {
    id in c.tables && forall other :: other in c.tables && other != id ==> score(other) < score(id)
  }

  /** No clarification is needed exactly when one table scores best and reaches the threshold,
      or there is no table and no threshold. */
  lemma ClarificationIff(order: seq<string>, c: Catalog, score: Score, limit: int, maxAdded: int, min: int)
    requires Lists(order, c)
    ensures var r := Retrieved(order, c, score, limit, maxAdded, min);
      && (!r.clarification.required <==>
            (exists id :: UniqueBest(c, score, id) && score(id) >= min) || (c.tables == map[] && min <= 0))
      && (r.clarification.required ==> r.selected == [])
  {
    var scored := Ranked(order, c, score);
    var top := TopScore(scored, score);
    var tied := TopTied(scored, score, top, min);
    forall id ensures id in tied <==> id in c.tables && score(id) == top && top >= min {
      TopTiedMembers(scored, score, top, min, id);
    }
    TopTiedDistinct(scored, score, top, min);
    if scored == [] {
      assert forall id :: id !in c.tables;
    } else {
      assert scored[0] in scored;
      TopIsBest(scored, score);
      OneTiedIff(c, score, tied, scored[0], min);
    }
  }

  lemma TopIsBest(scored: seq<string>, score: Score)
    requires scored != [] && ScoresFall(scored, score)
    ensures forall id :: id in scored ==> score(id) <= score(scored[0])
  {
    forall id | id in scored ensures score(id) <= score(scored[0]) {
      var n :| 0 <= n < |scored| && scored[n] == id;
    }
  }

  lemma OneTiedIff(c: Catalog, score: Score, tied: seq<string>, best: string, min: int)
    requires best in c.tables && Distinct(tied) && forall id :: id in c.tables ==> score(id) <= score(best)
    requires forall id :: id in tied <==> id in c.tables && score(id) == score(best) && score(best) >= min
    ensures score(best) >= min && |tied| <= 1 <==> exists id :: UniqueBest(c, score, id) && score(id) >= min
  {
    if |tied| > 1 {
      assert tied[0] in tied && tied[1] in tied;
      assert score(tied[0]) == score(tied[1]) && tied[0] != tied[1];
    }
    if score(best) >= min && |tied| <= 1 {
      assert best in tied && tied == [best];
      assert UniqueBest(c, score, best);
    }
    if id :| UniqueBest(c, score, id) && score(id) >= min {
      assert id == best;
    }
  }
}
