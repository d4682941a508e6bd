/** Related-track retrieval over a graph backend's neighbour lookup: the
    single-seed projection and the multi-seed coverage ranking. */
module Retrieval {
  import opened Wrappers
  import opened Seqs
  import Lex

  type TrackId = string

  /** One entry of a neighbour list: the neighbour and the edge weight. */
  type Neighbor = (TrackId, nat)

  /** The backend's complete, ordered neighbour list of every track; an
      unknown track has the empty list. */
  type Backend = TrackId -> seq<Neighbor>

  /** One call `backend.get_related_tracks(track_id, limit=...)`. */
  datatype Query = Query(trackId: TrackId, limit: Option<nat>)

  /** The `ValueError` raised for a negative `k`. */
  datatype Error = NegativeK

  /** What a retrieval call returns or raises, with the backend calls it made
      in the order it made them. */
  datatype Outcome = Outcome(result: Result<seq<TrackId>, Error>, calls: seq<Query>)

  /** The backend's answer to one call: the full list, or only its first
      `limit` entries when a limit is passed. */
  function Answer(backend: Backend, q: Query): seq<Neighbor> {
    match q.limit
    case None => backend(q.trackId)
    case Some(n) => Take(backend(q.trackId), n)
  }

  /** The ids of a neighbour list, weights dropped. */
  function Ids(ns: seq<Neighbor>): (r: seq<TrackId>)
    ensures |r| == |ns|
    ensures forall i :: 0 <= i < |ns| ==> r[i] == ns[i].0
  {
    if |ns| == 0 then [] else [ns[0].0] + Ids(ns[1..])
  }

  /** The set of ids a neighbour list names. */
  function Named(ns: seq<Neighbor>): (r: set<TrackId>)
    ensures forall c :: c in r <==> c in Ids(ns)
  {
    if |ns| == 0 then {} else {ns[0].0} + Named(ns[1..])
  }

  /** `k is not None and k < 0`: the case both queries reject. */
  predicate Negative(k: Option<int>) {
    k.Some? && k.value < 0
  }

  /** The limit handed to the backend for an accepted `k`. */
  function Limit(k: Option<int>): Option<nat>
    requires !Negative(k)
  {
    if k.Some? then Some(k.value) else None
  }

  /** `get_related_tracks(track_id, backend, k)`. A negative `k` raises
      before the backend is asked anything. Otherwise the backend is asked
      once, with `limit=k`, and the answer is the backend's neighbour ids in
      the backend's order, weights dropped, cut to `k` when `k` is given. */
  function GetRelatedTracks(trackId: TrackId, backend: Backend, k: Option<int>): (o: Outcome)
    ensures o.result.Failure? <==> Negative(k)
    ensures o.result.Failure? ==> o.calls == []
    ensures o.result.Success? ==> o.calls == [Query(trackId, Limit(k))]
    ensures o.result.Success? ==>
              var full := backend(trackId);
              && |o.result.value| == (if k.Some? && k.value < |full| then k.value else |full|)
              && forall i :: 0 <= i < |o.result.value| ==> o.result.value[i] == full[i].0
  {
    if Negative(k) then Outcome(Failure(NegativeK), [])
    else
      var q := Query(trackId, Limit(k));
      Outcome(Success(Ids(Answer(backend, q))), [q])
  }

  // ---------------------------------------------------------------------
  // Reference definitions for the multi-seed ranking.

  /** The summed weight of every entry of `ns` that names `c`. */
  function WeightIn(ns: seq<Neighbor>, c: TrackId): nat {
    if |ns| == 0 then 0
    else (if ns[0].0 == c then ns[0].1 else 0) + WeightIn(ns[1..], c)
  }

  /** How many of `seeds` have `c` in their neighbour list. */
  function Coverage(backend: Backend, seeds: seq<TrackId>, c: TrackId): nat {
    if |seeds| == 0 then 0
    else (if c in Ids(backend(seeds[0])) then 1 else 0) + Coverage(backend, seeds[1..], c)
  }

  /** The weight `c` collects over the neighbour lists of all `seeds`. */
  function TotalWeight(backend: Backend, seeds: seq<TrackId>, c: TrackId): nat {
    if |seeds| == 0 then 0
    else WeightIn(backend(seeds[0]), c) + TotalWeight(backend, seeds[1..], c)
  }

  /** Every id named in the neighbour list of some seed. */
  function Reached(backend: Backend, seeds: seq<TrackId>): set<TrackId> {
    if |seeds| == 0 then {} else Named(backend(seeds[0])) + Reached(backend, seeds[1..])
  }

  /** The ids a multi-seed query ranks: reached from some seed and not a
      seed themselves. */
  function Candidates(backend: Backend, seeds: seq<TrackId>): set<TrackId> {
    Reached(backend, seeds) - Elems(seeds)
  }

  /** A candidate with its ranking key. */
  datatype Scored = Scored(id: TrackId, hits: nat, weight: nat)

  /** The sort key `(-hits, -weight, id)`: more hits first, then more
      weight, then the smaller id. */
  predicate RanksBefore(a: Scored, b: Scored) {
    || a.hits > b.hits
    || (a.hits == b.hits && a.weight > b.weight)
    || (a.hits == b.hits && a.weight == b.weight && Lex.Less(a.id, b.id))
  }

  /** The key of candidate `c` in a query with `seeds`: the number of distinct
      seeds that list it and the weight summed over those lists. */
  function ScoreOf(backend: Backend, seeds: seq<TrackId>, c: TrackId): Scored {
    var unique := Dedup(seeds);
    Scored(c, Coverage(backend, unique, c), TotalWeight(backend, unique, c))
  }

  lemma RanksBeforeIrreflexive(a: Scored)
    ensures !RanksBefore(a, a)
  {
    Lex.LessIrreflexive(a.id);
  }

  lemma RanksBeforeTransitive(a: Scored, b: Scored, c: Scored)
    requires RanksBefore(a, b) && RanksBefore(b, c)
    ensures RanksBefore(a, c)
  {
    if a.hits == b.hits == c.hits && a.weight == b.weight == c.weight {
      Lex.LessTransitive(a.id, b.id, c.id);
    }
  }

  /** Candidates with different ids are never tied. */
  lemma RanksBeforeTotal(a: Scored, b: Scored)
    requires a.id != b.id
    ensures RanksBefore(a, b) || RanksBefore(b, a)
  {
    Lex.LessTotal(a.id, b.id);
  }

  // ---------------------------------------------------------------------
  // The aggregation loop over the seeds' neighbour lists.

  /** The two default-dicts `aggregated_weights` and `seed_hits`, and the
      insertion order of the keys of `aggregated_weights`. */
  datatype Tally = Tally(weights: map<TrackId, nat>, hits: map<TrackId, nat>, order: seq<TrackId>)

  /** Both dictionaries have the same keys, listed once each by `order`. */
  ghost predicate Consistent(t: Tally) {
    && t.weights.Keys == t.hits.Keys
    && Distinct(t.order)
    && (forall c :: c in t.order <==> c in t.weights)
  }

  /** A default-dict read: absent keys read as 0. */
  function Get(m: map<TrackId, nat>, c: TrackId): nat {
    if c in m then m[c] else 0
  }

  /** One iteration of the inner loop, for the entry `n`: a seed is skipped;
      any other track gains the entry's weight, and a hit unless this seed's
      list already named it (`seen` is `seen_for_seed`). */
  function Visit(t: Tally, seen: set<TrackId>, seedSet: set<TrackId>, n: Neighbor): (r: (Tally, set<TrackId>))
    requires Consistent(t) && seen <= t.weights.Keys && t.weights.Keys !! seedSet
    ensures Consistent(r.0) && r.1 <= r.0.weights.Keys && r.0.weights.Keys !! seedSet
    ensures r.0.weights.Keys == t.weights.Keys + ({n.0} - seedSet)
    ensures r.1 == seen + ({n.0} - seedSet)
  {
    var id := n.0;
    if id in seedSet then (t, seen)
    else
      var weights := t.weights[id := Get(t.weights, id) + n.1];
      var order := if id in t.weights then t.order else t.order + [id];
      var hits := if id in seen then t.hits else t.hits[id := Get(t.hits, id) + 1];
      (Tally(weights, hits, order), seen + {id})
  }

  /** A visit adds the entry's weight to its track, unless that is a seed. */
  lemma VisitWeight(t: Tally, seen: set<TrackId>, seedSet: set<TrackId>, n: Neighbor, c: TrackId)
    requires Consistent(t) && seen <= t.weights.Keys && t.weights.Keys !! seedSet
    ensures Get(Visit(t, seen, seedSet, n).0.weights, c) ==
            Get(t.weights, c) + (if c == n.0 && c !in seedSet then n.1 else 0)
  {
  }

  /** A visit adds a hit to its track, unless that is a seed or already seen. */
  lemma VisitHits(t: Tally, seen: set<TrackId>, seedSet: set<TrackId>, n: Neighbor, c: TrackId)
    requires Consistent(t) && seen <= t.weights.Keys && t.weights.Keys !! seedSet
    ensures Get(Visit(t, seen, seedSet, n).0.hits, c) ==
            Get(t.hits, c) + (if c == n.0 && c !in seedSet && c !in seen then 1 else 0)
  {
  }

  /** The inner loop over one seed's neighbour list. */
  function ScanNeighbors(t: Tally, seen: set<TrackId>, seedSet: set<TrackId>, ns: seq<Neighbor>): (r: (Tally, set<TrackId>))
    requires Consistent(t) && seen <= t.weights.Keys && t.weights.Keys !! seedSet
    ensures Consistent(r.0) && r.0.weights.Keys !! seedSet
    ensures r.0.weights.Keys == t.weights.Keys + (Named(ns) - seedSet)
    decreases |ns|
  {
    if |ns| == 0 then (t, seen)
    else
      var v := Visit(t, seen, seedSet, ns[0]);
      ScanNeighbors(v.0, v.1, seedSet, ns[1..])
  }

  /** Scanning one seed's list adds to a non-seed track the weight of every
      entry naming it. */
  lemma {:induction false} ScanNeighborsWeight(t: Tally, seen: set<TrackId>, seedSet: set<TrackId>, ns: seq<Neighbor>, c: TrackId)
    requires Consistent(t) && seen <= t.weights.Keys && t.weights.Keys !! seedSet
    ensures Get(ScanNeighbors(t, seen, seedSet, ns).0.weights, c) ==
            Get(t.weights, c) + (if c in seedSet then 0 else WeightIn(ns, c))
    decreases |ns|
  {
    if |ns| > 0 {
      var v := Visit(t, seen, seedSet, ns[0]);
      VisitWeight(t, seen, seedSet, ns[0], c);
      ScanNeighborsWeight(v.0, v.1, seedSet, ns[1..], c);
    }
  }

  /** Scanning one seed's list adds one hit to each non-seed track the list
      names, however often it names it, unless `seen` already holds it. */
  lemma {:induction false} ScanNeighborsHits(t: Tally, seen: set<TrackId>, seedSet: set<TrackId>, ns: seq<Neighbor>, c: TrackId)
    requires Consistent(t) && seen <= t.weights.Keys && t.weights.Keys !! seedSet
    ensures Get(ScanNeighbors(t, seen, seedSet, ns).0.hits, c) ==
            Get(t.hits, c) + (if c in Ids(ns) && c !in seedSet && c !in seen then 1 else 0)
    decreases |ns|
  {
    if |ns| > 0 {
      assert Ids(ns) == [ns[0].0] + Ids(ns[1..]);
      var v := Visit(t, seen, seedSet, ns[0]);
      VisitHits(t, seen, seedSet, ns[0], c);
      ScanNeighborsHits(v.0, v.1, seedSet, ns[1..], c);
    }
  }

  /** The outer loop over the de-duplicated seeds, each seed's list fetched
      without a limit. */
  function ScanSeeds(backend: Backend, t: Tally, seedSet: set<TrackId>, seeds: seq<TrackId>): (r: Tally)
    requires Consistent(t) && t.weights.Keys !! seedSet
    ensures Consistent(r) && r.weights.Keys !! seedSet
    ensures r.weights.Keys == t.weights.Keys + (Reached(backend, seeds) - seedSet)
    decreases |seeds|
  {
    if |seeds| == 0 then t
    else ScanSeeds(backend, ScanNeighbors(t, {}, seedSet, backend(seeds[0])).0, seedSet, seeds[1..])
  }

  /** After the outer loop a non-seed track's weight is its weight summed
      over every seed's list. */
  lemma {:induction false} ScanSeedsWeight(backend: Backend, t: Tally, seedSet: set<TrackId>, seeds: seq<TrackId>, c: TrackId)
    requires Consistent(t) && t.weights.Keys !! seedSet
    ensures Get(ScanSeeds(backend, t, seedSet, seeds).weights, c) ==
            Get(t.weights, c) + (if c in seedSet then 0 else TotalWeight(backend, seeds, c))
    decreases |seeds|
  {
    if |seeds| > 0 {
      ScanNeighborsWeight(t, {}, seedSet, backend(seeds[0]), c);
      ScanSeedsWeight(backend, ScanNeighbors(t, {}, seedSet, backend(seeds[0])).0, seedSet, seeds[1..], c);
    }
  }

  /** After the outer loop a non-seed track's hit count is the number of seeds
      whose list names it. */
  lemma {:induction false} ScanSeedsHits(backend: Backend, t: Tally, seedSet: set<TrackId>, seeds: seq<TrackId>, c: TrackId)
    requires Consistent(t) && t.weights.Keys !! seedSet
    ensures Get(ScanSeeds(backend, t, seedSet, seeds).hits, c) ==
            Get(t.hits, c) + (if c in seedSet then 0 else Coverage(backend, seeds, c))
    decreases |seeds|
  {
    if |seeds| > 0 {
      ScanNeighborsHits(t, {}, seedSet, backend(seeds[0]), c);
      ScanSeedsHits(backend, ScanNeighbors(t, {}, seedSet, backend(seeds[0])).0, seedSet, seeds[1..], c);
    }
  }

  /** A track is reached exactly when some seed's list names it. */
  lemma {:induction false} ReachedMembers(backend: Backend, seeds: seq<TrackId>, c: TrackId)
    ensures c in Reached(backend, seeds) <==> exists s :: s in seeds && c in Named(backend(s))
  {
    if |seeds| > 0 {
      ReachedMembers(backend, seeds[1..], c);
      assert seeds == [seeds[0]] + seeds[1..];
    }
  }

  // ---------------------------------------------------------------------
  // Ranking and truncation.

  /** Each entry ranks strictly before every later one. */
  predicate Ranked(s: seq<Scored>) {
    forall i, j :: 0 <= i < j < |s| ==> RanksBefore(s[i], s[j])
  }

  /** No two entries are about the same track. */
  predicate DistinctIds(s: seq<Scored>) {
    forall i, j :: 0 <= i < j < |s| ==> s[i].id != s[j].id
  }

  /** Inserts `x` at its place in a ranked sequence about other tracks. */
  function InsertRanked(x: Scored, s: seq<Scored>): (r: seq<Scored>)
    requires Ranked(s) && DistinctIds(s)
    requires forall y :: y in s ==> y.id != x.id
    ensures Ranked(r) && DistinctIds(r) && |r| == |s| + 1
    ensures forall y :: y in r <==> y == x || y in s
  {
    if |s| == 0 then [x]
    else if RanksBefore(x, s[0]) then
      assert forall j :: 0 < j < |s| ==> RanksBefore(x, s[j]) by {
        forall j | 0 < j < |s| {
          RanksBeforeTransitive(x, s[0], s[j]);
        }
      }
      [x] + s
    else
      RanksBeforeTotal(x, s[0]);
      var rest := InsertRanked(x, s[1..]);
      assert forall y :: y in rest ==> RanksBefore(s[0], y) && y.id != s[0].id;
      [s[0]] + rest
  }

  /** `sorted(..., key=lambda item: (-hits, -weight, id))`: every entry, each
      once, best first. */
  function Rank(s: seq<Scored>): (r: seq<Scored>)
    requires DistinctIds(s)
    ensures Ranked(r) && DistinctIds(r) && |r| == |s|
    ensures forall y :: y in r <==> y in s
  {
    if |s| == 0 then []
    else
      var init := s[..|s| - 1];
      assert DistinctIds(init);
      InsertRanked(s[|s| - 1], Rank(init))
  }

  /** Pairs each listed track with its hit count and summed weight. */
  function ScoresIn(t: Tally, ids: seq<TrackId>): (r: seq<Scored>)
    requires forall c :: c in ids ==> c in t.weights && c in t.hits
    ensures |r| == |ids|
    ensures forall i :: 0 <= i < |ids| ==> r[i] == Scored(ids[i], t.hits[ids[i]], t.weights[ids[i]])
  {
    if |ids| == 0 then []
    else [Scored(ids[0], t.hits[ids[0]], t.weights[ids[0]])] + ScoresIn(t, ids[1..])
  }

  /** The ids of ranked entries, in order. */
  function IdsOf(s: seq<Scored>): (r: seq<TrackId>)
    ensures |r| == |s|
    ensures forall i :: 0 <= i < |s| ==> r[i] == s[i].id
  {
    if |s| == 0 then [] else [s[0].id] + IdsOf(s[1..])
  }

  /** The unbounded calls made for each of `seeds`, in order. */
  function Unbounded(seeds: seq<TrackId>): (r: seq<Query>)
    ensures |r| == |seeds|
    ensures forall i :: 0 <= i < |seeds| ==> r[i] == Query(seeds[i], None)
  {
    if |seeds| == 0 then [] else [Query(seeds[0], None)] + Unbounded(seeds[1..])
  }

  /** The aggregation state after scanning every distinct seed's list. */
  function TallyFor(backend: Backend, trackIds: seq<TrackId>): (t: Tally)
    ensures Consistent(t)
    ensures t.weights.Keys == Reached(backend, Dedup(trackIds)) - Elems(Dedup(trackIds))
  {
    var unique := Dedup(trackIds);
    ScanSeeds(backend, Tally(map[], map[], []), Elems(unique), unique)
  }

  /** Every tallied track with its score, best first. */
  function RankedTally(backend: Backend, trackIds: seq<TrackId>): seq<Scored> {
    var tally := TallyFor(backend, trackIds);
    Rank(ScoresIn(tally, tally.order))
  }

  /** `ranked_tracks[:k]` when `k` is given, else all of `ranked_tracks`. */
  function Kept(ranked: seq<Scored>, k: Option<int>): seq<Scored>
    requires !Negative(k)
  {
    if k.Some? then Take(ranked, k.value) else ranked
  }

  /** `get_related_tracks_for_multiple(track_ids, backend, k)`. */
  function GetRelatedTracksForMultiple(trackIds: seq<TrackId>, backend: Backend, k: Option<int>): (o: Outcome)
    ensures o.result.Failure? <==> Negative(k)
    ensures o.result.Failure? ==> o.calls == []
    ensures o.result.Success? ==> o.calls == Unbounded(Dedup(trackIds))
  {
    if Negative(k) then Outcome(Failure(NegativeK), [])
    else if |trackIds| == 0 then Outcome(Success([]), [])
    else
      var calls := Unbounded(Dedup(trackIds));
      if TallyFor(backend, trackIds).weights == map[] then Outcome(Success([]), calls)
      else
        Outcome(Success(IdsOf(Kept(RankedTally(backend, trackIds), k))), calls)
  }

  // ---------------------------------------------------------------------
  // Properties of the multi-seed query.

  /** The tally's entries for a candidate are its hit count and summed
      weight over the distinct seeds. */
  lemma TallyScore(backend: Backend, trackIds: seq<TrackId>, c: TrackId)
    requires c in TallyFor(backend, trackIds).weights
    ensures var t := TallyFor(backend, trackIds);
            && c in t.hits
            && t.weights[c] == TotalWeight(backend, Dedup(trackIds), c)
            && t.hits[c] == Coverage(backend, Dedup(trackIds), c)
  {
    var unique, t0 := Dedup(trackIds), Tally(map[], map[], []);
    ScanSeedsWeight(backend, t0, Elems(unique), unique, c);
    ScanSeedsHits(backend, t0, Elems(unique), unique, c);
  }

  /** Repeated seeds change neither the reached tracks nor the seed set. */
  lemma CandidatesOfDedup(backend: Backend, trackIds: seq<TrackId>)
    ensures Reached(backend, Dedup(trackIds)) - Elems(Dedup(trackIds)) == Candidates(backend, trackIds)
  {
    forall c
      ensures c in Reached(backend, Dedup(trackIds)) <==> c in Reached(backend, trackIds)
    {
      ReachedMembers(backend, Dedup(trackIds), c);
      ReachedMembers(backend, trackIds, c);
    }
    assert Elems(Dedup(trackIds)) == Elems(trackIds);
  }

  /** The tally's keys are exactly the query's candidates. */
  lemma TallyKeys(backend: Backend, trackIds: seq<TrackId>)
    ensures TallyFor(backend, trackIds).weights.Keys == Candidates(backend, trackIds)
  {
    CandidatesOfDedup(backend, trackIds);
  }

  /** Scoring a consistent tally in key order lists every key once. */
  lemma ScoresOfTally(t: Tally)
    requires Consistent(t)
    ensures var scores := ScoresIn(t, t.order);
            && DistinctIds(scores)
            && |scores| == |t.weights.Keys|
            && (forall i :: 0 <= i < |scores| ==> scores[i].id in t.weights)
            && (forall c :: c in t.weights ==> exists i :: 0 <= i < |scores| && scores[i].id == c)
  {
    TallySize(t);
    ScoresFollowOrder(t);
    forall c | c in t.weights
      ensures exists i :: 0 <= i < |ScoresIn(t, t.order)| && ScoresIn(t, t.order)[i].id == c
    {
      ScoresCoverKey(t, c);
    }
  }

  /** The scored tally lists the insertion order's tracks, each once. */
  lemma ScoresFollowOrder(t: Tally)
    requires Consistent(t)
    ensures var scores := ScoresIn(t, t.order);
            DistinctIds(scores) && forall i :: 0 <= i < |scores| ==> scores[i].id in t.weights
  {
  }

  /** A tallied track has an entry in the scored tally. */
  lemma ScoresCoverKey(t: Tally, c: TrackId)
    requires Consistent(t)
    requires c in t.weights
    ensures exists i :: 0 <= i < |ScoresIn(t, t.order)| && ScoresIn(t, t.order)[i].id == c
  {
    var n :| 0 <= n < |t.order| && t.order[n] == c;
    assert ScoresIn(t, t.order)[n].id == c;
  }

  /** A consistent tally has one key per entry of its insertion order. */
  lemma TallySize(t: Tally)
    requires Consistent(t)
    ensures |t.weights.Keys| == |t.order|
  {
    assert Elems(t.order) == t.weights.Keys;
    DistinctCard(t.order);
  }

  /** `ScoreOf` for a fixed query, as a function of the candidate. */
  function ScoreFn(backend: Backend, trackIds: seq<TrackId>): TrackId -> Scored {
    c => ScoreOf(backend, trackIds, c)
  }

  /** Every entry of the scored tally carries its track's score. */
  lemma ScoresInTally(backend: Backend, trackIds: seq<TrackId>)
    ensures var tally := TallyFor(backend, trackIds);
            var scores := ScoresIn(tally, tally.order);
            forall i :: 0 <= i < |scores| ==> scores[i] == ScoreFn(backend, trackIds)(scores[i].id)
  {
    var tally := TallyFor(backend, trackIds);
    var scores := ScoresIn(tally, tally.order);
    forall i | 0 <= i < |scores|
      ensures scores[i] == ScoreFn(backend, trackIds)(scores[i].id)
    {
      TallyScore(backend, trackIds, tally.order[i]);
    }
  }

  /** Ranking keeps the entries and their multiplicity-free listing. */
  lemma RankFacts(scores: seq<Scored>, keys: set<TrackId>, score: TrackId -> Scored)
    requires DistinctIds(scores) && |scores| == |keys|
    requires forall i :: 0 <= i < |scores| ==> scores[i].id in keys && scores[i] == score(scores[i].id)
    requires forall c :: c in keys ==> exists i :: 0 <= i < |scores| && scores[i].id == c
    ensures var ranked := Rank(scores);
            && |ranked| == |keys|
            && (forall i :: 0 <= i < |ranked| ==> ranked[i].id in keys && ranked[i] == score(ranked[i].id))
            && (forall c :: c in keys ==> exists i :: 0 <= i < |ranked| && ranked[i].id == c)
  {
    var ranked := Rank(scores);
    assert forall i :: 0 <= i < |ranked| ==> ranked[i] in scores;
    forall c | c in keys
      ensures exists i :: 0 <= i < |ranked| && ranked[i].id == c
    {
      var n :| 0 <= n < |scores| && scores[n].id == c;
      assert scores[n] in ranked;
    }
  }

  /** The ranked tally lists every tallied track once, each with its score,
      best first. */
  lemma RankedTallyFacts(backend: Backend, trackIds: seq<TrackId>)
    ensures var ranked := RankedTally(backend, trackIds);
            var keys := TallyFor(backend, trackIds).weights.Keys;
            var score := ScoreFn(backend, trackIds);
            && Ranked(ranked) && DistinctIds(ranked)
            && |ranked| == |keys|
            && (forall i :: 0 <= i < |ranked| ==> ranked[i].id in keys && ranked[i] == score(ranked[i].id))
            && (forall c :: c in keys ==> exists i :: 0 <= i < |ranked| && ranked[i].id == c)
  {
    var tally := TallyFor(backend, trackIds);
    ScoresOfTally(tally);
    ScoresInTally(backend, trackIds);
    RankFacts(ScoresIn(tally, tally.order), tally.weights.Keys, ScoreFn(backend, trackIds));
  }

  /** The early returns for an empty seed list and an empty tally agree
      with ranking and cutting the (then empty) tally. */
  lemma MultipleIsKeptRanking(trackIds: seq<TrackId>, backend: Backend, k: Option<int>)
    requires !Negative(k)
    ensures GetRelatedTracksForMultiple(trackIds, backend, k).result.value
            == IdsOf(Kept(RankedTally(backend, trackIds), k))
  {
    var tally := TallyFor(backend, trackIds);
    if |trackIds| == 0 {
      assert tally.order == [];
    } else if tally.weights == map[] {
      assert Elems(tally.order) == {};
      DistinctCard(tally.order);
    }
  }

  /** Cutting a ranked list of scored candidates to `k` keeps the best ones:
      the generic form of the multi-seed answer's properties. */
  lemma KeptIsTop(ranked: seq<Scored>, k: Option<int>, cands: set<TrackId>, score: TrackId -> Scored)
    requires Ranked(ranked) && DistinctIds(ranked) && !Negative(k)
    requires |ranked| == |cands|
    requires forall i :: 0 <= i < |ranked| ==> ranked[i].id in cands && ranked[i] == score(ranked[i].id)
    requires forall c :: c in cands ==> exists i :: 0 <= i < |ranked| && ranked[i].id == c
    ensures var r := IdsOf(Kept(ranked, k));
            && Distinct(r)
            && (forall i :: 0 <= i < |r| ==> r[i] in cands)
            && (forall i, j :: 0 <= i < j < |r| ==> RanksBefore(score(r[i]), score(r[j])))
            && |r| == (if k.Some? && k.value < |cands| then k.value else |cands|)
            && (forall c, i :: c in cands && c !in r && 0 <= i < |r| ==> RanksBefore(score(r[i]), score(c)))
  {
    var n := if k.Some? && k.value < |ranked| then k.value else |ranked|;
    assert Kept(ranked, k) == ranked[..n];
    PrefixInOrder(ranked, n, cands, score);
    PrefixIsTop(ranked, n, cands, score);
  }

  /** The first `n` entries of a ranked list of scored candidates name
      distinct candidates, best first. */
  lemma PrefixInOrder(ranked: seq<Scored>, n: nat, cands: set<TrackId>, score: TrackId -> Scored)
    requires Ranked(ranked) && DistinctIds(ranked) && n <= |ranked|
    requires forall i :: 0 <= i < |ranked| ==> ranked[i].id in cands && ranked[i] == score(ranked[i].id)
    ensures var r := IdsOf(ranked[..n]);
            && Distinct(r)
            && (forall i :: 0 <= i < |r| ==> r[i] in cands)
            && (forall i, j :: 0 <= i < j < |r| ==> RanksBefore(score(r[i]), score(r[j])))
  {
    var r := IdsOf(ranked[..n]);
    assert forall i :: 0 <= i < |r| ==> r[i] == ranked[i].id && score(r[i]) == ranked[i];
  }

  /** Every candidate missing from the first `n` entries ranks behind each of
      them. */
  lemma PrefixIsTop(ranked: seq<Scored>, n: nat, cands: set<TrackId>, score: TrackId -> Scored)
    requires Ranked(ranked) && DistinctIds(ranked) && n <= |ranked|
    requires forall i :: 0 <= i < |ranked| ==> ranked[i] == score(ranked[i].id)
    requires forall c :: c in cands ==> exists i :: 0 <= i < |ranked| && ranked[i].id == c
    ensures var r := IdsOf(ranked[..n]);
            forall c, i :: c in cands && c !in r && 0 <= i < |r| ==> RanksBefore(score(r[i]), score(c))
  {
    var r := IdsOf(ranked[..n]);
    forall c, i | c in cands && c !in r && 0 <= i < |r|
      ensures RanksBefore(score(r[i]), score(c))
    {
      var j :| 0 <= j < |ranked| && ranked[j].id == c;
      assert r[i] == ranked[i].id;
    }
  }

  /** The answer of an accepted multi-seed query: distinct candidates (never
      a seed), best first by (hits, weight, id), and of them exactly the first
      `k`, or all when no `k` is given; every candidate left out ranks behind
      every one kept. */
  lemma MultipleRanking(trackIds: seq<TrackId>, backend: Backend, k: Option<int>)
    requires !Negative(k)
    ensures var r := GetRelatedTracksForMultiple(trackIds, backend, k).result.value;
            var cands := Candidates(backend, trackIds);
            && Distinct(r)
            && (forall i :: 0 <= i < |r| ==> r[i] in cands)
            && (forall i, j :: 0 <= i < j < |r| ==>
                  RanksBefore(ScoreOf(backend, trackIds, r[i]), ScoreOf(backend, trackIds, r[j])))
            && |r| == (if k.Some? && k.value < |cands| then k.value else |cands|)
            && (forall c, i :: c in cands && c !in r && 0 <= i < |r| ==>
                  RanksBefore(ScoreOf(backend, trackIds, r[i]), ScoreOf(backend, trackIds, c)))
  {
    MultipleIsKeptRanking(trackIds, backend, k);
    RankedTallyFacts(backend, trackIds);
    TallyKeys(backend, trackIds);
    KeptIsTop(RankedTally(backend, trackIds), k, Candidates(backend, trackIds), ScoreFn(backend, trackIds));
  }


  // ---------------------------------------------------------------------
  // Further consequences.

  /** Cutting to `k` on the backend side is the same as cutting the
      unlimited answer: the single-seed answer for `k = n` is the first `n`
      ids of the answer for `k = None`. */
  lemma SingleLimitIsPrefix(trackId: TrackId, backend: Backend, n: nat)
    ensures var all := GetRelatedTracks(trackId, backend, None).result.value;
            GetRelatedTracks(trackId, backend, Some(n)).result.value
              == if n < |all| then all[..n] else all
  {
  }

  /** Only the distinct seeds in order of first occurrence matter: two seed
      lists that de-duplicate alike, such as `["a", "a", "b"]` and
      `["a", "b"]`, get the same answer from the same backend calls. */
  lemma SameDistinctSeeds(xs: seq<TrackId>, ys: seq<TrackId>, backend: Backend, k: Option<int>)
    requires Dedup(xs) == Dedup(ys)
    ensures GetRelatedTracksForMultiple(xs, backend, k) == GetRelatedTracksForMultiple(ys, backend, k)
  {
    assert |xs| == 0 <==> |Dedup(xs)| == 0;
    assert |ys| == 0 <==> |Dedup(ys)| == 0;
  }

  /** Repeating a seed at the end changes neither the answer nor the calls
      made. */
  lemma DuplicateSeedIgnored(trackIds: seq<TrackId>, s: TrackId, backend: Backend, k: Option<int>)
    requires s in trackIds
    ensures GetRelatedTracksForMultiple(trackIds + [s], backend, k) == GetRelatedTracksForMultiple(trackIds, backend, k)
  {
    DedupOfRepeat(trackIds, s);
    SameDistinctSeeds(trackIds + [s], trackIds, backend, k);
  }

  /** A seed list naming `s` covers `c` at least once when `s`'s list names
      `c`; no list covers it more often than it has seeds. */
  lemma {:induction false} CoverageBounds(backend: Backend, seeds: seq<TrackId>, s: TrackId, c: TrackId)
    requires s in seeds && c in Named(backend(s))
    ensures 1 <= Coverage(backend, seeds, c) <= |seeds|
  {
    if seeds[0] != s {
      CoverageBounds(backend, seeds[1..], s, c);
    } else {
      CoverageAtMost(backend, seeds[1..], c);
    }
  }

  lemma {:induction false} CoverageAtMost(backend: Backend, seeds: seq<TrackId>, c: TrackId)
    ensures Coverage(backend, seeds, c) <= |seeds|
  {
    if |seeds| > 0 {
      CoverageAtMost(backend, seeds[1..], c);
    }
  }

  /** Every candidate of a multi-seed query is a neighbour of at least one
      of the distinct seeds and of at most all of them. */
  lemma CandidateHits(backend: Backend, trackIds: seq<TrackId>, c: TrackId)
    requires c in Candidates(backend, trackIds)
    ensures 1 <= ScoreOf(backend, trackIds, c).hits <= |Dedup(trackIds)|
  {
    CandidatesOfDedup(backend, trackIds);
    ReachedMembers(backend, Dedup(trackIds), c);
    var s :| s in Dedup(trackIds) && c in Named(backend(s));
    CoverageBounds(backend, Dedup(trackIds), s, c);
  }

  /** Without `k` the answer names every candidate: a track listed by only
      one of the seeds is ranked too (the union of the neighbour lists, not
      their intersection). */
  lemma UnboundedListsEveryCandidate(trackIds: seq<TrackId>, backend: Backend)
    ensures Elems(GetRelatedTracksForMultiple(trackIds, backend, None).result.value) == Candidates(backend, trackIds)
  {
    var r := GetRelatedTracksForMultiple(trackIds, backend, None).result.value;
    var cands := Candidates(backend, trackIds);
    MultipleRanking(trackIds, backend, None);
    DistinctFillsSet(r, cands);
  }
}
