/** The recall measurement (MeasureRecallAt5 in internal/buildindex/buildindex.go): the
    answers of the index against the exact five nearest nodes. */
module Recall {
  import opened Distance
  import opened CandidateHeap
  import opened LayerSearch
  import opened SearchCertificate
  import opened TopFive
  import opened Network
  import opened GraphIndex
  import opened QueryEngine
  import opened BruteForce

  // ---------- The fast answer against the exact one ----------

  /** Every node can be reached at layer 0 from where the descent for q ends. */
  ghost predicate AllReachable(g: Index, q: seq<int>)
    requires g.WellFormed() && |q| == DIM
  {
    g.NetIsOk();
    forall v: nat :: v < g.n ==> Reachable(g.Layered().layers[0], Arrive(g.Layered(), g.Distances(q), 1), v)
  }

  /** The answer is five nearest nodes of the whole graph, in order. */
  ghost predicate Exact(g: Index, q: seq<int>)
    requires g.WellFormed() && |q| == DIM
  {
    IsClosest(Answer(g, q), g.Distances(q), Ids(g.n))
  }

  /** With five to ten nodes, all reachable, the fast answer is exact. */
  lemma SmallIsExact(g: Index, q: seq<int>)
    requires g.WellFormed() && |q| == DIM && 5 <= g.n <= EF && AllReachable(g, q)
    ensures Exact(g, q)
  {
    g.NetIsOk();
    AnswerIsExactOnSmallGraphs(g.Layered(), g.Distances(q));
  }

  /** An exact answer has the distances of any other, in order. */
  lemma FastMatchesBrute(g: Index, q: seq<int>, exact: seq<nat>)
    requires g.WellFormed() && |q| == DIM && Exact(g, q)
    requires |exact| == 5 && IsClosest(exact, g.Distances(q), Ids(g.n))
    ensures forall k :: 0 <= k < 5 ==>
              Dist(q, g.VectorAt(Answer(g, q)[k])) == g.Distances(q)[Answer(g, q)[k]] == g.Distances(q)[exact[k]]
  {
    ClosestDistancesUnique(Answer(g, q), exact, g.Distances(q), Ids(g.n));
  }

  /** No two nodes are equally far from the query. */
  ghost predicate NoTies(dist: seq<int>) {
    forall u, v :: 0 <= u < v < |dist| ==> dist[u] != dist[v]
  }

  /** Without ties an exact answer is the exact answer, id by id. */
  lemma SameIds(g: Index, q: seq<int>, exact: seq<nat>)
    requires g.WellFormed() && |q| == DIM && Exact(g, q) && NoTies(g.Distances(q))
    requires |exact| == 5 && IsClosest(exact, g.Distances(q), Ids(g.n))
    ensures Answer(g, q) == exact
  {
    FastMatchesBrute(g, q, exact);
    var dist := g.Distances(q);
    forall k | 0 <= k < 5 ensures Answer(g, q)[k] == exact[k] {
      assert exact[k] in Ids(g.n);
    }
  }

  // ---------- Hits ----------

  /** How many of the ids got are in the truth. */
  ghost function Hits(got: seq<nat>, truth: seq<nat>): (c: nat)
    ensures c <= |got|
  {
    if got == [] then 0
    else Hits(got[..|got| - 1], truth) + if got[|got| - 1] in truth then 1 else 0
  }

  /** The positions of the ids got that are in the truth. */
  ghost function HitPositions(got: seq<nat>, truth: seq<nat>): set<nat> {
    set i: nat | i < |got| && got[i] in truth
  }

  /** The hits are counted position by position. */
  lemma {:induction false} HitsAreCounted(got: seq<nat>, truth: seq<nat>)
    ensures Hits(got, truth) == |HitPositions(got, truth)|
    decreases |got|
  {
    if got == [] {
      assert HitPositions(got, truth) == {};
    } else {
      var front, last := got[..|got| - 1], |got| - 1;
      HitsAreCounted(front, truth);
      assert HitPositions(got, truth) == HitPositions(front, truth) + if got[last] in truth then {last} else {};
    }
  }

  lemma {:induction false} AllHit(got: seq<nat>, truth: seq<nat>)
    ensures Hits(got, truth) == |got| <==> forall i :: 0 <= i < |got| ==> got[i] in truth
    decreases |got|
  {
    if got != [] {
      AllHit(got[..|got| - 1], truth);
    }
  }

  /** The order of the truth does not matter. */
  lemma {:induction false} HitsOfSame(got: seq<nat>, x: seq<nat>, y: seq<nat>)
    requires multiset(x) == multiset(y)
    ensures Hits(got, x) == Hits(got, y)
    decreases |got|
  {
    if got != [] {
      HitsOfSame(got[..|got| - 1], x, y);
      var id := got[|got| - 1];
      assert id in x <==> id in multiset(x);
      assert id in y <==> id in multiset(y);
    }
  }

  /** What one query contributes to the recall: the answered ids that are in its truth. */
  ghost function HitCount(g: Index, q: seq<int>): (c: nat)
    requires g.WellFormed() && |q| == DIM
    ensures c <= 5
  {
    Hits(Answer(g, q), ScannedIds(g.Distances(q)))
  }

  /** A stored vector as a query. */
  ghost function StoredQuery(g: Index, id: nat): (q: seq<int>)
    requires g.WellFormed() && id < g.n
    ensures |q| == DIM
  {
    AsInts(g.VectorAt(id))
  }

  ghost predicate AreNodes(g: Index, queries: seq<nat>) {
    forall i :: 0 <= i < |queries| ==> queries[i] < g.n
  }

  /** The hits of the first k queries. */
  ghost function TotalHits(g: Index, queries: seq<nat>, k: nat): nat
    requires g.WellFormed() && AreNodes(g, queries) && k <= |queries|
  {
    if k == 0 then 0 else TotalHits(g, queries, k - 1) + HitCount(g, StoredQuery(g, queries[k - 1]))
  }

  /** Query k of the list, answer i: the answers that are in the truth of their query. */
  ghost function HitPairs(g: Index, queries: seq<nat>, k: nat): set<(nat, nat)>
    requires g.WellFormed() && AreNodes(g, queries) && k <= |queries|
  {
    set j: nat, i: nat | j < k && i < 5 && IsHit(g, queries[j], i) :: (j, i)
  }

  /** The i-th answer to stored vector id is one of its exact nearest. */
  ghost predicate IsHit(g: Index, id: nat, i: nat)
    requires g.WellFormed() && id < g.n && i < 5
  {
    var q := StoredQuery(g, id);
    Answer(g, q)[i] in ScannedIds(g.Distances(q))
  }

  ghost function PairsWith(k: nat, hits: set<nat>): (r: set<(nat, nat)>)
    ensures forall p :: p in r <==> p.0 == k && p.1 in hits
  {
    set i | i in hits :: (k, i)
  }

  lemma {:induction false} PairCount(k: nat, hits: set<nat>)
    ensures |PairsWith(k, hits)| == |hits|
    decreases |hits|
  {
    if hits == {} {
      assert PairsWith(k, hits) == {};
    } else {
      var i :| i in hits;
      PairCount(k, hits - {i});
      assert PairsWith(k, hits) == PairsWith(k, hits - {i}) + {(k, i)};
    }
  }

  /** Pairs of one more query. */
  lemma MorePairs(before: set<(nat, nat)>, after: set<(nat, nat)>, k: nat, hits: set<nat>)
    requires forall p :: p in after <==> p in before || (p.0 == k && p.1 in hits)
    requires forall p :: p in before ==> p.0 < k
    ensures |after| == |before| + |hits|
  {
    PairCount(k, hits);
    assert after == before + PairsWith(k, hits);
    assert before * PairsWith(k, hits) == {};
  }

  lemma PositionIsHit(g: Index, id: nat, i: nat)
    requires g.WellFormed() && id < g.n
    ensures var q := StoredQuery(g, id);
            i in HitPositions(Answer(g, q), ScannedIds(g.Distances(q))) <==> i < 5 && IsHit(g, id, i)
  {
  }

  /** The pairs of the last query number its hits. */
  lemma LastPairs(g: Index, queries: seq<nat>, k: nat)
    requires g.WellFormed() && AreNodes(g, queries) && 0 < k <= |queries|
    ensures |HitPairs(g, queries, k)| == |HitPairs(g, queries, k - 1)| + HitCount(g, StoredQuery(g, queries[k - 1]))
  {
    var id := queries[k - 1];
    var q := StoredQuery(g, id);
    HitsAreCounted(Answer(g, q), ScannedIds(g.Distances(q)));
    var hits := HitPositions(Answer(g, q), ScannedIds(g.Distances(q)));
    assert HitCount(g, q) == |hits|;
    hide IsHit, HitPositions, HitCount, Answer, Index.WellFormed, StoredQuery;
    forall p
      ensures p in HitPairs(g, queries, k) <==> p in HitPairs(g, queries, k - 1) || (p.0 == k - 1 && p.1 in hits)
    {
      PositionIsHit(g, id, p.1);
    }
    MorePairs(HitPairs(g, queries, k - 1), HitPairs(g, queries, k), k - 1, hits);
  }

  /** The total counts the pairs of a query and a hit of its answer. */
  lemma {:induction false} TotalIsPairs(g: Index, queries: seq<nat>, k: nat)
    requires g.WellFormed() && AreNodes(g, queries) && k <= |queries|
    ensures TotalHits(g, queries, k) == |HitPairs(g, queries, k)|
  {
    hide IsHit, HitCount, Index.WellFormed, StoredQuery;
    if k == 0 {
      assert HitPairs(g, queries, 0) == {};
    } else {
      TotalIsPairs(g, queries, k - 1);
      LastPairs(g, queries, k);
    }
  }

  /** No other node is as near as the farthest of ids. */
  ghost predicate ClearCut(ids: seq<nat>, dist: seq<int>) {
    forall i, v :: 0 <= i < |ids| && ids[i] < |dist| && 0 <= v < |dist| && v !in ids ==> dist[ids[i]] < dist[v]
  }

  /** Conditions under which the index cannot miss: no more nodes than answers, or an exact
      answer whose five nodes are nearer than all others. */
  ghost predicate CannotMiss(g: Index, q: seq<int>)
    requires g.WellFormed() && |q| == DIM
  {
    g.n <= 5 || (Exact(g, q) && ClearCut(Answer(g, q), g.Distances(q)))
  }

  lemma NoTiesIsClearCut(g: Index, q: seq<int>)
    requires g.WellFormed() && |q| == DIM && Exact(g, q) && NoTies(g.Distances(q))
    ensures ClearCut(Answer(g, q), g.Distances(q))
  {
    var ids, dist := Answer(g, q), g.Distances(q);
    forall i, v | 0 <= i < |ids| && ids[i] < |dist| && 0 <= v < |dist| && v !in ids ensures dist[ids[i]] < dist[v] {
      assert v in Ids(g.n) && ids[i] != v;
    }
  }

  /** With no more nodes than answers the truth holds them all. */
  lemma FewNodesAllHit(g: Index, q: seq<int>)
    requires g.WellFormed() && |q| == DIM && g.n <= 5
    ensures HitCount(g, q) == 5
  {
    var dist, ids := g.Distances(q), Answer(g, q);
    ScannedIsNearest(dist, g.n);
    hide Index.WellFormed, Answer, Scanned, ScannedIds;
    forall i | 0 <= i < 5 ensures ids[i] in ScannedIds(dist) {
      AllBelow(Scanned(dist, g.n), ids[i], g.n);
      IdsOfScan(dist, ids[i]);
    }
    AllHit(ids, ScannedIds(dist));
  }

  /** As many distinct ids as items, all ids of items: then every item's id is among them. */
  lemma CoversItems(ids: seq<nat>, found: seq<Item>, k: nat)
    requires |ids| == |found| && k < |found|
    requires forall i, j :: 0 <= i < j < |ids| ==> ids[i] != ids[j]
    requires forall i, j :: 0 <= i < j < |found| ==> found[i].id != found[j].id
    requires forall i :: 0 <= i < |ids| ==> Has(found, ids[i])
    ensures found[k].id in ids
  {
    PrefixSize(ids, |ids|);
    KeptIdsSize(found);
    forall v | v in Prefix(ids, |ids|) ensures v in KeptIds(found) {
      var j :| 0 <= j < |found| && found[j].id == v;
      assert found[j] in found;
    }
    CardinalityMonotone(Prefix(ids, |ids|), KeptIds(found));
    assert found[k] in found;
    assert found[k].id in Prefix(ids, |ids|);
  }

  /** The other way round: every id is that of an item. */
  lemma CoversIds(ids: seq<nat>, found: seq<Item>, k: nat)
    requires |ids| == |found| && k < |ids|
    requires forall i, j :: 0 <= i < j < |ids| ==> ids[i] != ids[j]
    requires forall i, j :: 0 <= i < j < |found| ==> found[i].id != found[j].id
    requires forall i :: 0 <= i < |found| ==> found[i].id in ids
    ensures Has(found, ids[k])
  {
    PrefixSize(ids, |ids|);
    KeptIdsSize(found);
    CardinalityMonotone(KeptIds(found), Prefix(ids, |ids|));
    assert ids[k] in KeptIds(found);
    var x :| x in found && x.id == ids[k];
  }

  /** A clear cut leaves the scan no choice. */
  lemma ClearCutIsScanned(ids: seq<nat>, dist: seq<int>, k: nat)
    requires |ids| == 5 <= |dist| && IsClosest(ids, dist, Ids(|dist|)) && ClearCut(ids, dist) && k < 5
    ensures Has(Scanned(dist, |dist|), ids[k])
  {
    var found := Scanned(dist, |dist|);
    ScannedIsNearest(dist, |dist|);
    assert ids[k] in Ids(|dist|);
    hide Scanned;
    if !Has(found, ids[k]) {
      forall j | 0 <= j < 5 ensures found[j].id in ids {
        assert found[j].dist <= dist[ids[k]];
      }
      CoversIds(ids, found, k);
    }
  }

  /** Where the index cannot miss, all five answers are hits. */
  lemma SureHits(g: Index, q: seq<int>)
    requires g.WellFormed() && |q| == DIM && CannotMiss(g, q)
    ensures HitCount(g, q) == 5
  {
    if g.n <= 5 {
      FewNodesAllHit(g, q);
    } else {
      var dist := g.Distances(q);
      forall k | 0 <= k < 5 ensures Answer(g, q)[k] in ScannedIds(dist) {
        ClearCutIsScanned(Answer(g, q), dist, k);
        IdsOfScan(dist, Answer(g, q)[k]);
      }
      AllHit(Answer(g, q), ScannedIds(dist));
    }
  }

  /** Five nodes can be found at layer 0. */
  ghost predicate FiveFound(g: Index, q: seq<int>)
    requires g.WellFormed() && |q| == DIM
  {
    g.NetIsOk();
    |ReachSet(g.Layered().layers[0], Arrive(g.Layered(), g.Distances(q), 1))| >= 5
  }

  /** Five distinct ids in order, all of them held by the scan, are closest nodes. */
  lemma HeldAreClosest(ids: seq<nat>, dist: seq<int>, pool: set<nat>)
    requires |ids| == 5 <= |dist| && IsClosest(ids, dist, pool)
    requires forall i :: 0 <= i < 5 ==> Has(Scanned(dist, |dist|), ids[i])
    ensures IsClosest(ids, dist, Ids(|dist|))
  {
    var found, own := Scanned(dist, |dist|), Prefix(ids, 5);
    ScannedIsNearest(dist, |dist|);
    NarrowPool(ids, dist, pool);
    assert forall i, j :: 0 <= i < j < |found| ==> found[i].id != found[j].id;
    hide Scanned, Has, Nearest, IsClosest;
    forall v: nat | v < |dist| && Has(found, v) ensures v in own {
      HeldIsCovered(ids, found, v);
    }
    forall u, v | u in own && v in Ids(|dist|) && v !in own ensures dist[u] <= dist[v] {
      HeldAt(found, dist, u, v);
    }
    WidenPool(ids, dist, own, Ids(|dist|));
  }

  lemma HeldAt(found: seq<Item>, dist: seq<int>, u: nat, v: nat)
    requires Nearest(found, dist, |dist|) && Has(found, u) && v < |dist| && !Has(found, v)
    ensures u < |dist| && dist[u] <= dist[v]
  {
    var k :| 0 <= k < |found| && found[k].id == u;
    HeldIsNoFarther(found, dist, k, v);
  }

  lemma NarrowPool(ids: seq<nat>, dist: seq<int>, pool: set<nat>)
    requires IsClosest(ids, dist, pool)
    ensures IsClosest(ids, dist, Prefix(ids, |ids|)) && forall v :: v in Prefix(ids, |ids|) ==> v < |dist|
    ensures forall i, j :: 0 <= i < j < |ids| ==> ids[i] != ids[j]
  {
  }

  lemma HeldIsCovered(ids: seq<nat>, found: seq<Item>, v: nat)
    requires |ids| == |found| && Has(found, v)
    requires forall i, j :: 0 <= i < j < |ids| ==> ids[i] != ids[j]
    requires forall i, j :: 0 <= i < j < |found| ==> found[i].id != found[j].id
    requires forall i :: 0 <= i < |ids| ==> Has(found, ids[i])
    ensures v in ids
  {
    var k :| 0 <= k < |found| && found[k].id == v;
    CoversItems(ids, found, k);
  }

  /** When five nodes can be found at all, five hits mean an exact answer; and with a clear
      cut they mean nothing else. */
  lemma FiveHitsAreExact(g: Index, q: seq<int>)
    requires g.WellFormed() && |q| == DIM && FiveFound(g, q)
    ensures HitCount(g, q) == 5 ==> Exact(g, q)
    ensures ClearCut(Answer(g, q), g.Distances(q)) ==> (HitCount(g, q) == 5 <==> Exact(g, q))
  {
    var ids, dist := Answer(g, q), g.Distances(q);
    g.NetIsOk();
    FiveFoundNodes(g, q);
    AnswerIsClosestOfMet(g.Layered(), dist);
    AllHit(ids, ScannedIds(dist));
    hide Index.WellFormed, IsClosest, ClearCut, Scanned, Answer, FiveFound;
    if HitCount(g, q) == 5 {
      forall i | 0 <= i < 5 ensures Has(Scanned(dist, g.n), ids[i]) {
        IdsOfScan(dist, ids[i]);
      }
      HeldAreClosest(ids, dist, BaseSearch(g.Layered(), dist).seen);
    }
    if Exact(g, q) && ClearCut(ids, dist) {
      SureHits(g, q);
    }
  }

  lemma FiveFoundNodes(g: Index, q: seq<int>)
    requires g.WellFormed() && |q| == DIM && FiveFound(g, q)
    ensures g.n >= 5
  {
    g.NetIsOk();
    var reach := ReachSet(g.Layered().layers[0], Arrive(g.Layered(), g.Distances(q), 1));
    CardinalityMonotone(reach, Ids(g.n));
  }

  // ---------- The measurement ----------

  /** How many of the first k queries the index cannot miss on. */
  ghost function SureQueries(g: Index, queries: seq<nat>, k: nat): (c: nat)
    requires g.WellFormed() && AreNodes(g, queries) && k <= |queries|
    ensures c <= k
  {
    if k == 0 then 0
    else SureQueries(g, queries, k - 1) + if CannotMiss(g, StoredQuery(g, queries[k - 1])) then 1 else 0
  }

  ghost predicate AllSure(g: Index, queries: seq<nat>)
    requires g.WellFormed() && AreNodes(g, queries)
  {
    forall i :: 0 <= i < |queries| ==> CannotMiss(g, StoredQuery(g, queries[i]))
  }

  lemma {:induction false} AllSureCount(g: Index, queries: seq<nat>, k: nat)
    requires g.WellFormed() && AreNodes(g, queries) && AllSure(g, queries) && k <= |queries|
    ensures SureQueries(g, queries, k) == k
  {
    hide CannotMiss, Index.WellFormed, StoredQuery;
    if k > 0 {
      AllSureCount(g, queries, k - 1);
    }
  }

  /** The recall lies between five hits for every query the index cannot miss on and five
      for every query. */
  lemma {:induction false} RecallBounds(g: Index, queries: seq<nat>, k: nat)
    requires g.WellFormed() && AreNodes(g, queries) && k <= |queries|
    ensures 5 * SureQueries(g, queries, k) <= TotalHits(g, queries, k) <= 5 * k
  {
    hide CannotMiss, HitCount, Index.WellFormed, StoredQuery;
    if k > 0 {
      var q := StoredQuery(g, queries[k - 1]);
      RecallBounds(g, queries, k - 1);
      if CannotMiss(g, q) {
        SureHits(g, q);
      }
    }
  }

  /** The hits counted by MeasureRecallAt5 over queries taken from the references, all on
      one slot: for each the answers that are in its truth; so five for each query the
      index cannot miss on, and at most five for any. */
  method MeasureHits(g: Index, slot: VisitSlot, queries: seq<nat>) returns (totalHits: nat)
    requires g.WellFormed() && slot.Valid() && slot.marks.Length == g.n && AreNodes(g, queries)
    modifies slot, slot.marks, slot.cands, slot.cands.items, slot.resIDs, slot.resDists
    ensures slot.Valid() && totalHits == TotalHits(g, queries, |queries|) == |HitPairs(g, queries, |queries|)|
    ensures 5 * SureQueries(g, queries, |queries|) <= totalHits <= 5 * |queries|
    ensures AllSure(g, queries) ==> totalHits == 5 * |queries|
  {
    totalHits := CountAll(g, slot, queries);
    TotalIsPairs(g, queries, |queries|);
    RecallBounds(g, queries, |queries|);
    if AllSure(g, queries) {
      AllSureCount(g, queries, |queries|);
    }
  }

  /** The loop over the queries. */
  method CountAll(g: Index, slot: VisitSlot, queries: seq<nat>) returns (totalHits: nat)
    requires g.WellFormed() && slot.Valid() && slot.marks.Length == g.n && AreNodes(g, queries)
    modifies slot, slot.marks, slot.cands, slot.cands.items, slot.resIDs, slot.resDists
    ensures slot.Valid() && totalHits == TotalHits(g, queries, |queries|)
  {
    hide HitCount, StoredQuery, Index.WellFormed;
    totalHits := 0;
    for i := 0 to |queries|
      invariant slot.Valid() && (slot.cands.items == old(slot.cands.items) || fresh(slot.cands.items))
      invariant totalHits == TotalHits(g, queries, i)
    {
      var hits := HitsOfStored(g, queries[i], slot);
      totalHits := totalHits + hits;
    }
  }

  /** One stored vector as a query. */
  method HitsOfStored(g: Index, id: nat, slot: VisitSlot) returns (hits: nat)
    requires g.WellFormed() && id < g.n && slot.Valid() && slot.marks.Length == g.n
    modifies slot, slot.marks, slot.cands, slot.cands.items, slot.resIDs, slot.resDists
    ensures slot.Valid() && (slot.cands.items == old(slot.cands.items) || fresh(slot.cands.items))
    ensures hits == HitCount(g, StoredQuery(g, id))
  {
    hits := HitsOf(g, AsInts(g.VectorAt(id)), slot);
  }

  method HitsOf(g: Index, q: seq<int>, slot: VisitSlot) returns (hits: nat)
    requires g.WellFormed() && |q| == DIM && slot.Valid() && slot.marks.Length == g.n
    modifies slot, slot.marks, slot.cands, slot.cands.items, slot.resIDs, slot.resDists
    ensures slot.Valid() && (slot.cands.items == old(slot.cands.items) || fresh(slot.cands.items))
    ensures hits == HitCount(g, q)
  {
    var got := new nat[5](_ => 0);
    QueryFast5(g, q, slot, got);
    var truth := BruteTop5(g, q);
    hits := CountHits(got[..], truth[..]);
    HitsOfSame(got[..], truth[..], ScannedIds(g.Distances(q)));
  }

  method CountHits(got: seq<nat>, truth: seq<nat>) returns (hits: nat)
    ensures hits == Hits(got, truth)
  {
    hits := 0;
    for i := 0 to |got|
      invariant hits == Hits(got[..i], truth)
    {
      assert got[..i + 1][..i] == got[..i];
      for j := 0 to |truth|
        invariant hits == Hits(got[..i], truth) && got[i] !in truth[..j]
      {
        if got[i] == truth[j] {
          hits := hits + 1;
          break;
        }
      }
    }
    assert got[..|got|] == got;
  }
}
