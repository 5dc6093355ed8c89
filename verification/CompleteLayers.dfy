/** Small builds: as long as no more than M0 + 1 nodes have been inserted and the build
    search is as wide as the graph, every two nodes are linked at the base layer, so
    queries on such an index miss nothing. */
module CompleteLayers {
  import opened CandidateHeap
  import opened LayerSearch
  import opened SearchCertificate
  import opened TopFive
  import opened Network
  import opened Distance
  import opened GraphIndex
  import opened NeighborSelection
  import opened BuilderSearch
  import opened BuildSteps
  import opened Building
  import opened Relabelling
  import opened QueryEngine
  import opened Recall
  import opened Reordering

  /** Each of the first k nodes has all the others as neighbours. */
  ghost predicate Complete(adj: seq<seq<int>>, k: nat) {
    k <= |adj| && forall u: nat, v: nat :: u < k && v < k && u != v ==> u in adj[v]
  }

  /** k or more distinct nodes below k are all of them. */
  lemma AllFound(found: seq<Item>, k: nat, v: nat)
    requires v < k <= |found| && forall i :: 0 <= i < |found| ==> found[i].id < k
    requires forall i, j :: 0 <= i < j < |found| ==> found[i].id != found[j].id
    ensures exists i :: 0 <= i < |found| && found[i].id == v
  {
    KeptIdsSize(found);
    CardinalityMonotone(KeptIds(found), Ids(k));
    assert v in KeptIds(found);
  }

  /** At most k distinct nodes below k. */
  lemma NoMoreThan(found: seq<Item>, k: nat)
    requires forall i :: 0 <= i < |found| ==> found[i].id < k
    requires forall i, j :: 0 <= i < j < |found| ==> found[i].id != found[j].id
    ensures |found| <= k
  {
    KeptIdsSize(found);
    CardinalityMonotone(KeptIds(found), Ids(k));
  }

  /** A search at least as wide as a complete layer finds all its nodes. */
  lemma SearchFindsAll(adj: seq<seq<int>>, dist: seq<int>, entry: nat, ef: nat, found: seq<Item>, k: nat, v: nat)
    requires Outcome(Space(adj, dist), entry, ef, found) && Complete(adj, k) && v < k <= ef
    requires forall x :: x in found ==> x.id < k
    ensures exists i :: 0 <= i < |found| && found[i].id == v
  {
    var sp := Space(adj, dist);
    OutcomeIsLocallyOptimal(sp, entry, ef, found);
    var x := found[0];
    assert x in found;
    if x.id != v {
      assert v in adj[x.id];
      if !Holds(found, sp, v) {
        assert forall i :: 0 <= i < |found| ==> found[i] in found;
        AllFound(found, k, v);
      }
    }
  }

  /** A row of distinct nodes below k other than v has fewer than k entries. */
  lemma RowIsShort(row: seq<int>, v: nat, k: nat, members: set<nat>)
    requires RowElems(row, v, members) && v < k && forall u :: u in members ==> u < k
    ensures |row| < k
  {
    var items := seq(|row|, j requires 0 <= j < |row| => Item(row[j], 0)) + [Item(v, 0)];
    forall i, j | 0 <= i < j < |items| ensures items[i].id != items[j].id {
    }
    NoMoreThan(items, k);
  }

  /** While there is room for all, every node is chosen. */
  lemma AllChosen(g: Index, dist: seq<int>, ef: nat, cap: nat, id: nat, t: Trail, before: seq<seq<int>>,
                  after: seq<seq<int>>, members: set<nat>, v: nat)
    requires Worked(g, dist, ef, cap, id, t, before, after) && LayerFine(before, members, cap) && cap >= 1
    requires (forall v: nat :: v in members <==> v < id) && t.entry in members
    requires Complete(before, id) && id <= cap && id <= ef && v < id
    ensures v in IdsOf(Select(g, t.sorted, cap))
  {
    OutcomeIsLocallyOptimal(Space(before, dist), t.entry, ef, t.found);
    forall x | x in t.found ensures x.id < id {
      ReachableMembers(before, members, cap, t.entry, x.id);
    }
    assert forall i :: 0 <= i < |t.found| ==> t.found[i] in t.found;
    NoMoreThan(t.found, id);
    SortedMembers(t.found, t.sorted);
    SearchFindsAll(before, dist, t.entry, ef, t.found, id, v);
    var i :| 0 <= i < |t.found| && t.found[i].id == v;
    assert t.found[i] in t.sorted;
    var j :| 0 <= j < |t.sorted| && t.sorted[j] == t.found[i];
    assert IdsOf(Select(g, t.sorted, cap))[j] == v;
  }

  /** While there is room for all, inserting a node links it with every other. */
  lemma WorkKeepsComplete(g: Index, dist: seq<int>, ef: nat, cap: nat, id: nat, t: Trail,
                          before: seq<seq<int>>, after: seq<seq<int>>, members: set<nat>)
    requires Worked(g, dist, ef, cap, id, t, before, after) && LayerFine(before, members, cap) && cap >= 1
    requires (forall v: nat :: v in members <==> v < id) && t.entry in members
    requires Complete(before, id) && id <= cap && id <= ef
    ensures Complete(after, id + 1)
  {
    hide Outcome;
    var chosen := IdsOf(Select(g, t.sorted, cap));
    forall v: nat | v < id ensures v in chosen {
      AllChosen(g, dist, ef, cap, id, t, before, after, members, v);
    }
    hide Select, IdsOf, Outcome;
    forall s: nat | s < id ensures after[s] == before[s] + [id] {
      assert s in members && RowElems(before[s], s, members);
      RowIsShort(before[s], s, id, members);
      assert s in chosen && Linked(g, s, before[s], id, cap, after[s]);
    }
  }

  /** The first M0 + 1 insertions, with a search as wide as what is there, keep the base
      layer complete. */
  lemma InsertKeepsComplete(c: Config, g: Index, dist: seq<int>, pre: Stage, post: Stage, level: nat, trail: seq<Trail>)
    requires c.Ok() && StageFine(c, pre) && Inserted(c, g, dist, pre, post, level, trail)
    requires Complete(pre.adj[0], |pre.levels|) && |pre.levels| <= c.m0 && |pre.levels| <= c.ef
    ensures |post.adj| > 0 && Complete(post.adj[0], |post.levels|)
  {
    LayerFacts(c, g, dist, pre, post, level, trail, 0);
    TrailEntries(c, g, dist, pre, post, level, trail, 0);
    WorkKeepsComplete(g, dist, c.ef, c.m0, |pre.levels|, trail[0], pre.adj[0], post.adj[0], Members(pre.levels, 0));
  }

  /** Each of the first k nodes has all the others as base-layer neighbours. */
  ghost predicate BaseComplete(v: Index, k: nat)
    requires v.BaseSized()
  {
    k <= v.n && forall u: nat, w: nat :: u < k && w < k && u != w ==> u in v.Layer0Neighbors(w)
  }

  lemma BaseIsLayer(v: Index, up: Uppers, k: nat)
    requires v.BaseSized()
    ensures BaseComplete(v, k) <==> Complete(LayerAdj(v, up, 0), k)
  {
    assert forall id :: 0 <= id < v.n ==> LayerAdj(v, up, 0)[id] == v.Layer0Neighbors(id);
  }

  /** The first M0 + 1 insertions keep the base buffers complete. */
  lemma InsertionKeepsComplete(gv: Index, dist: seq<int>, v: Index, up: Uppers, w: Index, up': Uppers,
                               levels: seq<nat>, level: nat, efC: nat, trail: seq<Trail>)
    requires BuilderFine(v, up, levels, efC) && levels != [] && w.BaseSized() && v.n == w.n && BaseComplete(v, |levels|)
    requires Inserted(ConfigOf(v, efC), gv, dist, StageOf(v, up, levels), StageOf(w, up', levels + [level]),
                      level, trail)
    requires |levels| <= v.m0 && |levels| <= efC
    ensures BaseComplete(w, |levels| + 1)
  {
    var pre, post := StageOf(v, up, levels), StageOf(w, up', levels + [level]);
    hide Inserted, Complete, BaseComplete, StageFine;
    BaseIsLayer(v, up, |levels|);
    BaseIsLayer(w, up', |levels| + 1);
    InsertKeepsComplete(ConfigOf(v, efC), gv, dist, pre, post, level, trail);
  }

  /** Reordering keeps a complete base layer complete. */
  lemma ReorderingKeepsComplete(pi: seq<nat>, a: Index, b: Index)
    requires a.WellFormed() && b.WellFormed() && Isomorphic(pi, a, b) && BaseComplete(a, a.n)
    ensures BaseComplete(b, b.n)
  {
    forall x: nat, y: nat | x < b.n && y < b.n && x != y ensures x in b.Layer0Neighbors(y) {
      var u := PermHits(pi, x);
      var v := PermHits(pi, y);
      assert u in a.Layer0Neighbors(v);
      var j :| 0 <= j < |a.Layer0Neighbors(v)| && a.Layer0Neighbors(v)[j] == u;
      assert b.NeighborsAt(pi[v], 0) == MapRow(pi, a.NeighborsAt(v, 0));
      assert b.Layer0Neighbors(y)[j] == x;
    }
  }

  /** In a complete layer every node is reached from every other. */
  lemma CompleteIsReachable(adj: seq<seq<int>>, a: nat, b: nat)
    requires Complete(adj, |adj|) && a < |adj| && b < |adj|
    ensures Reachable(adj, a, b)
  {
    assert IsWalk(adj, if a == b then [a] else [a, b], a, b);
  }

  /** The search of a complete layer meets every node: a kept one has been expanded. */
  lemma CompleteMeetsAll(sp: Space, entry: nat)
    requires SpaceOk(sp) && entry < |sp.dist| && Complete(sp.adj, |sp.adj|)
    ensures SearchFrom(sp, entry).seen == Ids(|sp.dist|)
  {
    SearchIsLocallyOptimal(sp, entry);
    var s := SearchFrom(sp, entry);
    var u := s.res[0].id;
    assert Holds(s.res, sp, u);
    assert Expanded(sp.adj, u, s.seen);
    forall v: nat | v < |sp.dist| ensures v in s.seen {
      if v != u {
        assert v in sp.adj[u];
      }
    }
  }

  /** On an index with a complete base layer every node can be reached, whatever the query,
      and with five nodes or more every answer is exact; so the index cannot miss where
      the five nearest nodes are the only possible ones. */
  lemma CompleteIsExact(g: Index, q: seq<int>)
    requires g.WellFormed() && |q| == DIM && BaseComplete(g, g.n)
    ensures AllReachable(g, q)
    ensures g.n >= 5 ==> IsClosest(Answer(g, q), g.Distances(q), Ids(g.n))
    ensures ClearCut(Answer(g, q), g.Distances(q)) ==> CannotMiss(g, q)
  {
    g.NetIsOk();
    var net, dist := g.Layered(), g.Distances(q);
    var entry := Arrive(net, dist, 1);
    assert Complete(g.Layer(0), g.n);
    forall v: nat | v < g.n ensures Reachable(net.layers[0], entry, v) {
      CompleteIsReachable(g.Layer(0), entry, v);
    }
    if g.n >= 5 {
      CompleteMeetsAll(At(net, dist, 0), entry);
      assert ReachSet(net.layers[0], entry) == Ids(g.n);
      AnswerIsClosestOfMet(net, dist);
    }
  }
}
