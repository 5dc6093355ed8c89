/** The builder (internal/hnsw/hnsw.go): its state and Insert, which refines the insertion
    relation of BuildSteps and keeps the builder invariant. */
module Building {
  import opened Distance
  import opened Bits
  import opened CandidateHeap
  import opened LayerSearch
  import opened GreedyClimbs
  import opened GraphIndex
  import opened NeighborSelection
  import opened BuilderSearch
  import opened BaseRows
  import opened BuildSteps
  import opened EdgeUpdates

  /** Nothing stands in the way of linking node id to the chosen nodes at a layer. */
  ghost predicate Linkable(before: seq<seq<int>>, id: nat, chosen: seq<int>, cap: nat) {
    && cap >= 1 && id < |before| && before[id] == [] && |chosen| <= cap
    && (forall i :: 0 <= i < |chosen| ==> 0 <= chosen[i] < |before| && chosen[i] != id)
    && (forall i, j :: 0 <= i < j < |chosen| ==> chosen[i] != chosen[j])
    && (forall i :: 0 <= i < |chosen| ==> LinkableRow(before[chosen[i]], id, |before|, cap))
  }

  ghost predicate LinkableRow(row: seq<int>, id: nat, n: nat, cap: nat) {
    RowIn(row, n) && |row| <= cap && id !in row
  }

  /** The first i chosen nodes have been linked back to id. */
  ghost predicate HalfLinked(gv: Index, before: seq<seq<int>>, cur: seq<seq<int>>, id: nat, chosen: seq<int>, i: nat,
                             cap: nat) {
    && |cur| == |before| && id < |cur| && cur[id] == chosen && i <= |chosen|
    && forall s :: 0 <= s < |before| && s != id ==>
         if s in chosen[..i] then Linked(gv, s, before[s], id, cap, cur[s]) else cur[s] == before[s]
  }

  lemma HalfLinkedStep(gv: Index, before: seq<seq<int>>, cur: seq<seq<int>>, id: nat, chosen: seq<int>, i: nat,
                       cap: nat, row: seq<int>)
    requires HalfLinked(gv, before, cur, id, chosen, i, cap) && i < |chosen| && Linkable(before, id, chosen, cap)
    requires Linked(gv, chosen[i], before[chosen[i]], id, cap, row)
    ensures HalfLinked(gv, before, cur[chosen[i] := row], id, chosen, i + 1, cap)
  {
    assert chosen[..i + 1] == chosen[..i] + [chosen[i]];
  }

  /** Both parts of the reverse edge: add it, then prune. */
  method LinkBack(g: Graph, upperConns: Uppers, gv: Index, s: nat, newID: nat, L: nat)
      returns (upper': Uppers, ghost row: seq<int>)
    requires g.View().BaseSized() && 1 <= g.m0 <= 255 && g.m >= 1 && s < g.n && newID < g.n
    requires gv.n == g.n && |gv.vectors| == gv.n * DIM
    requires L <= |upperConns| && (L > 0 ==> s in upperConns[L - 1])
    requires LinkableRow(NeighborsAt(g.View(), upperConns, s, L), newID, g.n, if L == 0 then g.m0 else g.m)
    modifies g`conn0, g`conn0Cnt
    ensures Linked(gv, s, old(NeighborsAt(g.View(), upperConns, s, L)), newID, if L == 0 then g.m0 else g.m, row)
    ensures Touched(old(g.View()), upperConns, g.View(), upper', L, old(LayerAdj(g.View(), upperConns, L))[s := row])
  {
    ghost var v0, row0 := g.View(), NeighborsAt(g.View(), upperConns, s, L);
    ghost var row1, row2;
    var upper1;
    upper1, row1 := AddEdge(g, upperConns, gv, s, newID, L);
    ghost var v1 := g.View();
    assert LayerAdj(v1, upper1, L)[s] == row1;
    RowStaysIn(gv, s, row0, newID, L, g.m0, row1);
    upper', row2 := PruneIfOverCapacity(g, upper1, gv, s, L);
    row := row2;
    ghost var a1 := LayerAdj(v0, upperConns, L)[s := row1];
    assert a1[s := row2] == LayerAdj(v0, upperConns, L)[s := row2];
    TouchedAgain(v0, upperConns, v1, upper1, g.View(), upper', L, a1, a1[s := row2]);
  }

  lemma RowStaysIn(gv: Index, s: nat, row: seq<int>, d: nat, L: nat, m0: nat, row': seq<int>)
    requires Added(gv, s, row, d, L, m0, row') && RowIn(row, gv.n) && d < gv.n && m0 >= 1
    ensures RowIn(row', gv.n)
  {
    if L == 0 && |row| >= m0 && d !in row {
      RelinkedSubset(gv, s, row + [d], m0, row');
      forall j | 0 <= j < |row'| ensures 0 <= row'[j] < gv.n {
        assert row'[j] in row + [d];
      }
    }
  }

  ghost predicate Registered(up: Uppers, L: nat, v: int) {
    L <= |up| && (L > 0 ==> v in up[L - 1])
  }

  /** Edges newID -> chosen, then chosen -> newID with pruning. */
  method ConnectBidirectional(g: Graph, upperConns: Uppers, gv: Index, newID: nat, selected: seq<int>, L: nat)
      returns (upper': Uppers)
    requires g.View().BaseSized() && 1 <= g.m0 <= 255 && g.m >= 1
    requires gv.n == g.n && |gv.vectors| == gv.n * DIM
    requires Linkable(LayerAdj(g.View(), upperConns, L), newID, selected, if L == 0 then g.m0 else g.m)
    requires Registered(upperConns, L, newID)
    requires forall i :: 0 <= i < |selected| ==> Registered(upperConns, L, selected[i])
    modifies g`conn0, g`conn0Cnt
    ensures exists after :: Touched(old(g.View()), upperConns, g.View(), upper', L, after)
              && ConnectedTo(gv, old(LayerAdj(g.View(), upperConns, L)), after, newID, selected,
                             if L == 0 then g.m0 else g.m)
  {
    ghost var v0, before := g.View(), LayerAdj(g.View(), upperConns, L);
    var cap := if L == 0 then g.m0 else g.m;
    upper' := LinkForward(g, upperConns, gv, newID, selected, L);
    ghost var cur := before[newID := selected];
    for i := 0 to |selected|
      invariant Touched(v0, upperConns, g.View(), upper', L, cur)
      invariant HalfLinked(gv, before, cur, newID, selected, i, cap)
    {
      var s := selected[i];
      assert s !in selected[..i];
      assert cur[s] == before[s] == NeighborsAt(g.View(), upper', s, L);
      ghost var v1, up1, row := g.View(), upper', [];
      upper', row := LinkBack(g, upper', gv, s, newID, L);
      TouchedAgain(v0, upperConns, v1, up1, g.View(), upper', L, cur, cur[s := row]);
      HalfLinkedStep(gv, before, cur, newID, selected, i, cap, row);
      cur := cur[s := row];
    }
    assert selected[..|selected|] == selected;
  }

  /** The new node's own row. */
  method LinkForward(g: Graph, upperConns: Uppers, gv: Index, newID: nat, selected: seq<int>, L: nat)
      returns (upper': Uppers)
    requires g.View().BaseSized() && 1 <= g.m0 <= 255 && g.m >= 1
    requires gv.n == g.n && |gv.vectors| == gv.n * DIM
    requires Linkable(LayerAdj(g.View(), upperConns, L), newID, selected, if L == 0 then g.m0 else g.m)
    requires Registered(upperConns, L, newID)
    modifies g`conn0, g`conn0Cnt
    ensures Touched(old(g.View()), upperConns, g.View(), upper', L,
                    old(LayerAdj(g.View(), upperConns, L))[newID := selected])
  {
    ghost var v0, before := g.View(), LayerAdj(g.View(), upperConns, L);
    upper' := upperConns;
    assert before[newID := selected[..0]] == before;
    assert Touched(v0, upperConns, g.View(), upper', L, before);
    hide LayerAdj;
    for i := 0 to |selected|
      invariant Touched(v0, upperConns, g.View(), upper', L, before[newID := selected[..i]])
    {
      ghost var v1, up1, row := g.View(), upper', [];
      assert NeighborsAt(g.View(), upper', newID, L) == before[newID := selected[..i]][newID];
      upper', row := AddEdge(g, upper', gv, newID, selected[i], L);
      assert selected[..i + 1] == selected[..i] + [selected[i]] == row;
      assert before[newID := selected[..i]][newID := row] == before[newID := row];
      TouchedAgain(v0, upperConns, v1, up1, g.View(), upper', L, before[newID := selected[..i]], before[newID := row]);
    }
    assert selected[..|selected|] == selected;
  }

  // ---------- One layer ----------

  /** Ready to work on layer L for node id: the layer is well formed without it, and the
      members and id have entries in the layer's map. */
  ghost predicate Ready(v: Index, up: Uppers, L: nat, id: nat, entry: nat, members: set<nat>, cap: nat) {
    && v.BaseSized() && id < v.n && cap >= 1
    && LayerFine(LayerAdj(v, up, L), members, cap)
    && entry in members && id !in members
    && Registered(up, L, id) && forall u :: u in members ==> Registered(up, L, u)
  }

  lemma ReadyToSearch(v: Index, up: Uppers, L: nat, id: nat, entry: nat, members: set<nat>, cap: nat)
    requires Ready(v, up, L, id, entry, members, cap)
    ensures AdjOk(LayerAdj(v, up, L)) && entry < v.n
  {
    var adj := LayerAdj(v, up, L);
    forall i | 0 <= i < |adj| ensures RowOk(adj[i], |adj|) {
      if i in members {
        assert RowElems(adj[i], i, members);
      }
    }
  }

  lemma ReadyToLink(gv: Index, dist: seq<int>, ef: nat, t: Trail, v: Index, up: Uppers, L: nat, id: nat,
                    members: set<nat>, cap: nat)
    requires Ready(v, up, L, id, t.entry, members, cap) && |dist| == v.n
    requires Outcome(Space(LayerAdj(v, up, L), dist), t.entry, ef, t.found)
    requires SortedFrom(t.found, t.sorted) && Usable(gv, t.sorted)
    ensures var chosen := IdsOf(Select(gv, t.sorted, cap));
            && Linkable(LayerAdj(v, up, L), id, chosen, cap)
            && forall i :: 0 <= i < |chosen| ==> Registered(up, L, chosen[i])
  {
    var adj := LayerAdj(v, up, L);
    var chosen := IdsOf(Select(gv, t.sorted, cap));
    ChosenElems(gv, dist, ef, cap, id, t, adj, members);
    forall i | 0 <= i < |chosen| ensures LinkableRow(adj[chosen[i]], id, |adj|, cap) && Registered(up, L, chosen[i]) {
      assert chosen[i] in members;
      assert RowElems(adj[chosen[i]], chosen[i], members);
    }
  }

  lemma SameDistances(v: Index, gv: Index, q: seq<int>)
    requires |q| == DIM && v.n == gv.n && v.vectors == gv.vectors && |v.vectors| == v.n * DIM
    ensures NodeDistances(v, q) == NodeDistances(gv, q)
  {
    forall id | 0 <= id < v.n ensures NodeDistances(v, q)[id] == NodeDistances(gv, q)[id] {
      assert v.VectorAt(id) == gv.VectorAt(id);
    }
  }

  /** Search layer L from entry, choose neighbours for id among the nodes found, link them
      both ways; returns the closest node found, where the next layer's search starts. */
  method WorkOnLayer(g: Graph, upperConns: Uppers, gv: Index, visits: Visits, efC: nat, q: seq<int>, id: nat,
                     entry: nat, L: nat, ghost members: set<nat>)
      returns (upper': Uppers, next: nat, ghost t: Trail)
    requires 1 <= g.m0 <= 255 && g.m >= 1 && efC >= 1 && |q| == DIM
    requires Ready(g.View(), upperConns, L, id, entry, members, if L == 0 then g.m0 else g.m)
    requires gv.n == g.n && gv.vectors == g.vectors
    requires visits.Valid() && visits.marks.Length == g.n
    modifies g`conn0, g`conn0Cnt, visits, visits.marks
    ensures visits.Valid()
    ensures t.entry == entry && |t.sorted| > 0 && next == t.sorted[0].id
    ensures exists after :: Touched(old(g.View()), upperConns, g.View(), upper', L, after)
              && Worked(gv, NodeDistances(gv, q), efC, if L == 0 then g.m0 else g.m, id, t,
                        old(LayerAdj(g.View(), upperConns, L)), after)
  {
    ghost var v0, before := g.View(), LayerAdj(g.View(), upperConns, L);
    var cap := if L == 0 then g.m0 else g.m;
    ReadyToSearch(v0, upperConns, L, id, entry, members, cap);
    var found := SearchLayer(g.View(), upperConns, q, entry, efC, L, visits);
    SameDistances(v0, gv, q);
    ghost var dist := NodeDistances(gv, q);
    var selected;
    selected, next, t := Choose(gv, dist, efC, before, entry, found, cap);
    ReadyToLink(gv, dist, efC, t, v0, upperConns, L, id, members, cap);
    upper' := ConnectBidirectional(g, upperConns, gv, id, selected, L);
  }

  /** The heuristic's choice among the nodes found, and the closest of them.  The scan for
      the closest reads the array after the selection has been written over its head. */
  method Choose(gv: Index, ghost dist: seq<int>, ghost efC: nat, ghost before: seq<seq<int>>, ghost entry: nat,
                found: seq<Item>, cap: nat)
      returns (selected: seq<int>, next: nat, ghost t: Trail)
    requires |gv.vectors| == gv.n * DIM && |dist| == gv.n && cap >= 1
    requires Outcome(Space(before, dist), entry, efC, found)
    ensures t.entry == entry && t.found == found && SortedFrom(found, t.sorted) && Usable(gv, t.sorted)
    ensures selected == IdsOf(Select(gv, t.sorted, cap))
    ensures |t.sorted| > 0 && next == t.sorted[0].id
    ensures exists x :: x in found && x.id == next && forall y :: y in found ==> x.dist <= y.dist
  {
    OutcomeIsLocallyOptimal(Space(before, dist), entry, efC, found);
    var cands := new Item[|found|](i requires 0 <= i < |found| => found[i]);
    assert cands[..] == found;
    assert Usable(gv, found);
    var count, sorted := SelectNeighborsHeuristic(gv, cands, cap);
    SortedMembers(found, sorted);
    t := Trail(entry, found, sorted);
    selected := IdsOfHead(cands, count);
    HeadIsClosest(found, sorted);
    hide Outcome, SortedFrom, Select, Usable, IdsOf, ByDistance;
    forall i | 0 <= i < cands.Length ensures cands[i] in found {
      assert cands[i] in sorted;
    }
    ghost var k;
    next, k := ScanClosest(cands);
    assert cands[0] == sorted[0] && k == 0;
  }

  lemma HeadIsClosest(found: seq<Item>, sorted: seq<Item>)
    requires SortedFrom(found, sorted) && |found| > 0
    ensures |sorted| > 0 && sorted[0] in found && forall y :: y in found ==> sorted[0].dist <= y.dist
  {
    SortedMembers(found, sorted);
    assert sorted[0] in sorted;
    forall y | y in found ensures sorted[0].dist <= y.dist {
      assert y in sorted;
      var k :| 0 <= k < |sorted| && sorted[k] == y;
    }
  }

  /** The scan for the closest node: the first of the closest. */
  method ScanClosest(cands: array<Item>) returns (next: nat, ghost k: nat)
    requires cands.Length > 0
    ensures k < cands.Length && next == cands[k].id
    ensures forall j :: 0 <= j < cands.Length ==>
              if j < k then cands[k].dist < cands[j].dist else cands[k].dist <= cands[j].dist
  {
    var best := cands[0];
    k := 0;
    for i := 1 to cands.Length
      invariant k < i && best == cands[k]
      invariant forall j :: 0 <= j < i ==> if j < k then best.dist < cands[j].dist else best.dist <= cands[j].dist
    {
      if cands[i].dist < best.dist {
        best, k := cands[i], i;
      }
    }
    next := best.id;
  }

  // ---------- All layers ----------

  /** Members of every layer, and the node being inserted up to layer topL, have entries. */
  ghost predicate AllRegistered(up: Uppers, levels: seq<nat>, id: nat, topL: nat) {
    forall K: nat, u: nat :: K <= topL && (u == id || u in Members(levels, K)) ==> Registered(up, K, u)
  }

  /** Only rows have changed between (v, up) and (w, up'), on no layer above topL. */
  ghost predicate RowsOnly(v: Index, up: Uppers, w: Index, up': Uppers, topL: int) {
    && v.BaseSized() && w.BaseSized() && (Clean(v) ==> Clean(w))
    && w == v.(conn0 := w.conn0, conn0Cnt := w.conn0Cnt) && SameKeys(up, up')
    && forall K: nat :: K > topL ==> LayerAdj(w, up', K) == LayerAdj(v, up, K)
  }

  /** Layers lo..topL have been worked on for id; those below still read as before. */
  ghost predicate WorkDone(c: Config, gv: Index, dist: seq<int>, pre: Stage, id: nat, trail: seq<Trail>, w: Index,
                           up: Uppers, lo: int, topL: nat, entry0: nat) {
    && w.BaseSized() && 0 <= lo <= topL + 1 && |trail| == topL + 1 < |pre.adj| + 1
    && (forall K: nat :: K < lo ==> LayerAdj(w, up, K) == pre.adj[K])
    && (forall K: nat :: lo <= K <= topL ==>
          Worked(gv, dist, c.ef, c.Cap(K), id, trail[K], pre.adj[K], LayerAdj(w, up, K)))
    && (forall K: nat :: lo <= K < topL ==> Chained(trail, K))
    && (lo <= topL ==> trail[topL].entry == entry0)
  }

  /** Where the search on the layer below lo starts. */
  ghost predicate StartsAt(trail: seq<Trail>, lo: int, topL: nat, entry0: nat, entry: nat) {
    if lo > topL then entry == entry0
    else 0 <= lo < |trail| && |trail[lo].sorted| > 0 && entry == trail[lo].sorted[0].id
  }

  lemma WorkOneMore(c: Config, gv: Index, dist: seq<int>, pre: Stage, id: nat, trail: seq<Trail>, v: Index, up: Uppers,
                    w: Index, up': Uppers, after: seq<seq<int>>, L: nat, topL: nat,
                 entry0: nat, entry: nat, t: Trail)
    requires WorkDone(c, gv, dist, pre, id, trail, v, up, L + 1, topL, entry0) && L <= topL
    requires StartsAt(trail, L + 1, topL, entry0, entry) && t.entry == entry
    requires Touched(v, up, w, up', L, after)
    requires Worked(gv, dist, c.ef, c.Cap(L), id, t, pre.adj[L], after)
    ensures WorkDone(c, gv, dist, pre, id, trail[L := t], w, up', L, topL, entry0)
  {
    hide Worked;
    var trail' := trail[L := t];
    forall K: nat | L <= K <= topL
      ensures Worked(gv, dist, c.ef, c.Cap(K), id, trail'[K], pre.adj[K], LayerAdj(w, up', K))
    {
    }
    forall K: nat | L <= K < topL ensures Chained(trail', K) {
      if K > L {
        assert Chained(trail, K);
      }
    }
  }

  lemma MembersReady(c: Config, pre: Stage, v: Index, up: Uppers, L: nat, topL: nat, entry: nat)
    requires c.Ok() && StageFine(c, pre) && v.BaseSized() && c.n == v.n && |pre.levels| < c.n
    requires L <= topL < |pre.adj| && LayerAdj(v, up, L) == pre.adj[L]
    requires AllRegistered(up, pre.levels, |pre.levels|, topL) && entry in Members(pre.levels, L)
    ensures Ready(v, up, L, |pre.levels|, entry, Members(pre.levels, L), c.Cap(L))
  {
    assert LayerFine(pre.adj[L], Members(pre.levels, L), c.Cap(L));
  }

  lemma StillRegistered(up: Uppers, up': Uppers, levels: seq<nat>, id: nat, topL: nat)
    requires AllRegistered(up, levels, id, topL) && SameKeys(up, up')
    ensures AllRegistered(up', levels, id, topL)
  {
    forall K: nat, u: nat | K <= topL && (u == id || u in Members(levels, K)) ensures Registered(up', K, u) {
      assert Registered(up, K, u);
    }
  }

  lemma NextStart(c: Config, gv: Index, dist: seq<int>, pre: Stage, t: Trail, L: nat, after: seq<seq<int>>)
    requires c.Ok() && StageFine(c, pre) && 0 < L < |pre.adj|
    requires Worked(gv, dist, c.ef, c.Cap(L), |pre.levels|, t, pre.adj[L], after) && t.entry in Members(pre.levels, L)
    ensures |t.sorted| > 0 && t.sorted[0].id in Members(pre.levels, L - 1)
  {
    assert LayerFine(pre.adj[L], Members(pre.levels, L), c.Cap(L));
    FoundOnLayer(c, gv, dist, |pre.levels|, t, pre.adj[L], after, pre.levels, L);
  }

  lemma RowsOnlyStep(v: Index, up: Uppers, w: Index, up1: Uppers, x: Index, up2: Uppers, L: nat, topL: nat,
                     after: seq<seq<int>>)
    requires RowsOnly(v, up, w, up1, topL) && Touched(w, up1, x, up2, L, after) && L <= topL
    ensures RowsOnly(v, up, x, up2, topL)
  {
  }

  /** The loop over the layers, with layers lo..topL done. */
  ghost predicate DownInv(c: Config, gv: Index, dist: seq<int>, pre: Stage, v0: Index, up0: Uppers, trail: seq<Trail>,
                          w: Index, up: Uppers, lo: int, topL: nat, entry0: nat, entry: nat) {
    && RowsOnly(v0, up0, w, up, topL) && AllRegistered(up, pre.levels, |pre.levels|, topL)
    && WorkDone(c, gv, dist, pre, |pre.levels|, trail, w, up, lo, topL, entry0)
    && StartsAt(trail, lo, topL, entry0, entry)
    && (lo > 0 ==> entry in Members(pre.levels, lo - 1))
  }

  lemma DownReady(c: Config, gv: Index, dist: seq<int>, pre: Stage, v0: Index, up0: Uppers, trail: seq<Trail>,
                  w: Index, up: Uppers, L: nat, topL: nat, entry0: nat, entry: nat)
    requires c.Ok() && StageFine(c, pre) && c.n == w.n && |pre.levels| < c.n
    requires DownInv(c, gv, dist, pre, v0, up0, trail, w, up, L + 1, topL, entry0, entry)
    ensures Ready(w, up, L, |pre.levels|, entry, Members(pre.levels, L), c.Cap(L)) && LayerAdj(w, up, L) == pre.adj[L]
  {
    MembersReady(c, pre, w, up, L, topL, entry);
  }

  lemma DownStep(c: Config, gv: Index, dist: seq<int>, pre: Stage, v0: Index, up0: Uppers, trail: seq<Trail>,
                 v: Index, up: Uppers, w: Index, up': Uppers, after: seq<seq<int>>, L: nat, topL: nat,
                 entry0: nat, entry: nat, t: Trail)
    requires c.Ok() && StageFine(c, pre) && L <= topL < |pre.adj|
    requires DownInv(c, gv, dist, pre, v0, up0, trail, v, up, L + 1, topL, entry0, entry) && t.entry == entry
    requires Touched(v, up, w, up', L, after) && |t.sorted| > 0
    requires Worked(gv, dist, c.ef, c.Cap(L), |pre.levels|, t, pre.adj[L], after)
    ensures DownInv(c, gv, dist, pre, v0, up0, trail[L := t], w, up', L, topL, entry0, t.sorted[0].id)
  {
    WorkOneMore(c, gv, dist, pre, |pre.levels|, trail, v, up, w, up', after, L, topL, entry0, entry, t);
    RowsOnlyStep(v0, up0, v, up, w, up', L, topL, after);
    StillRegistered(up, up', pre.levels, |pre.levels|, topL);
    if L > 0 {
      NextStart(c, gv, dist, pre, t, L, after);
    }
  }

  lemma DownStart(c: Config, gv: Index, dist: seq<int>, pre: Stage, v0: Index, up0: Uppers, trail: seq<Trail>,
                  topL: nat, entry0: nat)
    requires v0.BaseSized() && topL < |pre.adj| && |trail| == topL + 1
    requires forall K: nat :: K <= topL ==> LayerAdj(v0, up0, K) == pre.adj[K]
    requires AllRegistered(up0, pre.levels, |pre.levels|, topL) && entry0 in Members(pre.levels, topL)
    ensures DownInv(c, gv, dist, pre, v0, up0, trail, v0, up0, topL + 1, topL, entry0, entry0)
  {
  }

  /** The work on one layer, within the loop. */
  method WorkNext(g: Graph, upperConns: Uppers, gv: Index, visits: Visits, efC: nat, q: seq<int>, entry: nat, L: nat,
                  id: nat,
                  ghost c: Config, ghost pre: Stage, ghost v0: Index, ghost up0: Uppers, ghost trail: seq<Trail>,
                  ghost topL: nat, ghost entry0: nat)
      returns (upper': Uppers, next: nat, ghost trail': seq<Trail>)
    requires 1 <= g.m0 <= 255 && g.m >= 1 && efC >= 1 && |q| == DIM
    requires c == Config(g.n, g.m, g.m0, efC) && StageFine(c, pre) && id == |pre.levels| < g.n && L <= topL < |pre.adj|
    requires gv.n == g.n && gv.vectors == g.vectors && visits.Valid() && visits.marks.Length == g.n
    requires |g.vectors| == g.n * DIM
    requires DownInv(c, gv, NodeDistances(gv, q), pre, v0, up0, trail, g.View(), upperConns, L + 1, topL, entry0, entry)
    modifies g`conn0, g`conn0Cnt, visits, visits.marks
    ensures visits.Valid()
    ensures DownInv(c, gv, NodeDistances(gv, q), pre, v0, up0, trail', g.View(), upper', L, topL, entry0, next)
  {
    ghost var v1, dist, t := g.View(), NodeDistances(gv, q), Trail(0, [], []);
    DownReady(c, gv, dist, pre, v0, up0, trail, v1, upperConns, L, topL, entry0, entry);
    upper', next, t := WorkOnLayer(g, upperConns, gv, visits, efC, q, id, entry, L, Members(pre.levels, L));
    ghost var after :| Touched(v1, upperConns, g.View(), upper', L, after)
                    && Worked(gv, dist, efC, c.Cap(L), id, t, pre.adj[L], after);
    DownStep(c, gv, dist, pre, v0, up0, trail, v1, upperConns, g.View(), upper', after, L, topL, entry0, entry, t);
    trail' := trail[L := t];
  }

  /** The loop over the layers, from topL down to 0. */
  method WorkDown(g: Graph, upperConns: Uppers, gv: Index, visits: Visits, efC: nat, q: seq<int>, entry0: nat,
                  topL: nat, id: nat, ghost c: Config, ghost pre: Stage)
      returns (upper': Uppers, ghost trail: seq<Trail>)
    requires 1 <= g.m0 <= 255 && g.m >= 1 && efC >= 1 && |q| == DIM
    requires c == Config(g.n, g.m, g.m0, efC) && StageFine(c, pre) && id == |pre.levels| < g.n && topL < |pre.adj|
    requires gv.n == g.n && gv.vectors == g.vectors && visits.Valid() && visits.marks.Length == g.n
    requires g.View().BaseSized() && forall K: nat :: K <= topL ==> LayerAdj(g.View(), upperConns, K) == pre.adj[K]
    requires AllRegistered(upperConns, pre.levels, id, topL) && entry0 in Members(pre.levels, topL)
    modifies g`conn0, g`conn0Cnt, visits, visits.marks
    ensures visits.Valid() && RowsOnly(old(g.View()), upperConns, g.View(), upper', topL)
    ensures WorkDone(c, gv, NodeDistances(gv, q), pre, id, trail, g.View(), upper', 0, topL, entry0)
  {
    hide Worked, LayerFine;
    ghost var v0, dist := g.View(), NodeDistances(gv, q);
    trail := seq(topL + 1, _ => Trail(0, [], []));
    upper' := upperConns;
    var entry := entry0;
    DownStart(c, gv, dist, pre, v0, upperConns, trail, topL, entry0);
    var lo := topL + 1;
    while lo > 0
      invariant 0 <= lo <= topL + 1 && visits.Valid()
      invariant DownInv(c, gv, dist, pre, v0, upperConns, trail, g.View(), upper', lo, topL, entry0, entry)
    {
      lo := lo - 1;
      upper', entry, trail := WorkNext(g, upper', gv, visits, efC, q, entry, lo, id,
                                       c, pre, v0, upperConns, trail, topL, entry0);
    }
  }

  // ---------- The builder ----------

  /** Entries of the upper-layer maps: on layer L exactly the inserted nodes of level at
      least L. */
  ghost predicate KeysAre(up: Uppers, levels: seq<nat>) {
    forall i, v {:trigger v in up[i]} :: 0 <= i < |up| ==> (v in up[i] <==> 0 <= v < |levels| && levels[v] >= i + 1)
  }

  ghost function StageOf(v: Index, up: Uppers, levels: seq<nat>): (st: Stage)
    requires v.BaseSized()
    ensures |st.adj| == v.maxLayer + 1 && st.levels == levels && st.entry == v.entryPoint
    ensures forall L :: 0 <= L <= v.maxLayer ==> st.adj[L] == LayerAdj(v, up, L)
  {
    Stage(seq(v.maxLayer + 1, L requires 0 <= L <= v.maxLayer => LayerAdj(v, up, L)), levels, v.entryPoint)
  }

  ghost function ConfigOf(v: Index, efC: nat): Config {
    Config(v.n, v.m, v.m0, efC)
  }

  /** What holds of the builder's data between insertions. */
  ghost predicate BuilderFine(v: Index, up: Uppers, levels: seq<nat>, efC: nat) {
    && v.BaseSized() && Clean(v) && ConfigOf(v, efC).Ok() && |levels| <= v.n
    && (levels == [] ==> up == [] && v.maxLayer == 0 && v.entryPoint == 0 && LayerAdj(v, up, 0) == NoRows(v.n))
    && (levels != [] ==>
          StageFine(ConfigOf(v, efC), StageOf(v, up, levels)) && |up| == v.maxLayer && KeysAre(up, levels))
  }

  /** registerOnUpperLayers: an empty entry for the node on every layer up to its level,
      creating layers that do not exist yet. */
  method RegisterOnUpperLayers(upperConns: Uppers, nodeID: nat, level: nat) returns (upper': Uppers)
    ensures |upper'| == if level > |upperConns| then level else |upperConns|
    ensures forall i, v :: 0 <= i < |upper'| ==>
              (v in upper'[i] <==> (i < |upperConns| && v in upperConns[i]) || (v == nodeID && i < level))
    ensures forall i, v :: 0 <= i < |upper'| && v in upper'[i] ==>
              upper'[i][v] == if i < |upperConns| && v in upperConns[i] then upperConns[i][v] else []
  {
    upper' := EnsureLayers(upperConns, level);
    for L := 0 to level
      invariant |upper'| == if level > |upperConns| then level else |upperConns|
      invariant forall i, v :: 0 <= i < |upper'| ==>
                  (v in upper'[i] <==> (i < |upperConns| && v in upperConns[i]) || (v == nodeID && i < L))
      invariant forall i, v :: 0 <= i < |upper'| && v in upper'[i] ==>
                  upper'[i][v] == if i < |upperConns| && v in upperConns[i] then upperConns[i][v] else []
    {
      if nodeID !in upper'[L] {
        upper' := upper'[L := upper'[L][nodeID := []]];
      }
    }
  }

  method EnsureLayers(upperConns: Uppers, upTo: nat) returns (upper': Uppers)
    ensures |upper'| == if upTo > |upperConns| then upTo else |upperConns|
    ensures forall i :: 0 <= i < |upper'| ==> upper'[i] == if i < |upperConns| then upperConns[i] else map[]
  {
    upper' := upperConns;
    while |upper'| < upTo
      invariant |upperConns| <= |upper'| && (|upper'| <= upTo || |upper'| == |upperConns|)
      invariant forall i :: 0 <= i < |upper'| ==> upper'[i] == if i < |upperConns| then upperConns[i] else map[]
    {
      upper' := upper' + [map[]];
    }
  }

  /** Registering adds no edge. */
  lemma RegisterKeepsRows(v: Index, up: Uppers, up': Uppers, K: nat)
    requires v.BaseSized() && |up'| >= |up|
    requires forall i, u :: 0 <= i < |up| && u in up[i] ==> u in up'[i]
    requires forall i, u :: 0 <= i < |up'| && u in up'[i] ==>
              up'[i][u] == if i < |up| && u in up[i] then up[i][u] else []
    ensures LayerAdj(v, up', K) == LayerAdj(v, up, K)
  {
    forall id | 0 <= id < v.n ensures NeighborsAt(v, up', id, K) == NeighborsAt(v, up, id, K) {
    }
  }

  lemma RegisteredKeys(up: Uppers, up1: Uppers, levels: seq<nat>, id: nat, level: nat)
    requires KeysAre(up, levels) && (forall i :: 0 <= i < |levels| ==> levels[i] <= |up|)
    requires forall i, v :: 0 <= i < |up1| ==> (v in up1[i] <==> (i < |up| && v in up[i]) || (v == id && i < level))
    ensures forall i, v {:trigger v in up1[i]} :: 0 <= i < |up1| ==>
              (v in up1[i] <==> (0 <= v < |levels| && levels[v] >= i + 1) || (v == id && i < level))
  {
    forall i, v | 0 <= i < |up1|
      ensures v in up1[i] <==> (0 <= v < |levels| && levels[v] >= i + 1) || (v == id && i < level)
    {
      assert i < |up| ==> (v in up[i] <==> 0 <= v < |levels| && levels[v] >= i + 1);
    }
  }

  lemma RegisteredAll(up: Uppers, levels: seq<nat>, id: nat, level: nat, topL: nat)
    requires id == |levels| && topL <= level && topL <= |up|
    requires forall i, v {:trigger v in up[i]} :: 0 <= i < |up| ==>
               (v in up[i] <==> (0 <= v < |levels| && levels[v] >= i + 1) || (v == id && i < level))
    ensures AllRegistered(up, levels, id, topL)
  {
    forall K: nat, u: nat | K <= topL && (u == id || u in Members(levels, K)) ensures Registered(up, K, u) {
      assert K > 0 ==> u in up[K - 1];
    }
  }

  // ---------- Insert ----------

  lemma FineLevels(c: Config, st: Stage)
    requires StageFine(c, st)
    ensures |st.adj| > 0 && 0 < |st.levels| && forall i :: 0 <= i < |st.levels| ==> st.levels[i] <= |st.adj| - 1
  {
  }

  lemma DescentFacts(c: Config, pre: Stage, dist: seq<int>, level: nat)
    requires StageFine(c, pre) && |dist| == c.n
    ensures |pre.adj| > 0 && pre.entry < c.n && LayersOk(pre.adj, c.n)
    ensures DescendTo(pre.adj, dist, |pre.adj| - 1, level, pre.entry)
              in Members(pre.levels, if level < |pre.adj| - 1 then level else |pre.adj| - 1)
  {
    FineIsLayersOk(c, pre);
    DescentStaysOnLayer(c, pre, dist, |pre.adj| - 1, level, pre.entry);
  }

  /** Phase 1: greedy descent through the layers above the new node's level. */
  method DescendAbove(g: Graph, upperConns: Uppers, q: seq<int>, level: nat, ghost gv: Index, ghost pre: Stage,
                      ghost c: Config)
      returns (entry: nat)
    requires g.View().BaseSized() && |q| == DIM && gv.n == g.n && gv.vectors == g.vectors
    requires pre == StageOf(g.View(), upperConns, pre.levels) && StageFine(c, pre) && c.n == g.n
    ensures LayersOk(pre.adj, g.n)
    ensures entry == DescendTo(pre.adj, NodeDistances(gv, q), |pre.adj| - 1, level, pre.entry)
    ensures entry in Members(pre.levels, if level < |pre.adj| - 1 then level else |pre.adj| - 1)
  {
    hide StageFine, Descend, AdjOk;
    ghost var dist := NodeDistances(gv, q);
    DescentFacts(c, pre, dist, level);
    SameDistances(g.View(), gv, q);
    entry := g.entryPoint;
    var L: nat := g.maxLayer;
    while L > level
      invariant L <= g.maxLayer && entry < g.n
      invariant DescendTo(pre.adj, dist, L, level, entry) == DescendTo(pre.adj, dist, |pre.adj| - 1, level, pre.entry)
    {
      assert LayerSpace(g.View(), upperConns, q, L) == Space(pre.adj[L], dist);
      entry := GreedyDescend(g.View(), upperConns, q, entry, L);
      L := L - 1;
    }
  }

  /** The relation between the stages before and after, from what the phases did. */
  lemma AssembleInserted(c: Config, gv: Index, dist: seq<int>, pre: Stage, post: Stage, level: nat, trail: seq<Trail>,
                         w: Index, up': Uppers, entry0: nat)
    requires StageFine(c, pre) && LayersOk(pre.adj, |dist|) && |dist| == c.n == gv.n == w.n
    requires |gv.vectors| == gv.n * DIM
    requires |pre.levels| < c.n && w.BaseSized()
    requires var top := |pre.adj| - 1;
             var topL := if level < top then level else top;
             && entry0 == DescendTo(pre.adj, dist, top, level, pre.entry)
             && WorkDone(c, gv, dist, pre, |pre.levels|, trail, w, up', 0, topL, entry0)
             && (forall L :: topL < L <= top ==> LayerAdj(w, up', L) == pre.adj[L])
             && (forall L :: top < L < |post.adj| ==> LayerAdj(w, up', L) == NoRows(c.n))
             && |post.adj| == (if level > top then level + 1 else |pre.adj|)
             && post.entry == (if level > top then |pre.levels| else pre.entry)
    requires post.levels == pre.levels + [level]
    requires forall L :: 0 <= L < |post.adj| ==> post.adj[L] == LayerAdj(w, up', L)
    ensures Inserted(c, gv, dist, pre, post, level, trail)
  {
    hide Worked;
  }

  lemma RowsIgnoreEntry(v: Index, w: Index, up: Uppers, K: nat)
    requires v.BaseSized() && w.BaseSized() && v.n == w.n && v.m0 == w.m0 && v.conn0 == w.conn0
    requires v.conn0Cnt == w.conn0Cnt
    ensures LayerAdj(v, up, K) == LayerAdj(w, up, K)
  {
    forall id | 0 <= id < v.n ensures NeighborsAt(v, up, id, K) == NeighborsAt(w, up, id, K) {
      assert v.Layer0Neighbors(id) == w.Layer0Neighbors(id);
    }
  }

  /** A layer on which no node has neighbours. */
  lemma NewLayerEmpty(v: Index, up: Uppers, i: nat)
    requires v.BaseSized() && (i < |up| ==> forall u :: u in up[i] ==> up[i][u] == [])
    ensures LayerAdj(v, up, i + 1) == NoRows(v.n)
  {
  }

  lemma KeysExtend(up: Uppers, up1: Uppers, up2: Uppers, levels: seq<nat>, level: nat)
    requires KeysAre(up, levels) && (forall i :: 0 <= i < |levels| ==> levels[i] <= |up|)
    requires |up1| == (if level > |up| then level else |up|) && SameKeys(up1, up2)
    requires forall i, v :: 0 <= i < |up1| ==>
              (v in up1[i] <==> (i < |up| && v in up[i]) || (v == |levels| && i < level))
    ensures KeysAre(up2, levels + [level])
  {
    forall i, v | 0 <= i < |up2|
      ensures v in up2[i] <==> 0 <= v < |levels + [level]| && (levels + [level])[v] >= i + 1
    {
      assert v in up2[i] <==> v in up1[i];
      assert i < |up| ==> (v in up[i] <==> 0 <= v < |levels| && levels[v] >= i + 1);
      assert 0 <= v < |levels| ==> (levels + [level])[v] == levels[v];
    }
  }

  /** The rows are done on every layer, the entry point is not: layers up to the level have
      been worked on, old layers above it read as before, new ones have no rows. */
  ghost predicate LayersLinked(c: Config, gv: Index, dist: seq<int>, pre: Stage, level: nat, trail: seq<Trail>,
                               v: Index, w: Index, up': Uppers, entry: nat) {
    && |pre.adj| > 0 && v.BaseSized() && w.BaseSized() && (Clean(v) ==> Clean(w))
    && w == v.(conn0 := w.conn0, conn0Cnt := w.conn0Cnt)
    && var top := |pre.adj| - 1;
       var topL := if level < top then level else top;
       && WorkDone(c, gv, dist, pre, |pre.levels|, trail, w, up', 0, topL, entry)
       && (forall L :: topL < L <= top ==> LayerAdj(w, up', L) == pre.adj[L])
       && (forall L :: top < L ==> LayerAdj(w, up', L) == NoRows(w.n))
       && |up'| == (if level > top then level else top) && KeysAre(up', pre.levels + [level])
  }

  lemma RegistrationReady(v: Index, up: Uppers, up1: Uppers, levels: seq<nat>, id: nat, level: nat, topL: nat)
    requires v.BaseSized() && KeysAre(up, levels) && (forall i :: 0 <= i < |levels| ==> levels[i] <= |up|)
    requires id == |levels| && topL <= level && topL <= |up| && |up1| == (if level > |up| then level else |up|)
    requires forall i, u :: 0 <= i < |up1| ==> (u in up1[i] <==> (i < |up| && u in up[i]) || (u == id && i < level))
    requires forall i, u :: 0 <= i < |up1| && u in up1[i] ==>
              up1[i][u] == if i < |up| && u in up[i] then up[i][u] else []
    ensures AllRegistered(up1, levels, id, topL) && forall K: nat :: LayerAdj(v, up1, K) == LayerAdj(v, up, K)
  {
    forall K: nat ensures LayerAdj(v, up1, K) == LayerAdj(v, up, K) {
      RegisterKeepsRows(v, up, up1, K);
    }
    RegisteredKeys(up, up1, levels, id, level);
    RegisteredAll(up1, levels, id, level, topL);
  }

  /** Register the node, then work on its layers from the top one down. */
  method LinkLayers(g: Graph, upperConns: Uppers, gv: Index, visits: Visits, efC: nat, q: seq<int>, entry: nat,
                    level: nat, id: nat, ghost levels: seq<nat>, ghost c: Config)
      returns (upper': Uppers, ghost trail: seq<Trail>)
    requires BuilderFine(g.View(), upperConns, levels, efC) && levels != [] && id == |levels| < g.n
    requires g.m0 <= 255 && |q| == DIM && gv.n == g.n && gv.vectors == g.vectors
    requires visits.Valid() && visits.marks.Length == g.n && c == ConfigOf(g.View(), efC)
    requires entry in Members(levels, if level < g.maxLayer then level else g.maxLayer)
    modifies g`conn0, g`conn0Cnt, visits, visits.marks
    ensures visits.Valid()
    ensures LayersLinked(c, gv, NodeDistances(gv, q), StageOf(old(g.View()), upperConns, levels), level, trail,
                         old(g.View()), g.View(), upper', entry)
  {
    hide StageFine, WorkDone, AdjOk;
    ghost var v0, pre := g.View(), StageOf(g.View(), upperConns, levels);
    FineLevels(c, pre);
    var topL: nat := if g.maxLayer < level then g.maxLayer else level;
    var up1 := RegisterOnUpperLayers(upperConns, id, level);
    RegistrationReady(v0, upperConns, up1, levels, id, level, topL);
    upper', trail := WorkDown(g, up1, gv, visits, efC, q, entry, topL, id, c, pre);
    LayersAbove(v0, upperConns, up1, g.View(), upper', levels, id, level, topL);
    KeysExtend(upperConns, up1, upper', levels, level);
  }

  /** Link a node other than the first into the graph at its level. */
  method LinkNode(g: Graph, upperConns: Uppers, gv: Index, visits: Visits, efC: nat, q: seq<int>, level: nat, id: nat,
                  ghost levels: seq<nat>, ghost c: Config)
      returns (upper': Uppers, ghost trail: seq<Trail>)
    requires BuilderFine(g.View(), upperConns, levels, efC) && levels != [] && id == |levels| < g.n
    requires g.m0 <= 255 && |q| == DIM && gv.n == g.n && gv.vectors == g.vectors
    requires visits.Valid() && visits.marks.Length == g.n && c == ConfigOf(g.View(), efC)
    modifies g`conn0, g`conn0Cnt, g`entryPoint, g`maxLayer, visits, visits.marks
    ensures visits.Valid() && g.View().BaseSized() && Clean(g.View())
    ensures Inserted(c, gv, NodeDistances(gv, q), StageOf(old(g.View()), upperConns, levels),
                     StageOf(g.View(), upper', levels + [level]), level, trail)
    ensures |upper'| == g.maxLayer && KeysAre(upper', levels + [level])
  {
    hide StageFine, Inserted, WorkDone, AdjOk, KeysAre, Clean;
    ghost var pre, dist := StageOf(g.View(), upperConns, levels), NodeDistances(gv, q);
    var entry := DescendAbove(g, upperConns, q, level, gv, pre, c);
    upper', trail := LinkLayers(g, upperConns, gv, visits, efC, q, entry, level, id, levels, c);
    ghost var w := g.View();
    Promote(g, id, level);
    Promoted(w, g.View(), upper');
    AssembleInserted(c, gv, dist, pre, StageOf(g.View(), upper', levels + [level]), level, trail, w, upper', entry);
  }

  /** A node above all others becomes the entry point. */
  method Promote(g: Graph, id: nat, level: nat)
    modifies g`entryPoint, g`maxLayer
    ensures g.View() == if level > old(g.maxLayer) then old(g.View()).(entryPoint := id, maxLayer := level)
                else old(g.View())
  {
    if level > g.maxLayer {
      g.entryPoint := id;
      g.maxLayer := level;
    }
  }

  /** Promotion changes no row. */
  lemma Promoted(v: Index, w: Index, up: Uppers)
    requires v.BaseSized() && w == v.(entryPoint := w.entryPoint, maxLayer := w.maxLayer) && w.maxLayer >= 0
    ensures w.BaseSized() && (Clean(v) ==> Clean(w)) && forall K: nat :: LayerAdj(w, up, K) == LayerAdj(v, up, K)
  {
    forall K: nat ensures LayerAdj(w, up, K) == LayerAdj(v, up, K) {
      RowsIgnoreEntry(v, w, up, K);
    }
    CleanIgnoresEntry(v, w);
  }

  lemma CleanIgnoresEntry(v: Index, w: Index)
    requires v.BaseSized() && w.BaseSized() && v.n == w.n && v.m0 == w.m0 && v.conn0 == w.conn0
    requires v.conn0Cnt == w.conn0Cnt
    ensures Clean(v) ==> Clean(w)
  {
    assert forall id :: 0 <= id < v.n ==> FullRow(v, id) == FullRow(w, id);
  }

  /** Above the layers worked on, old layers keep their rows and new ones have none. */
  lemma LayersAbove(v: Index, up: Uppers, up1: Uppers, w: Index, up2: Uppers, levels: seq<nat>, id: nat, level: nat,
                    topL: nat)
    requires v.BaseSized() && RowsOnly(v, up1, w, up2, topL) && topL <= |up|
    requires |up1| == (if level > |up| then level else |up|)
    requires forall i, u :: 0 <= i < |up1| && u in up1[i] ==>
              up1[i][u] == if i < |up| && u in up[i] then up[i][u] else []
    requires forall K: nat :: LayerAdj(v, up1, K) == LayerAdj(v, up, K)
    ensures forall L :: topL < L <= |up| ==> LayerAdj(w, up2, L) == LayerAdj(v, up, L)
    ensures forall L :: |up| < L ==> LayerAdj(w, up2, L) == NoRows(v.n)
  {
    forall L | |up| < L ensures LayerAdj(w, up2, L) == NoRows(v.n) {
      NewLayerEmpty(v, up1, L - 1);
    }
  }

  // ---------- Vectors and labels ----------

  /** w is v with vector id replaced and label id set, and nothing else changed. */
  ghost predicate Stored(v: Index, w: Index, id: nat, vec: seq<Byte>, fraud: bool) {
    && v.BaseSized() && w.BaseSized() && id < v.n && |vec| == DIM
    && w == v.(vectors := w.vectors, labels := w.labels)
    && (forall k :: 0 <= k < v.n ==> w.VectorAt(k) == if k == id then vec else v.VectorAt(k))
    && (forall k :: 0 <= k < v.n ==> (w.IsFraud(k) <==> if k == id then fraud else v.IsFraud(k)))
  }

  /** SetLabel: set or clear the node's bit. */
  method SetLabel(g: Graph, id: nat, fraud: bool)
    requires g.View().BaseSized() && id < g.n
    modifies g`labels
    ensures g.View().BaseSized()
    ensures forall k :: 0 <= k < g.n ==> (g.View().IsFraud(k) <==> if k == id then fraud else old(g.View()).IsFraud(k))
  {
    var b := g.labels[id / 8];
    g.labels := g.labels[id / 8 := if fraud then SetBit(b, id % 8) else ClearBit(b, id % 8)];
    forall k | 0 <= k < g.n ensures g.View().IsFraud(k) <==> if k == id then fraud else old(g.View()).IsFraud(k) {
      OrBitBits(b, id % 8, k % 8);
      AndNotBitBits(b, id % 8, k % 8);
    }
  }

  method StoreVector(g: Graph, id: nat, vec: seq<Byte>)
    requires g.View().BaseSized() && id < g.n && |vec| == DIM
    modifies g`vectors
    ensures g.View().BaseSized()
    ensures forall k :: 0 <= k < g.n ==> g.View().VectorAt(k) == if k == id then vec else old(g.View()).VectorAt(k)
  {
    g.vectors := g.vectors[..id * DIM] + vec + g.vectors[id * DIM + DIM..];
  }

  method StoreNode(g: Graph, id: nat, vec: seq<Byte>, fraud: bool)
    requires g.View().BaseSized() && id < g.n && |vec| == DIM
    modifies g`vectors, g`labels
    ensures Stored(old(g.View()), g.View(), id, vec, fraud)
  {
    ghost var v0 := g.View();
    StoreVector(g, id, vec);
    ghost var v1 := g.View();
    SetLabel(g, id, fraud);
    forall k | 0 <= k < v0.n
      ensures g.View().VectorAt(k) == if k == id then vec else v0.VectorAt(k)
      ensures g.View().IsFraud(k) <==> if k == id then fraud else v0.IsFraud(k)
    {
      assert g.View().VectorAt(k) == v1.VectorAt(k);
      assert v1.IsFraud(k) == v0.IsFraud(k);
    }
  }

  lemma RowsIgnoreVectors(v: Index, w: Index, up: Uppers, levels: seq<nat>, efC: nat)
    requires BuilderFine(v, up, levels, efC) && w.BaseSized() && w == v.(vectors := w.vectors, labels := w.labels)
    ensures BuilderFine(w, up, levels, efC) && StageOf(w, up, levels) == StageOf(v, up, levels)
  {
    forall K: nat ensures LayerAdj(w, up, K) == LayerAdj(v, up, K) {
      RowsIgnoreEntry(v, w, up, K);
    }
    CleanIgnoresEntry(v, w);
    assert StageOf(w, up, levels) == StageOf(v, up, levels);
  }

  /** The first node: entry point, alone on the layers up to its level. */
  lemma FirstStage(v: Index, up: Uppers, efC: nat, level: nat)
    requires v.BaseSized() && ConfigOf(v, efC).Ok() && v.n >= 1 && v.entryPoint == 0 && v.maxLayer == level == |up|
    requires LayerAdj(v, [], 0) == NoRows(v.n)
    requires forall i, u :: 0 <= i < |up| ==> (u in up[i] <==> u == 0) && (u in up[i] ==> up[i][u] == [])
    ensures First(ConfigOf(v, efC), StageOf(v, up, [level])) && StageFine(ConfigOf(v, efC), StageOf(v, up, [level]))
    ensures KeysAre(up, [level])
  {
    forall L: nat | L <= level ensures LayerAdj(v, up, L) == NoRows(v.n) {
      if L > 0 {
        NewLayerEmpty(v, up, L - 1);
      }
    }
    FirstIsFine(ConfigOf(v, efC), StageOf(v, up, [level]));
  }

  /** First insertion: just become the entry point. */
  method InsertFirst(g: Graph, upperConns: Uppers, efC: nat, level: nat) returns (upper': Uppers)
    requires BuilderFine(g.View(), upperConns, [], efC) && g.n >= 1
    modifies g`entryPoint, g`maxLayer
    ensures BuilderFine(g.View(), upper', [level], efC)
    ensures First(ConfigOf(g.View(), efC), StageOf(g.View(), upper', [level]))
  {
    ghost var view := g.View();
    g.entryPoint := 0;
    g.maxLayer := level;
    upper' := RegisterOnUpperLayers(upperConns, 0, level);
    RowsIgnoreEntry(view, g.View(), [], 0);
    CleanIgnoresEntry(view, g.View());
    FirstStage(g.View(), upper', efC, level);
  }

  /** Any later insertion. */
  method InsertNext(g: Graph, upperConns: Uppers, visits: Visits, efC: nat, q: seq<int>, level: nat, id: nat,
                    ghost levels: seq<nat>)
      returns (upper': Uppers, ghost trail: seq<Trail>)
    requires BuilderFine(g.View(), upperConns, levels, efC) && levels != [] && id == |levels| < g.n
    requires g.m0 <= 255 && |q| == DIM && visits.Valid() && visits.marks.Length == g.n
    modifies g`conn0, g`conn0Cnt, g`entryPoint, g`maxLayer, visits, visits.marks
    ensures visits.Valid() && BuilderFine(g.View(), upper', levels + [level], efC)
    ensures Inserted(ConfigOf(g.View(), efC), old(g.View()), NodeDistances(old(g.View()), q),
                     StageOf(old(g.View()), upperConns, levels), StageOf(g.View(), upper', levels + [level]),
                     level, trail)
  {
    hide Inserted, StageFine;
    var view := g.View();
    ghost var pre := StageOf(view, upperConns, levels);
    upper', trail := LinkNode(g, upperConns, view, visits, efC, q, level, id, levels, ConfigOf(view, efC));
    ghost var post := StageOf(g.View(), upper', levels + [level]);
    InsertKeepsInvariant(ConfigOf(view, efC), view, NodeDistances(view, q), pre, post, level, trail);
    FineLevels(ConfigOf(view, efC), post);
    assert |post.levels| <= g.n;
  }

  /** The build-time state around the graph. */
  class Builder {
    const g: Graph
    const efC: nat
    const visits: Visits
    var levels: seq<nat>
    var upperConns: Uppers
    var inserted: nat

    ghost predicate Valid()
      reads this, g, visits, visits.marks
    {
      && g.m <= 255 && g.m0 <= 255 && g.n < 0x8000_0000
      && |levels| == g.n && inserted <= g.n && visits.Valid() && visits.marks.Length == g.n
      && BuilderFine(g.View(), upperConns, levels[..inserted], efC)
    }

    ghost function Stage(): Stage
      reads this, g
      requires g.View().BaseSized() && inserted <= |levels|
    {
      StageOf(g.View(), upperConns, levels[..inserted])
    }

    /** NewBuilder: room for n nodes, nothing inserted. */
    constructor (n: nat, m: nat, m0: nat, efConstruction: nat)
      requires n < 0x8000_0000 && 1 <= m <= 255 && 1 <= m0 <= 255 && efConstruction >= 1
      ensures Valid() && inserted == 0 && g.n == n && g.m == m && g.m0 == m0 && efC == efConstruction
      ensures fresh(g) && fresh(visits) && fresh(visits.marks)
    {
      g := new Graph(n, m, m0);
      efC := efConstruction;
      visits := new Visits(n);
      levels := seq(n, i requires 0 <= i < n => 0);
      upperConns := [];
      inserted := 0;
      new;
      EmptyIsFine(g.View(), efC);
    }

    /** Insert node id (the next one) with the given vector and label at an arbitrary
        level.  The stage afterwards is a first stage, or related to the one before by the
        insertion relation; gv holds the vectors the insertion measured distances with. */
    method Insert(id: nat, vec: seq<Byte>, fraud: bool, level: nat) returns (ghost gv: Index, ghost trail: seq<Trail>)
      requires Valid() && id == inserted < g.n && |vec| == DIM && level <= 31
      modifies this`levels, this`upperConns, this`inserted, g, visits, visits.marks
      ensures Valid() && inserted == old(inserted) + 1
      ensures g.n == old(g.n) && g.m == old(g.m) && g.m0 == old(g.m0)
      ensures levels == old(levels)[id := level]
      ensures Stored(old(g.View()), gv, id, vec, fraud) && g.vectors == gv.vectors && g.labels == gv.labels
      ensures old(inserted) == 0 ==> First(ConfigOf(g.View(), efC), Stage())
      ensures old(inserted) > 0 ==>
                Inserted(ConfigOf(g.View(), efC), gv, NodeDistances(gv, AsInts(vec)),
                         old(Stage()), Stage(), level, trail)
    {
      hide BuilderFine, Inserted, First;
      ghost var v0, levels0 := g.View(), levels[..inserted];
      FineBase(v0, upperConns, levels0, efC);
      StoreNode(g, id, vec, fraud);
      gv, trail := g.View(), [];
      RowsIgnoreVectors(v0, gv, upperConns, levels0, efC);
      levels := levels[id := level];
      assert levels[..inserted] == levels0 && levels[..inserted + 1] == levels0 + [level];
      if inserted == 0 {
        assert levels0 == [] && levels0 + [level] == [level];
        upperConns := InsertFirst(g, upperConns, efC, level);
      } else {
        upperConns, trail := InsertNext(g, upperConns, visits, efC, AsInts(vec), level, id, levels0);
      }
      FineBase(g.View(), upperConns, levels0 + [level], efC);
      inserted := inserted + 1;
    }
  }

  lemma FineBase(v: Index, up: Uppers, levels: seq<nat>, efC: nat)
    requires BuilderFine(v, up, levels, efC)
    ensures v.BaseSized()
  {
  }

  lemma EmptyIsFine(v: Index, efC: nat)
    requires v.conn0 == Unused(v.n * v.m0) && v.conn0Cnt == Zeros(v.n) && v.labels == Zeros((v.n + 7) / 8)
    requires |v.vectors| == v.n * DIM && v.maxLayer == 0 && v.entryPoint == 0 && v.m >= 1 && v.m0 >= 1 && efC >= 1
    ensures BuilderFine(v, [], [], efC)
  {
    forall id | 0 <= id < v.n ensures CleanRow(FullRow(v, id), v.conn0Cnt[id]) && v.Layer0Neighbors(id) == [] {
      EmptyRow(v, id);
    }
    assert LayerAdj(v, [], 0) == NoRows(v.n);
  }

  lemma EmptyRow(v: Index, id: nat)
    requires v.BaseSized() && v.conn0 == Unused(v.n * v.m0) && v.conn0Cnt == Zeros(v.n) && id < v.n
    ensures CleanRow(FullRow(v, id), v.conn0Cnt[id]) && v.Layer0Neighbors(id) == []
  {
    RowFits(id, v.n, v.m0);
  }
}
