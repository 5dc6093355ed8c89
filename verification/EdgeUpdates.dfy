/** Edges of the graph under construction: adding one, re-choosing a full row, pruning
    (addEdge, relinkLayer0, pruneIfOverCapacity in internal/hnsw/hnsw.go). */
module EdgeUpdates {
  import opened Distance
  import opened CandidateHeap
  import opened GraphIndex
  import opened NeighborSelection
  import opened BuilderSearch
  import opened BaseRows
  import opened BuildSteps

  ghost predicate SameKeys(a: Uppers, b: Uppers) {
    |a| == |b| && forall i :: 0 <= i < |a| ==> a[i].Keys == b[i].Keys
  }

  /** From (v, up) to (w, up') only layer L changed, to adj. */
  ghost predicate Touched(v: Index, up: Uppers, w: Index, up': Uppers, L: nat, adj: seq<seq<int>>) {
    && v.BaseSized() && w.BaseSized() && (Clean(v) ==> Clean(w))
    && w == v.(conn0 := w.conn0, conn0Cnt := w.conn0Cnt) && SameKeys(up, up')
    && LayerAdj(w, up', L) == adj
    && forall K: nat :: K != L ==> LayerAdj(w, up', K) == LayerAdj(v, up, K)
  }

  lemma TouchedAgain(v0: Index, up0: Uppers, v1: Index, up1: Uppers, v2: Index, up2: Uppers, L: nat, a1: seq<seq<int>>,
                     a2: seq<seq<int>>)
    requires Touched(v0, up0, v1, up1, L, a1) && Touched(v1, up1, v2, up2, L, a2)
    ensures Touched(v0, up0, v2, up2, L, a2)
  {
  }

  lemma TouchedUpper(v: Index, up: Uppers, L: nat, src: nat, row: seq<int>)
    requires v.BaseSized() && 1 <= L <= |up| && src in up[L - 1] && src < v.n
    ensures Touched(v, up, v, up[L - 1 := up[L - 1][src := row]], L, LayerAdj(v, up, L)[src := row])
  {
    var up' := up[L - 1 := up[L - 1][src := row]];
    assert LayerAdj(v, up', L) == LayerAdj(v, up, L)[src := row];
    forall K: nat | K != L ensures LayerAdj(v, up', K) == LayerAdj(v, up, K) {
      assert forall id :: 0 <= id < v.n ==> NeighborsAt(v, up', id, K) == NeighborsAt(v, up, id, K);
    }
  }

  lemma TouchedBase(v: Index, w: Index, up: Uppers, src: nat, row: seq<int>)
    requires v.BaseSized() && w.BaseSized() && (Clean(v) ==> Clean(w)) && src < v.n
    requires w == v.(conn0 := w.conn0, conn0Cnt := w.conn0Cnt)
    requires forall id :: 0 <= id < v.n ==> w.Layer0Neighbors(id) == if id == src then row else v.Layer0Neighbors(id)
    ensures Touched(v, up, w, up, 0, LayerAdj(v, up, 0)[src := row])
  {
    assert LayerAdj(w, up, 0) == LayerAdj(v, up, 0)[src := row];
    forall K: nat | K != 0 ensures LayerAdj(w, up, K) == LayerAdj(v, up, K) {
      assert forall id :: 0 <= id < v.n ==> NeighborsAt(w, up, id, K) == NeighborsAt(v, up, id, K);
    }
  }

  lemma RowLength(v: Index, id: nat)
    requires v.BaseSized() && id < v.n
    ensures |v.Layer0Neighbors(id)| == v.conn0Cnt[id] <= v.m0
  {
    RowFits(id, v.n, v.m0);
  }

  /** The neighbours of s with their distances from s. */
  method MeasureRow(gv: Index, s: nat, row: seq<int>) returns (cands: array<Item>)
    requires |gv.vectors| == gv.n * DIM && s < gv.n && RowIn(row, gv.n)
    ensures fresh(cands) && cands[..] == RowItems(gv, s, row)
  {
    hide NodeDist;
    cands := new Item[|row|](_ => Item(0, 0));
    for i := 0 to |row|
      invariant forall k :: 0 <= k < i ==> cands[k] == Item(row[k], NodeDist(gv, s, row[k]))
    {
      cands[i] := Item(row[i], NodeDist(gv, s, row[i]));
    }
  }

  /** The ids of the first count items. */
  method IdsOfHead(cands: array<Item>, count: nat) returns (ids: seq<int>)
    requires count <= cands.Length
    ensures ids == IdsOf(cands[..count])
  {
    ids := [];
    for i := 0 to count
      invariant |ids| == i && forall k :: 0 <= k < i ==> ids[k] == cands[k].id
    {
      ids := ids + [cands[i].id];
    }
  }

  /** Re-choose a row: at most cap of the given neighbours of s. */
  method Rechoose(gv: Index, s: nat, row: seq<int>, cap: nat) returns (ids: seq<int>)
    requires |gv.vectors| == gv.n * DIM && s < gv.n && RowIn(row, gv.n) && cap >= 1
    ensures Relinked(gv, s, row, cap, ids) && |ids| <= cap
  {
    hide NodeDist, Select;
    var cands := MeasureRow(gv, s, row);
    var count, sorted := SelectNeighborsHeuristic(gv, cands, cap);
    SelectSubset(gv, sorted, cap);
    ids := IdsOfHead(cands, count);
    assert ChosenFrom(gv, s, row, cap, ids, sorted);
  }

  /** The row of s after adding neighbour d the way addEdge does. */
  ghost predicate Added(gv: Index, s: nat, row: seq<int>, d: int, L: nat, m0: nat, row': seq<int>) {
    if L > 0 || |row| < m0 then row' == row + [d]
    else if d in row then row' == row
    else Relinked(gv, s, row + [d], m0, row') && |row'| <= m0
  }

  /** Add the directed edge src -> dst at layer L; returns the new row. */
  method AddEdge(g: Graph, upperConns: Uppers, gv: Index, src: nat, dst: nat, L: nat)
      returns (upper': Uppers, ghost row: seq<int>)
    requires g.View().BaseSized() && 1 <= g.m0 <= 255 && src < g.n && dst < g.n
    requires gv.n == g.n && |gv.vectors| == gv.n * DIM
    requires L <= |upperConns| && (L > 0 ==> src in upperConns[L - 1])
    requires RowIn(NeighborsAt(g.View(), upperConns, src, L), g.n)
    modifies g`conn0, g`conn0Cnt
    ensures Added(gv, src, old(NeighborsAt(g.View(), upperConns, src, L)), dst, L, g.m0, row)
    ensures Touched(old(g.View()), upperConns, g.View(), upper', L, old(LayerAdj(g.View(), upperConns, L))[src := row])
  {
    ghost var v := g.View();
    upper' := upperConns;
    if L == 0 {
      ghost var before := v.Layer0Neighbors(src);
      RowLength(v, src);
      if g.conn0Cnt[src] < g.m0 {
        AppendSlot(g, src, dst);
        row := before + [dst];
      } else {
        ghost var sorted := RelinkLayer0(g, gv, src, dst);
        row := g.View().Layer0Neighbors(src);
        RowLength(g.View(), src);
      }
      TouchedBase(v, g.View(), upperConns, src, row);
      return;
    }
    row := upperConns[L - 1][src] + [dst];
    upper' := upperConns[L - 1 := upperConns[L - 1][src := upperConns[L - 1][src] + [dst]]];
    TouchedUpper(v, upperConns, L, src, row);
  }

  /** Candidate p of sorted is node d, and the heuristic keeps it. */
  ghost predicate NewEdgeKept(g: Index, sorted: seq<Item>, cap: nat, d: int, p: nat)
    requires Usable(g, sorted)
  {
    p < |sorted| && sorted[p].id == d && Keeps(g, sorted, cap, KeptOf(g, sorted, cap, p), p)
  }

  /** A full row and a new neighbour d: the row stays full exactly when all but one of the
      candidates clear each other and that one comes last or is not clear of an earlier one;
      the new edge is admitted exactly when fewer than cap of the candidates before it were
      kept and it clears all of those. */
  ghost predicate FullRowChosen(g: Index, s: nat, row: seq<int>, d: int, cap: nat, row': seq<int>, sorted: seq<Item>) {
    && ChosenFrom(g, s, row + [d], cap, row', sorted)
    && (|row'| == cap <==> exists j :: OneOut(g, sorted, j))
    && (d in row' <==> exists p :: NewEdgeKept(g, sorted, cap, d, p))
  }

  lemma NewEdgeExactly(g: Index, sorted: seq<Item>, cap: nat, d: int)
    requires Usable(g, sorted) && cap < |sorted|
    ensures d in IdsOf(Select(g, sorted, cap)) <==> exists p :: NewEdgeKept(g, sorted, cap, d, p)
  {
    hide Select, Keeps;
    var kept := Select(g, sorted, cap);
    if d in IdsOf(kept) {
      var k :| 0 <= k < |kept| && kept[k].id == d;
      PositionKept(g, sorted, cap, kept[k]);
      var p :| 0 <= p < |sorted| && sorted[p] == kept[k] && Keeps(g, sorted, cap, KeptOf(g, sorted, cap, p), p);
      assert NewEdgeKept(g, sorted, cap, d, p);
    }
    if p: nat :| NewEdgeKept(g, sorted, cap, d, p) {
      PositionKept(g, sorted, cap, sorted[p]);
      var k :| 0 <= k < |kept| && kept[k] == sorted[p];
      assert IdsOf(kept)[k] == d;
    }
  }

  lemma FullRowRelinked(g: Index, s: nat, row: seq<int>, d: int, cap: nat, row': seq<int>) returns (sorted: seq<Item>)
    requires Relinked(g, s, row + [d], cap, row') && |row| == cap >= 1
    ensures FullRowChosen(g, s, row, d, cap, row', sorted)
  {
    hide OneOut, Select, Keeps, NewEdgeKept;
    sorted :| ChosenFrom(g, s, row + [d], cap, row', sorted);
    SortedMembers(RowItems(g, s, row + [d]), sorted);
    FullSelection(g, sorted, cap);
    NewEdgeExactly(g, sorted, cap, d);
  }

  /** The over-capacity path at the base layer: nothing if dst is a neighbour already, else
      the heuristic's choice among the neighbours and dst. */
  method RelinkLayer0(g: Graph, gv: Index, src: nat, dst: nat) returns (ghost sorted: seq<Item>)
    requires g.View().BaseSized() && 1 <= g.m0 <= 255 && src < g.n && dst < g.n
    requires gv.n == g.n && |gv.vectors| == gv.n * DIM
    requires RowIn(g.View().Layer0Neighbors(src), g.n)
    modifies g`conn0, g`conn0Cnt
    ensures g.View().BaseSized() && (old(Clean(g.View())) ==> Clean(g.View()))
    ensures var row := old(g.View().Layer0Neighbors(src));
            if dst in row then g.View() == old(g.View())
            else Relinked(gv, src, row + [dst], g.m0, g.View().Layer0Neighbors(src)) && g.conn0Cnt[src] <= g.m0
    ensures var row := old(g.View().Layer0Neighbors(src));
            dst !in row && |row| == g.m0 ==>
              FullRowChosen(gv, src, row, dst, g.m0, g.View().Layer0Neighbors(src), sorted)
    ensures forall id :: 0 <= id < g.n && id != src ==>
              g.View().Layer0Neighbors(id) == old(g.View()).Layer0Neighbors(id)
  {
    hide FullRowChosen, Relinked, Clean, Index.Layer0Neighbors;
    var row := g.View().Layer0Neighbors(src);
    sorted := [];
    for i := 0 to |row|
      invariant dst !in row[..i]
    {
      if row[i] == dst {
        return;
      }
    }
    assert row[..|row|] == row;
    var kept := Rechoose(gv, src, row + [dst], g.m0);
    if |row| == g.m0 {
      sorted := FullRowRelinked(gv, src, row, dst, g.m0, kept);
    }
    WriteRow(g, src, kept);
    RowLength(g.View(), src);
  }

  /** Trim the row of a node at layer L back to its cap. */
  method PruneIfOverCapacity(g: Graph, upperConns: Uppers, gv: Index, node: nat, L: nat)
      returns (upper': Uppers, ghost row: seq<int>)
    requires g.View().BaseSized() && 1 <= g.m0 <= 255 && g.m >= 1 && node < g.n
    requires gv.n == g.n && |gv.vectors| == gv.n * DIM
    requires L <= |upperConns| && (L > 0 ==> node in upperConns[L - 1])
    requires RowIn(NeighborsAt(g.View(), upperConns, node, L), g.n)
    modifies g`conn0, g`conn0Cnt
    ensures var limit := if L == 0 then g.m0 else g.m;
            var was := old(NeighborsAt(g.View(), upperConns, node, L));
            if |was| <= limit then row == was else Relinked(gv, node, was, limit, row)
    ensures Touched(old(g.View()), upperConns, g.View(), upper', L, old(LayerAdj(g.View(), upperConns, L))[node := row])
  {
    ghost var v := g.View();
    var limit := if L == 0 then g.m0 else g.m;
    var current := NeighborsAt(g.View(), upperConns, node, L);
    upper', row := upperConns, current;
    if |current| <= limit {
      assert LayerAdj(v, upperConns, L)[node := current] == LayerAdj(v, upperConns, L);
      return;
    }
    var kept := Rechoose(gv, node, current, limit);
    row := kept;
    if L == 0 {
      WriteRow(g, node, kept);
      TouchedBase(v, g.View(), upperConns, node, kept);
      return;
    }
    upper' := upperConns[L - 1 := upperConns[L - 1][node := kept]];
    TouchedUpper(v, upperConns, L, node, kept);
  }
}
