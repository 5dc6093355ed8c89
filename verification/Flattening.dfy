/** Finalize (internal/hnsw/hnsw.go:604-670): the upper-layer maps become the flat rows of
    the runtime graph, which answers the same neighbour lists. */
module Flattening {
  import opened Distance
  import opened GraphIndex
  import opened BuilderSearch
  import opened BuildSteps
  import opened UpperRows
  import opened BaseRows
  import opened Building
  import Reordering

  /** Slot s lists a node of the layer with its whole row, then unused slots. */
  ghost predicate SlotHolds(m: nat, t: Rows, s: nat, layer: map<int, seq<int>>)
    requires t.Sized(m)
  {
    && s < |t.nodes| && t.nodes[s] in layer
    && t.cnts[s] == |layer[t.nodes[s]]| <= m
    && t.Conn(m, s)[..t.cnts[s]] == layer[t.nodes[s]]
    && forall j :: t.cnts[s] <= j < m ==> t.Conn(m, s)[j] == -1
  }

  /** Slots lo..hi list exactly the nodes of the layer, ascending. */
  ghost predicate Segment(m: nat, t: Rows, lo: int, hi: int, layer: map<int, seq<int>>)
    requires t.Sized(m)
  {
    && 0 <= lo <= hi <= |t.nodes| && Ascending(t.nodes[lo..hi])
    && (forall u: int :: u in layer <==> u in t.nodes[lo..hi])
    && (forall s: nat :: lo <= s < hi ==> SlotHolds(m, t, s, layer))
  }

  /** Stands for collecting the keys of a map, in its arbitrary order, and sort.Slice. */
  method SortedKeys(layer: map<int, seq<int>>) returns (ids: seq<int>)
    ensures Ascending(ids) && |ids| == |layer| && forall u: int :: u in layer <==> u in ids
  {
    ids := [];
    var rest := layer.Keys;
    while rest != {}
      invariant Ascending(ids) && forall u: int :: u in layer <==> u in rest || u in ids
      invariant forall u: int :: u in rest ==> u !in ids
      invariant |rest| + |ids| == |layer|
      decreases |rest|
    {
      assert (forall x: int :: x !in rest) ==> rest == {};
      var x :| x in rest;
      rest := rest - {x};
      ids := InsertSorted(ids, x);
    }
  }

  method InsertSorted(ids: seq<int>, x: int) returns (r: seq<int>)
    requires Ascending(ids) && x !in ids
    ensures Ascending(r) && |r| == |ids| + 1 && forall u: int :: u in r <==> u in ids || u == x
  {
    var p := 0;
    while p < |ids| && ids[p] < x
      invariant 0 <= p <= |ids| && forall k :: 0 <= k < p ==> ids[k] < x
    {
      p := p + 1;
    }
    r := ids[..p] + [x] + ids[p..];
    InsertedAscends(ids, x, p);
    InsertedMembers(ids, x, p);
  }

  lemma InsertedAscends(ids: seq<int>, x: int, p: nat)
    requires Ascending(ids) && x !in ids && p <= |ids| && (forall k :: 0 <= k < p ==> ids[k] < x)
    requires p < |ids| ==> ids[p] >= x
    ensures Ascending(ids[..p] + [x] + ids[p..])
  {
    var r := ids[..p] + [x] + ids[p..];
    assert forall i :: 0 <= i < |r| ==> r[i] == if i < p then ids[i] else if i == p then x else ids[i - 1];
  }

  lemma InsertedMembers(ids: seq<int>, x: int, p: nat)
    requires p <= |ids|
    ensures forall u: int :: u in ids[..p] + [x] + ids[p..] <==> u in ids || u == x
  {
    assert ids == ids[..p] + ids[p..];
  }

  /** t' is t with more slots at the end. */
  ghost predicate Extends(m: nat, t: Rows, t': Rows)
    requires t.Sized(m) && t'.Sized(m)
  {
    |t.nodes| <= |t'.nodes| && forall s: nat :: s < |t.nodes| ==> SameSlot(m, t, s, t', s)
  }

  lemma ExtendsAgain(m: nat, a: Rows, b: Rows, c: Rows)
    requires a.Sized(m) && b.Sized(m) && c.Sized(m) && Extends(m, a, b) && Extends(m, b, c)
    ensures Extends(m, a, c)
  {
    forall s: nat | s < |a.nodes| ensures SameSlot(m, a, s, c, s) {
      assert SameSlot(m, a, s, b, s) && SameSlot(m, b, s, c, s);
    }
  }

  lemma SegmentStays(m: nat, t: Rows, t': Rows, lo: int, hi: int, layer: map<int, seq<int>>)
    requires t.Sized(m) && t'.Sized(m) && Segment(m, t, lo, hi, layer) && Extends(m, t, t')
    ensures Segment(m, t', lo, hi, layer)
  {
    forall s: nat | lo <= s < hi ensures SlotHolds(m, t', s, layer) && t'.nodes[s] == t.nodes[s] {
      assert SameSlot(m, t, s, t', s) && SlotHolds(m, t, s, layer);
    }
    assert t'.nodes[lo..hi] == t.nodes[lo..hi];
  }

  /** One slot more: the node, its degree, its row padded with -1. */
  method AddSlot(m: nat, t: Rows, id: int, nb: seq<int>) returns (t': Rows)
    requires t.Sized(m) && |nb| <= m <= 255
    ensures t'.Sized(m) && t'.nodes == t.nodes + [id] && t'.cnts == t.cnts + [|nb|]
    ensures Extends(m, t, t') && t'.Conn(m, |t.nodes|) == nb + Unused(m - |nb|)
  {
    var row := nb + Unused(m - |nb|);
    t' := Rows(t.nodes + [id], t.cnts + [|nb|], t.conns + row);
    assert (|t.nodes| + 1) * m == |t.nodes| * m + m;
    forall s: nat | s < |t.nodes| ensures SameSlot(m, t, s, t', s) {
      RowFits(s, |t.nodes|, m);
      SliceOfPrefix(t.conns, row, s * m, s * m + m);
    }
    SliceOfSuffix(t.conns, row);
  }

  lemma SliceOfSuffix(a: seq<int>, b: seq<int>)
    ensures (a + b)[|a|..|a| + |b|] == b
  {
  }

  /** t' is t with slots for the first i ids appended. */
  ghost predicate Appended(m: nat, t: Rows, t': Rows, layer: map<int, seq<int>>, ids: seq<int>, i: nat) {
    && t.Sized(m) && t'.Sized(m) && Extends(m, t, t') && i <= |ids| && t'.nodes == t.nodes + ids[..i]
    && forall s: nat :: |t.nodes| <= s < |t'.nodes| ==> SlotHolds(m, t', s, layer)
  }

  lemma AppendedStep(m: nat, t: Rows, before: Rows, t': Rows, layer: map<int, seq<int>>, ids: seq<int>, i: nat)
    requires Appended(m, t, before, layer, ids, i) && i < |ids|
    requires t'.Sized(m) && Extends(m, before, t') && t'.nodes == before.nodes + [ids[i]]
    requires SlotHolds(m, t', |before.nodes|, layer)
    ensures Appended(m, t, t', layer, ids, i + 1)
  {
    ExtendsAgain(m, t, before, t');
    assert t.nodes + ids[..i + 1] == t.nodes + ids[..i] + [ids[i]];
    forall s: nat | |t.nodes| <= s < |before.nodes| ensures SlotHolds(m, t', s, layer) {
      assert SlotHolds(m, before, s, layer) && SameSlot(m, before, s, t', s);
    }
  }

  lemma AppendedAll(m: nat, t: Rows, t': Rows, layer: map<int, seq<int>>, ids: seq<int>)
    requires Appended(m, t, t', layer, ids, |ids|) && Ascending(ids) && |ids| == |layer|
    requires forall u: int :: u in ids <==> u in layer
    ensures Segment(m, t', |t.nodes|, |t'.nodes|, layer) && |t'.nodes| == |t.nodes| + |layer|
    ensures forall s :: |t.nodes| <= s < |t'.nodes| ==> t'.nodes[s] in layer
  {
    assert ids[..|ids|] == ids;
    assert t'.nodes[|t.nodes|..|t'.nodes|] == ids;
    hide SlotHolds, Extends;
    forall s | |t.nodes| <= s < |t'.nodes| ensures t'.nodes[s] in layer {
      assert t'.nodes[s] == ids[s - |t.nodes|];
    }
  }

  /** The rows of one layer, appended. */
  method FlattenLayer(m: nat, t: Rows, layer: map<int, seq<int>>) returns (t': Rows)
    requires t.Sized(m) && m <= 255 && forall u: int :: u in layer ==> |layer[u]| <= m
    ensures t'.Sized(m) && Extends(m, t, t') && Segment(m, t', |t.nodes|, |t'.nodes|, layer)
    ensures |t'.nodes| == |t.nodes| + |layer|
    ensures forall s :: |t.nodes| <= s < |t'.nodes| ==> t'.nodes[s] in layer
  {
    var ids := SortedKeys(layer);
    t' := t;
    for i := 0 to |ids|
      invariant Appended(m, t, t', layer, ids, i)
    {
      assert ids[i] in ids;
      var nb := layer[ids[i]];
      var n := if |nb| > m then m else |nb|;
      assert nb[..n] == nb;
      ghost var before := t';
      t' := AddSlot(m, t', ids[i], nb[..n]);
      AppendedStep(m, t, before, t', layer, ids, i);
    }
    AppendedAll(m, t, t', layer, ids);
  }

  // ---------- All layers ----------

  ghost predicate UppersFit(up: Uppers, m: nat, n: nat) {
    forall i, u: int {:trigger u in up[i]} :: 0 <= i < |up| && u in up[i] ==>
      0 <= u < n && |up[i][u]| <= m && RowIn(up[i][u], n)
  }

  /** Segment K of the rows, between off[K] and off[K+1], is layer K+1. */
  ghost predicate Flattened(m: nat, t: Rows, off: seq<int>, up: Uppers, k: nat)
    requires t.Sized(m)
  {
    && k <= |up| && |off| == k + 1 && off[0] == 0 && off[k] == |t.nodes|
    && (forall i, j :: 0 <= i <= j < |off| ==> 0 <= off[i] <= off[j] <= |t.nodes|)
    && (forall K :: 0 <= K < k ==> Segment(m, t, off[K], off[K + 1], up[K]))
  }

  lemma FlattenedStays(m: nat, t: Rows, t': Rows, off: seq<int>, up: Uppers, k: nat)
    requires t.Sized(m) && t'.Sized(m) && Flattened(m, t, off, up, k) && Extends(m, t, t') && k < |up|
    requires Segment(m, t', |t.nodes|, |t'.nodes|, up[k])
    ensures Flattened(m, t', off + [|t'.nodes|], up, k + 1)
  {
    var off' := off + [|t'.nodes|];
    forall K | 0 <= K < k + 1 ensures Segment(m, t', off'[K], off'[K + 1], up[K]) {
      if K < k {
        SegmentStays(m, t, t', off[K], off[K + 1], up[K]);
      }
    }
  }

  /** How many entries the first k upper layers have. */
  ghost function UpperCount(up: Uppers, k: nat): nat
    requires k <= |up|
  {
    if k == 0 then 0 else UpperCount(up, k - 1) + |up[k - 1]|
  }

  /** off holds the offsets narrowed to int32. */
  ghost predicate Narrowed(off: seq<int>, exact: seq<int>) {
    |off| == |exact| && forall i :: 0 <= i < |off| ==> off[i] == Wrap32(exact[i])
  }

  method FlattenLayers(m: nat, up: Uppers, ghost n: nat) returns (t: Rows, off: seq<int>, ghost exact: seq<int>)
    requires m <= 255 && UppersFit(up, m, n)
    ensures t.Sized(m) && Flattened(m, t, exact, up, |up|) && Narrowed(off, exact) && |t.nodes| == UpperCount(up, |up|)
  {
    hide Wrap32;
    t, off, exact := Rows([], [], []), [0], [0];
    for L := 0 to |up|
      invariant t.Sized(m) && Flattened(m, t, exact, up, L) && Narrowed(off, exact) && |t.nodes| == UpperCount(up, L)
    {
      ghost var before := t;
      t := FlattenLayer(m, t, up[L]);
      FlattenedStays(m, before, t, exact, up, L);
      off, exact := off + [Wrap32(|t.nodes|)], exact + [|t.nodes|];
    }
  }

  // ---------- Finalize refines the maps ----------

  ghost function WithUpper(v: Index, t: Rows, off: seq<int>): Index {
    v.(upperOff := off, upperNodes := t.nodes, upperCnt := t.cnts, upperConn := t.conns)
  }

  lemma FinalSized(v: Index, t: Rows, off: seq<int>, up: Uppers)
    requires v.BaseSized() && v.m <= 255 && t.Sized(v.m) && Flattened(v.m, t, off, up, |up|) && |up| == v.maxLayer
    requires UppersFit(up, v.m, v.n)
    ensures WithUpper(v, t, off).Sized()
  {
    forall s | 0 <= s < |t.cnts| ensures t.cnts[s] <= v.m {
      var K := SegmentOf(v.m, t, off, up, s);
    }
  }

  lemma SegmentOf(m: nat, t: Rows, off: seq<int>, up: Uppers, s: nat) returns (K: nat)
    requires t.Sized(m) && Flattened(m, t, off, up, |up|) && s < |t.nodes|
    ensures K < |up| && off[K] <= s < off[K + 1] && SlotHolds(m, t, s, up[K]) && t.nodes[s] in up[K]
  {
    K := SegmentFrom(off, s, 0);
    assert Segment(m, t, off[K], off[K + 1], up[K]);
  }

  lemma SlotRowAgrees(w: Index, m: nat, t: Rows, s: nat, layer: map<int, seq<int>>)
    requires w.Sized() && w.m == m && t.Sized(m) && SlotHolds(m, t, s, layer)
    requires w.upperNodes == t.nodes && w.upperCnt == t.cnts && w.upperConn == t.conns
    ensures w.UpperRow(s) == layer[t.nodes[s]]
  {
    RowFits(s, |t.nodes|, m);
    TakeOfSlice(t.conns, s * m, m, t.cnts[s]);
  }

  /** The flat rows answer the neighbour lists of the maps. */
  lemma FlatRowsAgree(v: Index, t: Rows, off: seq<int>, up: Uppers, id: nat, L: nat)
    requires v.BaseSized() && v.m <= 255 && t.Sized(v.m) && Flattened(v.m, t, off, up, |up|) && |up| == v.maxLayer
    requires UppersFit(up, v.m, v.n) && id < v.n && L <= v.maxLayer
    ensures WithUpper(v, t, off).Sized()
    ensures WithUpper(v, t, off).NeighborsAt(id, L) == NeighborsAt(v, up, id, L)
  {
    FinalSized(v, t, off, up);
    var w := WithUpper(v, t, off);
    if L == 0 {
      assert w.Layer0Neighbors(id) == v.Layer0Neighbors(id);
    } else {
      assert Segment(v.m, t, off[L - 1], off[L], up[L - 1]);
      UpperRowAgrees(w, v.m, t, off, up, id, L);
    }
  }

  lemma UpperRowAgrees(w: Index, m: nat, t: Rows, off: seq<int>, up: Uppers, id: nat, L: nat)
    requires w.Sized() && w.m == m && t.Sized(m) && 1 <= L <= w.maxLayer == |up| && w.upperOff == off
    requires w.upperNodes == t.nodes && w.upperCnt == t.cnts && w.upperConn == t.conns
    requires Segment(m, t, off[L - 1], off[L], up[L - 1])
    ensures w.UpperNeighbors(id, L) == if id in up[L - 1] then up[L - 1][id] else []
  {
    hide Index.UpperRow, SlotHolds;
    var local := IndexOf(w.UpperNodesOf(L), id);
    if local >= 0 {
      var s: nat := off[L - 1] + local;
      assert t.nodes[s] == id && SlotHolds(m, t, s, up[L - 1]);
      SlotRowAgrees(w, m, t, s, up[L - 1]);
    }
  }

  lemma FineUppersFit(v: Index, up: Uppers, levels: seq<nat>, efC: nat)
    requires BuilderFine(v, up, levels, efC)
    ensures UppersFit(up, v.m, v.n)
  {
    forall i, u: int | 0 <= i < |up| && u in up[i] ensures 0 <= u < v.n && |up[i][u]| <= v.m && RowIn(up[i][u], v.n) {
      MemberRowFits(v, up, levels, efC, i, u);
    }
  }

  lemma MemberRowFits(v: Index, up: Uppers, levels: seq<nat>, efC: nat, i: nat, u: int)
    requires BuilderFine(v, up, levels, efC) && i < |up| && u in up[i]
    ensures 0 <= u < v.n && |up[i][u]| <= v.m && RowIn(up[i][u], v.n)
  {
    var c, st := ConfigOf(v, efC), StageOf(v, up, levels);
    assert 0 <= u < |levels| && levels[u] >= i + 1;
    assert LayerFine(st.adj[i + 1], Members(levels, i + 1), c.Cap(i + 1));
    assert st.adj[i + 1][u] == up[i][u];
    assert RowElems(up[i][u], u, Members(levels, i + 1));
  }

  lemma BaseSlotsInRange(v: Index, up: Uppers, levels: seq<nat>, efC: nat, k: nat)
    requires BuilderFine(v, up, levels, efC) && k < |v.conn0|
    ensures -1 <= v.conn0[k] < v.n
  {
    var id := Reordering.RowOf(k, v.n, v.m0);
    RowFits(id, v.n, v.m0);
    var j := k - id * v.m0;
    assert v.conn0[k] == FullRow(v, id)[j];
    assert CleanRow(FullRow(v, id), v.conn0Cnt[id]);
    if j < v.conn0Cnt[id] {
      NeighborsOfFull(v, id);
      var row := v.Layer0Neighbors(id);
      assert row[j] == v.conn0[k];
      BaseRowIn(v, up, levels, efC, id);
    }
  }

  lemma BaseRowIn(v: Index, up: Uppers, levels: seq<nat>, efC: nat, id: nat)
    requires BuilderFine(v, up, levels, efC) && id < v.n
    ensures RowIn(v.Layer0Neighbors(id), v.n)
  {
    assert LayerAdj(v, up, 0)[id] == v.Layer0Neighbors(id);
    if levels == [] {
      return;
    }
    var c, st := ConfigOf(v, efC), StageOf(v, up, levels);
    assert LayerFine(st.adj[0], Members(levels, 0), c.Cap(0));
    assert st.adj[0][id] == v.Layer0Neighbors(id);
    if id in Members(levels, 0) {
      assert RowElems(st.adj[0][id], id, Members(levels, 0));
    }
  }

  lemma UpperSlotsInRange(v: Index, t: Rows, off: seq<int>, up: Uppers, k: nat)
    requires t.Sized(v.m) && Flattened(v.m, t, off, up, |up|) && UppersFit(up, v.m, v.n) && k < |t.conns|
    ensures -1 <= t.conns[k] < v.n
  {
    hide Flattened, SlotHolds;
    var s, col := Reordering.ConnInRow(t, v.m, k);
    var K := SegmentOf(v.m, t, off, up, s);
    RowOfUpper(up, v.m, v.n, K, t.nodes[s]);
    SlotCell(v.m, t, s, up[K], v.n, col);
  }

  lemma RowOfUpper(up: Uppers, m: nat, n: nat, K: nat, u: int)
    requires UppersFit(up, m, n) && K < |up| && u in up[K]
    ensures RowIn(up[K][u], n)
  {
  }

  lemma SlotCell(m: nat, t: Rows, s: nat, layer: map<int, seq<int>>, n: nat, j: nat)
    requires t.Sized(m) && SlotHolds(m, t, s, layer) && j < m && RowIn(layer[t.nodes[s]], n)
    ensures -1 <= t.Conn(m, s)[j] < n
  {
    if j < t.cnts[s] {
      assert t.Conn(m, s)[..t.cnts[s]][j] == t.Conn(m, s)[j];
    }
  }

  /** The finalized index is what the query code relies on. */
  lemma FinalIsWellFormed(v: Index, t: Rows, off: seq<int>, up: Uppers, levels: seq<nat>, efC: nat)
    requires BuilderFine(v, up, levels, efC) && 0 < v.n < 0x8000_0000 && v.m <= 255 && |up| == v.maxLayer
    requires t.Sized(v.m) && Flattened(v.m, t, off, up, |up|) && UppersFit(up, v.m, v.n)
    ensures WithUpper(v, t, off).WellFormed()
  {
    FinalSized(v, t, off, up);
    var w := WithUpper(v, t, off);
    forall k | 0 <= k < |w.conn0| ensures -1 <= w.conn0[k] < w.n {
      BaseSlotsInRange(v, up, levels, efC, k);
    }
    forall k | 0 <= k < |w.upperConn| ensures -1 <= w.upperConn[k] < w.n {
      UpperSlotsInRange(v, t, off, up, k);
    }
    forall s | 0 <= s < |w.upperNodes| ensures 0 <= w.upperNodes[s] < w.n {
      var K := SegmentOf(v.m, t, off, up, s);
      assert t.nodes[s] in up[K];
    }
    forall L | 1 <= L <= w.maxLayer ensures Ascending(w.UpperNodesOf(L)) {
      assert Segment(v.m, t, off[L - 1], off[L], up[L - 1]);
    }
    assert w.entryPoint < w.n;
  }

  /** Narrowing changes no offset exactly when the entries number fewer than 2^31. */
  lemma NarrowingIsExact(m: nat, t: Rows, off: seq<int>, exact: seq<int>, up: Uppers)
    requires t.Sized(m) && Flattened(m, t, exact, up, |up|) && Narrowed(off, exact)
    ensures |t.nodes| < 0x8000_0000 ==> off == exact
    ensures |t.nodes| >= 0x8000_0000 ==> off[|up|] != |t.nodes|
  {
  }

  /** Flatten the upper-layer maps into the runtime layout.  The graph is then well formed
      exactly when the upper-layer entries number fewer than 2^31, as the int32 offsets
      need; and every neighbour list, on every layer, is then the one the builder had. */
  method Finalize(b: Builder)
    requires b.Valid() && b.g.n > 0
    modifies b.g`upperOff, b.g`upperNodes, b.g`upperCnt, b.g`upperConn
    ensures b.Valid()
    ensures b.g.View().WellFormed() <==> UpperCount(b.upperConns, |b.upperConns|) < 0x8000_0000
    ensures |b.g.upperNodes| == UpperCount(b.upperConns, |b.upperConns|)
    ensures b.g.View().WellFormed() ==> forall id, L: nat :: 0 <= id < b.g.n && L <= b.g.maxLayer ==>
              b.g.View().NeighborsAt(id, L) == NeighborsAt(old(b.g.View()), b.upperConns, id, L)
  {
    ghost var v, levels := b.g.View(), b.levels[..b.inserted];
    FineUppersFit(v, b.upperConns, levels, b.efC);
    FineHeight(v, b.upperConns, levels, b.efC);
    var t, off := Rows([], [], []), [0];
    ghost var exact := [0];
    if b.g.maxLayer > 0 {
      t, off, exact := FlattenLayers(b.g.m, b.upperConns, b.g.n);
    }
    b.g.SetUpper(off, t.nodes, t.cnts, t.conns);
    assert b.g.View() == WithUpper(v, t, off);
    NarrowingIsExact(v.m, t, off, exact, b.upperConns);
    if |t.nodes| < 0x8000_0000 {
      FinalAgrees(v, t, off, b.upperConns, levels, b.efC);
    }
    FineIgnoresUpper(v, b.g.View(), b.upperConns, levels, b.efC);
  }

  lemma FinalAgrees(v: Index, t: Rows, off: seq<int>, up: Uppers, levels: seq<nat>, efC: nat)
    requires BuilderFine(v, up, levels, efC) && 0 < v.n < 0x8000_0000 && v.m <= 255 && |up| == v.maxLayer
    requires t.Sized(v.m) && Flattened(v.m, t, off, up, |up|) && UppersFit(up, v.m, v.n)
    ensures WithUpper(v, t, off).WellFormed()
    ensures forall id, L: nat :: 0 <= id < v.n && L <= v.maxLayer ==>
              WithUpper(v, t, off).NeighborsAt(id, L) == NeighborsAt(v, up, id, L)
  {
    FinalIsWellFormed(v, t, off, up, levels, efC);
    forall id, L: nat | 0 <= id < v.n && L <= v.maxLayer
      ensures WithUpper(v, t, off).NeighborsAt(id, L) == NeighborsAt(v, up, id, L)
    {
      FlatRowsAgree(v, t, off, up, id, L);
    }
  }

  lemma FineHeight(v: Index, up: Uppers, levels: seq<nat>, efC: nat)
    requires BuilderFine(v, up, levels, efC)
    ensures |up| == v.maxLayer
  {
  }

  lemma FineIgnoresUpper(v: Index, w: Index, up: Uppers, levels: seq<nat>, efC: nat)
    requires BuilderFine(v, up, levels, efC)
    requires w == v.(upperOff := w.upperOff, upperNodes := w.upperNodes,
                     upperCnt := w.upperCnt, upperConn := w.upperConn)
    ensures BuilderFine(w, up, levels, efC)
  {
    forall K: nat ensures LayerAdj(w, up, K) == LayerAdj(v, up, K) {
      RowsIgnoreEntry(v, w, up, K);
    }
    CleanIgnoresEntry(v, w);
    assert StageOf(w, up, levels) == StageOf(v, up, levels);
  }
}
