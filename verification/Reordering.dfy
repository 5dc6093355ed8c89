/** Reorder (internal/hnsw/reorder.go): every buffer of the graph is rewritten under the
    breadth-first numbering.  The result is the same labelled graph under new names, so
    queries are renamed along. */
module Reordering {
  import opened Distance
  import opened Bits
  import opened Network
  import opened Relabelling
  import opened GraphIndex
  import opened QueryEngine
  import opened BreadthFirst
  import opened PermutedBuffers
  import opened UpperRows

  /** b is a with node v renamed pi[v]: vectors, labels, neighbour lists in order on every
      layer, entry point. */
  ghost predicate Isomorphic(pi: seq<nat>, a: Index, b: Index)
    requires a.WellFormed() && b.WellFormed()
  {
    && IsPerm(pi) && |pi| == a.n == b.n && a.m == b.m && a.m0 == b.m0 && a.maxLayer == b.maxLayer
    && b.entryPoint == pi[a.entryPoint]
    && (forall v :: 0 <= v < a.n ==> b.VectorAt(pi[v]) == a.VectorAt(v))
    && (forall v :: 0 <= v < a.n ==> (b.IsFraud(pi[v]) <==> a.IsFraud(v)))
    && (forall v, L :: 0 <= v < a.n && 0 <= L <= a.maxLayer ==>
          b.NeighborsAt(pi[v], L) == MapRow(pi, a.NeighborsAt(v, L)))
  }

  // ---------- Upper layers ----------

  ghost predicate OffsetsOk(off: seq<int>, maxLayer: nat, total: nat) {
    && |off| == maxLayer + 1 && off[0] == 0 && off[maxLayer] == total
    && forall i, j :: 0 <= i <= j < |off| ==> 0 <= off[i] <= off[j] <= total
  }

  /** Layer K of b is layer K of a, sorted. */
  ghost predicate LayerSorted(m: nat, a: Rows, b: Rows, off: seq<int>, maxLayer: nat, K: nat)
    requires a.Sized(m) && b.Sized(m) && |a.nodes| == |b.nodes| && OffsetsOk(off, maxLayer, |a.nodes|)
    requires 1 <= K <= maxLayer
  {
    Shuffled(m, a, b, off[K - 1], off[K]) && Ascending(b.nodes[off[K - 1]..off[K]])
  }

  lemma LayerStaysSorted(m: nat, a: Rows, b: Rows, c: Rows, off: seq<int>, maxLayer: nat, K: nat, start: nat)
    requires a.Sized(m) && b.Sized(m) && c.Sized(m) && |a.nodes| == |b.nodes| == |c.nodes|
    requires OffsetsOk(off, maxLayer, |a.nodes|) && 1 <= K <= maxLayer && off[K] <= start <= |a.nodes|
    requires LayerSorted(m, a, b, off, maxLayer, K) && Unchanged(m, b, c, 0, start)
    ensures LayerSorted(m, a, c, off, maxLayer, K)
  {
    var lo: nat, hi: nat := off[K - 1], off[K];
    forall j: nat | lo <= j < hi ensures SlotIn(m, a, j, c, lo, hi) {
      assert SlotIn(m, a, j, b, lo, hi);
      var i: nat :| lo <= i < hi && SameSlot(m, a, j, b, i);
      assert SameSlot(m, b, i, c, i);
      assert SameSlot(m, a, j, c, i);
    }
    forall i: nat | lo <= i < hi ensures SlotIn(m, c, i, a, lo, hi) {
      assert SlotIn(m, b, i, a, lo, hi);
      var j: nat :| lo <= j < hi && SameSlot(m, b, i, a, j);
      assert SameSlot(m, b, i, c, i);
      assert SameSlot(m, c, i, a, j);
    }
    forall k | 0 <= k < hi - lo ensures c.nodes[lo..hi][k] == b.nodes[lo..hi][k] {
      assert SameSlot(m, b, lo + k, c, lo + k);
    }
  }

  lemma LayerJustSorted(m: nat, a: Rows, b: Rows, c: Rows, lo: nat, hi: nat)
    requires a.Sized(m) && b.Sized(m) && c.Sized(m) && |a.nodes| == |b.nodes| == |c.nodes| && lo <= hi <= |a.nodes|
    requires Unchanged(m, a, b, lo, |a.nodes|) && Shuffled(m, b, c, lo, hi)
    ensures Shuffled(m, a, c, lo, hi)
  {
    forall j: nat | lo <= j < hi ensures SlotIn(m, a, j, c, lo, hi) {
      assert SameSlot(m, a, j, b, j) && SlotIn(m, b, j, c, lo, hi);
      var i: nat :| lo <= i < hi && SameSlot(m, b, j, c, i);
      assert SameSlot(m, a, j, c, i);
    }
    forall i: nat | lo <= i < hi ensures SlotIn(m, c, i, a, lo, hi) {
      assert SlotIn(m, c, i, b, lo, hi);
      var j: nat :| lo <= j < hi && SameSlot(m, c, i, b, j);
      assert SameSlot(m, a, j, b, j);
      assert SameSlot(m, c, i, a, j);
    }
  }

  lemma RestUnchanged(m: nat, a: Rows, b: Rows, c: Rows, lo: nat, hi: nat)
    requires a.Sized(m) && b.Sized(m) && c.Sized(m) && |a.nodes| == |b.nodes| == |c.nodes| && lo <= hi <= |a.nodes|
    requires Unchanged(m, a, b, lo, |a.nodes|) && Unchanged(m, b, c, hi, |a.nodes|)
    ensures Unchanged(m, a, c, hi, |a.nodes|)
  {
    forall i: nat | hi <= i < |a.nodes| ensures SameSlot(m, a, i, c, i) {
      assert SameSlot(m, a, i, b, i) && SameSlot(m, b, i, c, i);
    }
  }

  ghost predicate DistinctPerLayer(nodes: seq<int>, off: seq<int>, maxLayer: nat)
    requires OffsetsOk(off, maxLayer, |nodes|)
  {
    forall K, i, j :: 1 <= K <= maxLayer && off[K - 1] <= i < j < off[K] ==> nodes[i] != nodes[j]
  }

  /** Every layer sorted in turn. */
  method SortLayers(m: nat, t: Rows, off: seq<int>, maxLayer: nat) returns (r: Rows)
    requires t.Sized(m) && OffsetsOk(off, maxLayer, |t.nodes|) && DistinctPerLayer(t.nodes, off, maxLayer)
    ensures r.Sized(m) && |r.nodes| == |t.nodes|
    ensures forall K :: 1 <= K <= maxLayer ==> LayerSorted(m, t, r, off, maxLayer, K)
  {
    r := t;
    var L := 1;
    AllUnchanged(m, t, 0, 0);
    while L <= maxLayer
      invariant 1 <= L <= maxLayer + 1 && r.Sized(m) && |r.nodes| == |t.nodes|
      invariant Unchanged(m, t, r, off[L - 1], |t.nodes|)
      invariant forall K :: 1 <= K < L ==> LayerSorted(m, t, r, off, maxLayer, K)
    {
      var start, end := off[L - 1], off[L];
      forall i, j | start <= i < j < end ensures r.nodes[i] != r.nodes[j] {
        assert SameSlot(m, t, i, r, i) && SameSlot(m, t, j, r, j);
      }
      ghost var before := r;
      r := SortUpperLayer(m, r, start, end);
      LayerJustSorted(m, t, before, r, start, end);
      RestUnchanged(m, t, before, r, start, end);
      forall K | 1 <= K < L ensures LayerSorted(m, t, r, off, maxLayer, K) {
        LayerStaysSorted(m, t, before, r, off, maxLayer, K, start);
      }
      L := L + 1;
    }
  }

  /** Node ids and connections renamed in place, slot by slot. */
  method RemapSlots(slots: seq<int>, num: array<int>, ghost pi: seq<nat>) returns (mapped: seq<int>)
    requires IsNumbering(num[..], pi) && forall i :: 0 <= i < |slots| ==> -1 <= slots[i] < |pi|
    ensures mapped == MapRow(pi, slots)
  {
    mapped := slots;
    for i := 0 to |slots|
      invariant |mapped| == |slots|
      invariant forall k :: 0 <= k < i ==> mapped[k] == MapSlot(pi, slots[k])
      invariant forall k :: i <= k < |slots| ==> mapped[k] == slots[k]
    {
      if mapped[i] >= 0 {
        mapped := mapped[i := num[mapped[i]]];
      }
    }
  }

  ghost function UpperPart(g: Index): Rows {
    Rows(g.upperNodes, g.upperCnt, g.upperConn)
  }

  /** The upper part with every id renamed, rows not moved yet. */
  ghost function Remapped(pi: seq<nat>, g: Index): (t: Rows)
    ensures |t.nodes| == |g.upperNodes| && |t.conns| == |g.upperConn|
  {
    Rows(MapRow(pi, g.upperNodes), g.upperCnt, MapRow(pi, g.upperConn))
  }

  lemma SlotsStayDistinct(pi: seq<nat>, x: int, y: int)
    requires IsPerm(pi) && 0 <= x < |pi| && 0 <= y < |pi| && x != y
    ensures MapSlot(pi, x) != MapSlot(pi, y)
  {
  }

  lemma LayerAscends(a: Index, K: nat, i: nat, j: nat)
    requires a.WellFormed() && 1 <= K <= a.maxLayer && a.upperOff[K - 1] <= i < j < a.upperOff[K]
    ensures a.upperNodes[i] < a.upperNodes[j]
  {
    var layer, lo := a.UpperNodesOf(K), a.upperOff[K - 1];
    assert Ascending(layer);
    assert a.upperNodes[i] == layer[i - lo] && a.upperNodes[j] == layer[j - lo];
  }

  lemma RemappedIsDistinct(pi: seq<nat>, a: Index)
    requires a.WellFormed() && IsPerm(pi) && |pi| == a.n
    ensures DistinctPerLayer(Remapped(pi, a).nodes, a.upperOff, a.maxLayer)
  {
    var nodes := MapRow(pi, a.upperNodes);
    forall K, i, j | 1 <= K <= a.maxLayer && a.upperOff[K - 1] <= i < j < a.upperOff[K] ensures nodes[i] != nodes[j] {
      LayerAscends(a, K, i, j);
      SlotsStayDistinct(pi, a.upperNodes[i], a.upperNodes[j]);
    }
  }

  /** What the rewritten index b consists of. */
  ghost predicate Rewritten(pi: seq<nat>, inv: seq<nat>, a: Index, b: Index)
    requires a.Sized()
  {
    && IsPerm(pi) && |pi| == a.n && Inverse(pi, inv)
    && b.n == a.n && b.m == a.m && b.m0 == a.m0 && b.maxLayer == a.maxLayer && b.upperOff == a.upperOff
    && VectorsDone(a, inv, b.vectors, a.n) && RowsDone(a, pi, inv, b.conn0, a.n) && LabelsDone(a, inv, b.labels, a.n)
    && |b.conn0Cnt| == a.n && (forall w :: 0 <= w < a.n ==> b.conn0Cnt[w] == a.conn0Cnt[inv[w]])
    && UpperPart(b).Sized(a.m) && |b.upperNodes| == |a.upperNodes|
    && Remapped(pi, a).Sized(a.m) && OffsetsOk(a.upperOff, a.maxLayer, |a.upperNodes|)
    && (forall K :: 1 <= K <= a.maxLayer ==> LayerSorted(a.m, Remapped(pi, a), UpperPart(b), a.upperOff, a.maxLayer, K))
  }

  /** A slot of b has a source slot in a, on the same layer. */
  lemma SourceSlot(pi: seq<nat>, inv: seq<nat>, a: Index, b: Index, i: nat) returns (j: nat)
    requires a.WellFormed() && Rewritten(pi, inv, a, b) && i < |b.upperNodes|
    ensures j < |a.upperNodes| && SameSlot(a.m, UpperPart(b), i, Remapped(pi, a), j)
  {
    var K := SegmentFrom(a.upperOff, i, 0);
    K := K + 1;
    assert LayerSorted(a.m, Remapped(pi, a), UpperPart(b), a.upperOff, a.maxLayer, K);
    assert SlotIn(a.m, UpperPart(b), i, Remapped(pi, a), a.upperOff[K - 1], a.upperOff[K]);
    j :| a.upperOff[K - 1] <= j < a.upperOff[K] && SameSlot(a.m, UpperPart(b), i, Remapped(pi, a), j);
  }

  lemma RewrittenSized(pi: seq<nat>, inv: seq<nat>, a: Index, b: Index)
    requires a.WellFormed() && Rewritten(pi, inv, a, b)
    ensures b.Sized()
  {
    forall i | 0 <= i < |b.upperCnt| ensures b.upperCnt[i] <= b.m {
      var j := SourceSlot(pi, inv, a, b, i);
    }
  }

  lemma ConnInRow(a: Rows, m: nat, k: nat) returns (i: nat, col: nat)
    requires a.Sized(m) && k < |a.conns|
    ensures i < |a.nodes| && col < m && a.conns[k] == a.Conn(m, i)[col]
  {
    i := RowOf(k, |a.nodes|, m);
    RowFits(i, |a.nodes|, m);
    col := k - i * m;
  }

  lemma {:induction false} RowOf(k: nat, n: nat, m: nat) returns (i: nat)
    requires k < n * m
    ensures i < n && i * m <= k < i * m + m
    decreases n
  {
    assert (n - 1) * m + m == n * m;
    if k >= (n - 1) * m {
      i := n - 1;
    } else {
      i := RowOf(k, n - 1, m);
    }
  }

  lemma BaseSlotInRange(pi: seq<nat>, inv: seq<nat>, a: Index, b: Index, k: nat)
    requires a.WellFormed() && Rewritten(pi, inv, a, b) && k < |b.conn0|
    ensures -1 <= b.conn0[k] < b.n
  {
    var w := RowOf(k, b.n, b.m0);
    RowFits(w, a.n, a.m0);
    assert RowAt(a, pi, inv, b.conn0, w);
    var row := Row(b.conn0, w, a.m0);
    assert b.conn0[k] == row[k - w * a.m0];
    var nbs := a.Layer0Neighbors(inv[w]);
    a.NeighborsInRange(inv[w], 0);
    if k - w * a.m0 < |nbs| {
      assert row[..|nbs|][k - w * a.m0] == MapSlot(pi, nbs[k - w * a.m0]);
    }
  }

  lemma UpperSlotInRange(pi: seq<nat>, inv: seq<nat>, a: Index, b: Index, k: nat)
    requires a.WellFormed() && Rewritten(pi, inv, a, b) && k < |b.upperConn|
    ensures -1 <= b.upperConn[k] < b.n
  {
    var i, col := ConnInRow(UpperPart(b), a.m, k);
    var j := SourceSlot(pi, inv, a, b, i);
    RowFits(j, |a.upperNodes|, a.m);
    assert b.upperConn[k] == Remapped(pi, a).Conn(a.m, j)[col];
  }

  lemma RewrittenWellFormed(pi: seq<nat>, inv: seq<nat>, a: Index, b: Index)
    requires a.WellFormed() && Rewritten(pi, inv, a, b) && b.entryPoint < b.n
    ensures b.WellFormed()
  {
    RewrittenSized(pi, inv, a, b);
    forall k | 0 <= k < |b.conn0| ensures -1 <= b.conn0[k] < b.n {
      BaseSlotInRange(pi, inv, a, b, k);
    }
    forall k | 0 <= k < |b.upperConn| ensures -1 <= b.upperConn[k] < b.n {
      UpperSlotInRange(pi, inv, a, b, k);
    }
    forall i | 0 <= i < |b.upperNodes| ensures 0 <= b.upperNodes[i] < b.n {
      var j := SourceSlot(pi, inv, a, b, i);
    }
    forall L | 1 <= L <= b.maxLayer ensures Ascending(b.UpperNodesOf(L)) {
      assert LayerSorted(a.m, Remapped(pi, a), UpperPart(b), a.upperOff, a.maxLayer, L);
    }
  }

  // ---------- The isomorphism ----------

  lemma BaseRowsMoved(pi: seq<nat>, inv: seq<nat>, a: Index, b: Index, v: nat)
    requires a.WellFormed() && b.WellFormed() && Rewritten(pi, inv, a, b) && v < a.n
    ensures b.VectorAt(pi[v]) == a.VectorAt(v)
    ensures b.IsFraud(pi[v]) <==> a.IsFraud(v)
    ensures b.Layer0Neighbors(pi[v]) == MapRow(pi, a.Layer0Neighbors(v))
  {
    var w := pi[v];
    RowFits(w, a.n, a.m0);
    assert RowAt(a, pi, inv, b.conn0, w);
    var row := Row(b.conn0, w, a.m0);
    assert b.Layer0Neighbors(w) == row[..a.conn0Cnt[v]];
  }

  /** The used slots of two equal rows, one renamed. */
  lemma UpperRowMoved(pi: seq<nat>, a: Index, b: Index, j: nat, i: nat)
    requires a.Sized() && b.Sized() && a.m == b.m && j < |a.upperNodes| && i < |b.upperNodes|
    requires Remapped(pi, a).Sized(a.m) && UpperPart(b).Sized(a.m)
    requires SameSlot(a.m, Remapped(pi, a), j, UpperPart(b), i)
    ensures b.UpperRow(i) == MapRow(pi, a.UpperRow(j))
  {
    RowFits(i, |b.upperNodes|, a.m);
    RowFits(j, |a.upperNodes|, a.m);
    var cnt: nat := a.upperCnt[j];
    TakeOfSlice(b.upperConn, i * a.m, a.m, cnt);
    TakeOfSlice(MapRow(pi, a.upperConn), j * a.m, a.m, cnt);
    MapRowSlice(pi, a.upperConn, j * a.m, cnt);
  }

  lemma MapRowSlice(pi: seq<nat>, s: seq<int>, x: nat, k: nat)
    requires x + k <= |s|
    ensures MapRow(pi, s[x..x + k]) == MapRow(pi, s)[x..x + k]
  {
  }

  lemma FoundOnLayer(g: Index, L: nat, i: nat)
    requires g.WellFormed() && 1 <= L <= g.maxLayer && g.upperOff[L - 1] <= i < g.upperOff[L]
    ensures IndexOf(g.UpperNodesOf(L), g.upperNodes[i]) == i - g.upperOff[L - 1]
  {
    var layer, lo := g.UpperNodesOf(L), g.upperOff[L - 1];
    assert Ascending(layer);
    assert layer[i - lo] == g.upperNodes[i];
    IndexOfUnique(layer, i - lo);
  }

  lemma MemberSlotMoved(pi: seq<nat>, inv: seq<nat>, a: Index, b: Index, L: nat, j: nat) returns (i: nat)
    requires a.Sized() && Rewritten(pi, inv, a, b) && 1 <= L <= a.maxLayer
    requires a.upperOff[L - 1] <= j < a.upperOff[L]
    ensures a.upperOff[L - 1] <= i < a.upperOff[L] && SameSlot(a.m, Remapped(pi, a), j, UpperPart(b), i)
  {
    var lo: nat, hi: nat := a.upperOff[L - 1], a.upperOff[L];
    var t, r := Remapped(pi, a), UpperPart(b);
    assert LayerSorted(a.m, t, r, a.upperOff, a.maxLayer, L);
    assert SlotIn(a.m, t, j, r, lo, hi);
    i :| lo <= i < hi && SameSlot(a.m, t, j, r, i);
  }

  /** The list of a member is the row at its slot. */
  lemma RowOfMember(g: Index, L: nat, i: nat)
    requires g.WellFormed() && 1 <= L <= g.maxLayer && g.upperOff[L - 1] <= i < g.upperOff[L]
    ensures g.UpperNeighbors(g.upperNodes[i], L) == g.UpperRow(i)
  {
    FoundOnLayer(g, L, i);
  }

  lemma MemberRowMoved(pi: seq<nat>, inv: seq<nat>, a: Index, b: Index, v: nat, L: nat)
    requires a.WellFormed() && b.WellFormed() && Rewritten(pi, inv, a, b) && v < a.n && 1 <= L <= a.maxLayer
    requires v in a.UpperNodesOf(L)
    ensures b.UpperNeighbors(pi[v], L) == MapRow(pi, a.UpperNeighbors(v, L))
  {
    var j: nat := a.upperOff[L - 1] + IndexOf(a.UpperNodesOf(L), v);
    assert a.upperNodes[j] == v;
    var i := MemberSlotMoved(pi, inv, a, b, L, j);
    assert b.upperNodes[i] == pi[v];
    hide LayerSorted, RowsDone, VectorsDone, LabelsDone, IndexOf, Inverse, Ascending;
    RowOfMember(a, L, j);
    RowOfMember(b, L, i);
    UpperRowMoved(pi, a, b, j, i);
  }

  lemma NonMemberStaysOut(pi: seq<nat>, inv: seq<nat>, a: Index, b: Index, v: nat, L: nat)
    requires a.WellFormed() && b.WellFormed() && Rewritten(pi, inv, a, b) && v < a.n && 1 <= L <= a.maxLayer
    requires v !in a.UpperNodesOf(L)
    ensures pi[v] !in b.UpperNodesOf(L)
  {
    var y := IndexOf(b.UpperNodesOf(L), pi[v]);
    if y >= 0 {
      NoNewMember(pi, inv, a, b, v, L, a.upperOff[L - 1] + y);
    }
  }

  lemma UpperRowsMoved(pi: seq<nat>, inv: seq<nat>, a: Index, b: Index, v: nat, L: nat)
    requires a.WellFormed() && b.WellFormed() && Rewritten(pi, inv, a, b) && v < a.n && 1 <= L <= a.maxLayer
    ensures b.UpperNeighbors(pi[v], L) == MapRow(pi, a.UpperNeighbors(v, L))
  {
    if v in a.UpperNodesOf(L) {
      MemberRowMoved(pi, inv, a, b, v, L);
    } else {
      NonMemberStaysOut(pi, inv, a, b, v, L);
    }
  }

  lemma SlotCameFrom(pi: seq<nat>, inv: seq<nat>, a: Index, b: Index, L: nat, i: nat) returns (j: nat)
    requires a.Sized() && Rewritten(pi, inv, a, b) && 1 <= L <= a.maxLayer
    requires a.upperOff[L - 1] <= i < a.upperOff[L]
    ensures a.upperOff[L - 1] <= j < a.upperOff[L] && SameSlot(a.m, UpperPart(b), i, Remapped(pi, a), j)
  {
    var lo: nat, hi: nat := a.upperOff[L - 1], a.upperOff[L];
    var t, r := Remapped(pi, a), UpperPart(b);
    assert LayerSorted(a.m, t, r, a.upperOff, a.maxLayer, L);
    assert SlotIn(a.m, r, i, t, lo, hi);
    j :| lo <= j < hi && SameSlot(a.m, r, i, t, j);
  }

  lemma MapSlotInjective(pi: seq<nat>, x: int, v: nat)
    requires IsPerm(pi) && 0 <= x < |pi| && v < |pi| && MapSlot(pi, x) == pi[v]
    ensures x == v
  {
  }

  lemma OnLayer(a: Index, L: nat, j: nat)
    requires a.Sized() && 1 <= L <= a.maxLayer && a.upperOff[L - 1] <= j < a.upperOff[L]
    ensures a.upperNodes[j] in a.UpperNodesOf(L)
  {
    assert a.UpperNodesOf(L)[j - a.upperOff[L - 1]] == a.upperNodes[j];
  }

  /** A renamed node on a layer of b was on that layer of a. */
  lemma NoNewMember(pi: seq<nat>, inv: seq<nat>, a: Index, b: Index, v: nat, L: nat, i: nat)
    requires a.WellFormed() && b.WellFormed() && Rewritten(pi, inv, a, b) && v < a.n && 1 <= L <= a.maxLayer
    requires a.upperOff[L - 1] <= i < a.upperOff[L] && b.upperNodes[i] == pi[v]
    ensures v in a.UpperNodesOf(L)
  {
    var j := SlotCameFrom(pi, inv, a, b, L, i);
    MapSlotInjective(pi, a.upperNodes[j], v);
    OnLayer(a, L, j);
  }

  lemma RewrittenIsIsomorphic(pi: seq<nat>, inv: seq<nat>, a: Index, b: Index)
    requires a.WellFormed() && Rewritten(pi, inv, a, b) && b.entryPoint == pi[a.entryPoint]
    ensures b.WellFormed() && Isomorphic(pi, a, b)
  {
    RewrittenWellFormed(pi, inv, a, b);
    forall v | 0 <= v < a.n
      ensures b.VectorAt(pi[v]) == a.VectorAt(v) && (b.IsFraud(pi[v]) <==> a.IsFraud(v))
    {
      BaseRowsMoved(pi, inv, a, b, v);
    }
    forall v, L | 0 <= v < a.n && 0 <= L <= a.maxLayer
      ensures b.NeighborsAt(pi[v], L) == MapRow(pi, a.NeighborsAt(v, L))
    {
      if L == 0 {
        BaseRowsMoved(pi, inv, a, b, v);
      } else {
        UpperRowsMoved(pi, inv, a, b, v, L);
      }
    }
  }

  // ---------- The method ----------

  /** The first k nodes of the new base-layer buffers are in place. */
  ghost predicate BaseDone(g: Index, pi: seq<nat>, inv: seq<nat>, vectors: seq<Byte>, conn0: seq<int>,
                           conn0Cnt: seq<Byte>, labels: seq<Byte>, k: nat)
    requires g.Sized()
  {
    && VectorsDone(g, inv, vectors, k) && RowsDone(g, pi, inv, conn0, k) && LabelsDone(g, inv, labels, k)
    && |conn0Cnt| == g.n && forall w :: 0 <= w < k ==> conn0Cnt[w] == g.conn0Cnt[inv[w]]
  }

  lemma NothingDone(g: Index, pi: seq<nat>, inv: seq<nat>)
    requires g.Sized() && |pi| == g.n && Inverse(pi, inv)
    ensures BaseDone(g, pi, inv, Zeros(|g.vectors|), Unused(|g.conn0|), Zeros(|g.conn0Cnt|), Zeros(|g.labels|), 0)
  {
    forall j: nat ensures !TestBit(0, j) {
      ZeroHasNoBits(j);
    }
  }

  /** Build the base-layer buffers in permuted order. */
  method RewriteBase(g: Index, num: array<int>, inv: array<nat>, ghost pi: seq<nat>)
      returns (vectors: array<Byte>, conn0: array<int>, conn0Cnt: array<Byte>, labels: array<Byte>)
    requires g.WellFormed() && |pi| == g.n && IsNumbering(num[..], pi) && Inverse(pi, inv[..])
    ensures BaseDone(g, pi, inv[..], vectors[..], conn0[..], conn0Cnt[..], labels[..], g.n)
  {
    ghost var sources := inv[..];
    vectors := new Byte[|g.vectors|](_ => 0);
    conn0 := new int[|g.conn0|](_ => -1);
    conn0Cnt := new Byte[|g.conn0Cnt|](_ => 0);
    labels := new Byte[|g.labels|](_ => 0);
    assert vectors[..] == Zeros(|g.vectors|) && conn0[..] == Unused(|g.conn0|);
    assert conn0Cnt[..] == Zeros(|g.conn0Cnt|) && labels[..] == Zeros(|g.labels|);
    NothingDone(g, pi, sources);
    for newID := 0 to g.n
      invariant BaseDone(g, pi, sources, vectors[..], conn0[..], conn0Cnt[..], labels[..], newID)
    {
      RewriteNode(g, num, pi, newID, inv[newID], sources, vectors, conn0, conn0Cnt, labels);
    }
  }

  /** One iteration: the buffers of the node numbered newID. */
  method RewriteNode(g: Index, num: array<int>, ghost pi: seq<nat>, newID: nat, oldID: nat, ghost inv: seq<nat>,
                     vectors: array<Byte>, conn0: array<int>, conn0Cnt: array<Byte>, labels: array<Byte>)
    requires g.WellFormed() && |pi| == g.n && IsNumbering(num[..], pi) && newID < g.n && num != conn0
    requires vectors != conn0Cnt && conn0Cnt != labels && labels != vectors
    requires BaseDone(g, pi, inv, vectors[..], conn0[..], conn0Cnt[..], labels[..], newID) && oldID == inv[newID]
    modifies vectors, conn0, conn0Cnt, labels
    ensures BaseDone(g, pi, inv, vectors[..], conn0[..], conn0Cnt[..], labels[..], newID + 1)
  {
    CopyVector(g, vectors, newID, oldID, inv);
    CopyRow(g, num, pi, conn0, newID, oldID, inv);
    conn0Cnt[newID] := g.conn0Cnt[oldID];
    CopyLabel(g, labels, newID, oldID, inv);
  }

  lemma RemappedSized(pi: seq<nat>, a: Index)
    requires a.Sized()
    ensures Remapped(pi, a).Sized(a.m) && OffsetsOk(a.upperOff, a.maxLayer, |a.upperNodes|)
  {
  }

  /** Rename the upper rows in place, then sort every layer again. */
  method RewriteUpper(g: Index, num: array<int>, ghost pi: seq<nat>) returns (r: Rows)
    requires g.WellFormed() && |pi| == g.n && IsNumbering(num[..], pi)
    ensures r.Sized(g.m) && |r.nodes| == |g.upperNodes|
    ensures Remapped(pi, g).Sized(g.m) && OffsetsOk(g.upperOff, g.maxLayer, |g.upperNodes|)
    ensures forall K :: 1 <= K <= g.maxLayer ==> LayerSorted(g.m, Remapped(pi, g), r, g.upperOff, g.maxLayer, K)
  {
    RemappedSized(pi, g);
    RemappedIsDistinct(pi, g);
    if g.maxLayer >= 1 {
      var nodes := RemapSlots(g.upperNodes, num, pi);
      var conns := RemapSlots(g.upperConn, num, pi);
      r := SortLayers(g.m, Rows(nodes, g.upperCnt, conns), g.upperOff, g.maxLayer);
    } else {
      r := Rows(g.upperNodes, g.upperCnt, g.upperConn);
    }
  }

  /** newToOld lists the nodes in their new order. */
  lemma InverseIsOrder(num: seq<int>, names: seq<nat>, inv: seq<nat>)
    requires Names(num, names) && forall v :: 0 <= v < |num| ==> num[v] >= 0
    requires Inverse(AsPerm(num), inv)
    ensures inv == names
  {
    NamesArePerm(num, names);
  }

  /** The rewritten index. */
  method Rewrite(a: Index) returns (b: Index, ghost pi: seq<nat>)
    requires a.WellFormed()
    ensures b.WellFormed() && Isomorphic(pi, a, b) && pi[a.entryPoint] == 0 && b.upperOff == a.upperOff
    ensures BreadthFirstOrder(a.Layer(0), a.entryPoint, pi) && Rewritten(pi, NewOrder(a.Layer(0), a.entryPoint), a, b)
  {
    var num := Number(a);
    pi := AsPerm(num[..]);
    var inv := Invert(num, pi);
    InverseIsOrder(num[..], NewOrder(a.Layer(0), a.entryPoint), inv[..]);
    var vectors, conn0, conn0Cnt, labels := RewriteBase(a, num, inv, pi);
    var r := RewriteUpper(a, num, pi);
    b := Index(a.n, a.m, a.m0, vectors[..], conn0[..], conn0Cnt[..], labels[..],
               a.upperOff, r.nodes, r.cnts, r.conns, num[a.entryPoint], a.maxLayer);
    assert UpperPart(b) == r;
    RewrittenIsIsomorphic(pi, inv[..], a, b);
  }

  /** Permute the node ids of the graph into breadth-first order from the entry point: the
      nodes are renamed by their position in NewOrder, which fixes every buffer.  Returns
      the new name of every node. */
  method Reorder(g: Graph) returns (ghost pi: seq<nat>)
    requires g.n > 0 ==> g.View().WellFormed()
    modifies g
    ensures old(g.n) == 0 ==> g.View() == old(g.View())
    ensures old(g.n) > 0 ==>
              && old(g.View()).WellFormed() && g.View().WellFormed()
              && Isomorphic(pi, old(g.View()), g.View()) && pi[old(g.entryPoint)] == 0 == g.entryPoint
              && g.upperOff == old(g.upperOff) && BreadthFirstOrder(old(g.View()).Layer(0), old(g.entryPoint), pi)
              && Rewritten(pi, NewOrder(old(g.View()).Layer(0), old(g.entryPoint)), old(g.View()), g.View())
  {
    if g.n == 0 {
      return [];
    }
    var b;
    b, pi := Rewrite(g.View());
    g.Set(b);
  }

  // ---------- Queries on the reordered graph ----------

  lemma IsomorphicNets(pi: seq<nat>, a: Index, b: Index, q: seq<int>)
    requires a.WellFormed() && b.WellFormed() && Isomorphic(pi, a, b) && |q| == DIM
    ensures NetOk(a.Layered(), a.n) && NetOk(b.Layered(), b.n)
    ensures RenamedNet(pi, a.Layered(), b.Layered())
    ensures Renamed(pi, a.Distances(q), b.Distances(q)) && Renamed(pi, a.Frauds(), b.Frauds())
  {
    a.NetIsOk();
    b.NetIsOk();
    forall L | 0 <= L <= a.maxLayer ensures RenamedAdj(pi, a.Layered().layers[L], b.Layered().layers[L]) {
    }
  }

  /** How many nodes can be found for q at layer 0. */
  ghost function Found(g: Index, q: seq<int>): nat
    requires g.WellFormed() && |q| == DIM
  {
    g.NetIsOk();
    |ReachSet(g.Layered().layers[0], Arrive(g.Layered(), g.Distances(q), 1))|
  }

  /** Reorder is a pure layout change: the answers of the reordered graph are the renamed
      answers of the original, in the same order, exactly when five nodes can be found or
      the padding id 0 keeps its name. */
  lemma ReorderRenamesAnswers(pi: seq<nat>, a: Index, b: Index, q: seq<int>)
    requires a.WellFormed() && b.WellFormed() && Isomorphic(pi, a, b) && |q| == DIM
    ensures Answer(b, q) == MapIds(pi, Answer(a, q)) <==> Found(a, q) >= 5 || pi[0] == 0
  {
    IsomorphicNets(pi, a, b, q);
    QueryCommutes(pi, a.Layered(), b.Layered(), a.Distances(q), b.Distances(q));
  }

  /** The number of ids labelled fraud in the first `found` positions, and in the padding. */
  lemma {:induction false} SplitFraudCount(fraud: seq<bool>, ids: seq<nat>, found: nat)
    requires found <= |ids| && forall i :: 0 <= i < |ids| ==> ids[i] < |fraud|
    requires |fraud| > 0 && forall i :: found <= i < |ids| ==> ids[i] == 0
    ensures FraudCount(fraud, ids) == FraudCount(fraud, ids[..found]) + if fraud[0] then |ids| - found else 0
    decreases |ids|
  {
    if found < |ids| {
      var front := ids[..|ids| - 1];
      SplitFraudCount(fraud, front, found);
      assert front[..found] == ids[..found];
    } else {
      assert ids[..found] == ids;
    }
  }

  lemma {:induction false} RenamedFraudCount(pi: seq<nat>, f: seq<bool>, h: seq<bool>, ids: seq<nat>)
    requires Renamed(pi, f, h) && forall i :: 0 <= i < |ids| ==> ids[i] < |pi|
    ensures FraudCount(h, MapIds(pi, ids)) == FraudCount(f, ids)
    decreases |ids|
  {
    if ids != [] {
      var front := ids[..|ids| - 1];
      RenamedFraudCount(pi, f, h, front);
      assert MapIds(pi, ids)[..|ids| - 1] == MapIds(pi, front);
    }
  }

  lemma FraudCountsAgree(pi: seq<nat>, f: seq<bool>, h: seq<bool>, x: seq<nat>, y: seq<nat>, found: nat)
    requires Renamed(pi, f, h) && |pi| > 0 && found <= |x| == |y|
    requires forall i :: 0 <= i < |x| ==> x[i] < |pi| && y[i] < |pi|
    requires y[..found] == MapIds(pi, x[..found])
    requires forall i :: found <= i < |x| ==> x[i] == 0 && y[i] == 0
    ensures FraudCount(h, y) == FraudCount(f, x) <==> found == |x| || f[0] == h[0]
  {
    var kept, padding := x[..found], |x| - found;
    RenamedFraudCount(pi, f, h, kept);
    SplitFraudCount(f, x, found);
    SplitFraudCount(h, y, found);
    var c := FraudCount(f, kept);
    assert FraudCount(f, x) == c + if f[0] then padding else 0;
    assert FraudCount(h, y) == c + if h[0] then padding else 0;
  }

  /** The fraud count, and so the response, is unchanged exactly when five nodes can be
      found or the padding id 0 keeps its label. */
  lemma ReorderKeepsFraudCount(pi: seq<nat>, a: Index, b: Index, q: seq<int>)
    requires a.WellFormed() && b.WellFormed() && Isomorphic(pi, a, b) && |q| == DIM
    ensures FraudCount(b.Frauds(), Answer(b, q)) == FraudCount(a.Frauds(), Answer(a, q))
            <==> Found(a, q) >= 5 || (a.IsFraud(0) <==> b.IsFraud(0))
  {
    IsomorphicNets(pi, a, b, q);
    hide RenamedNet, ReachSet, Arrive, Query5;
    AnswerParts(pi, a.Layered(), b.Layered(), a.Distances(q), b.Distances(q));
    FraudCountsAgree(pi, a.Frauds(), b.Frauds(), Answer(a, q), Answer(b, q),
                     ResultPart(a.Layered(), a.Distances(q)));
  }

  /** Reorder names the entry point 0, so before reordering one can tell whether it will
      change an answer: unless five nodes can be found, it does exactly when the entry point
      is not node 0. */
  lemma ReorderRenamesAnswersOf(pi: seq<nat>, a: Index, b: Index, q: seq<int>)
    requires a.WellFormed() && b.WellFormed() && Isomorphic(pi, a, b) && |q| == DIM && pi[a.entryPoint] == 0
    ensures Answer(b, q) == MapIds(pi, Answer(a, q)) <==> Found(a, q) >= 5 || a.entryPoint == 0
  {
    ReorderRenamesAnswers(pi, a, b, q);
    assert pi[0] == 0 <==> a.entryPoint == 0;
  }

  /** And whether it will change the response: unless five nodes can be found, it does
      exactly when node 0 and the entry point are labelled differently. */
  lemma ReorderKeepsFraudCountOf(pi: seq<nat>, a: Index, b: Index, q: seq<int>)
    requires a.WellFormed() && b.WellFormed() && Isomorphic(pi, a, b) && |q| == DIM && pi[a.entryPoint] == 0
    ensures FraudCount(b.Frauds(), Answer(b, q)) == FraudCount(a.Frauds(), Answer(a, q))
            <==> Found(a, q) >= 5 || (a.IsFraud(0) <==> a.IsFraud(a.entryPoint))
  {
    ReorderKeepsFraudCount(pi, a, b, q);
    assert b.IsFraud(pi[a.entryPoint]) <==> a.IsFraud(a.entryPoint);
  }
}
