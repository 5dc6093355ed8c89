/** Reordering an index that Reorder has produced changes none of its buffers: the
    traversal of the new graph meets its nodes in the order of their names, and the
    buffers already have the form Reorder gives them. */
module ReorderedTwice {
  import opened Distance
  import opened Bits
  import opened LayerSearch
  import opened Relabelling
  import opened GraphIndex
  import opened BreadthFirst
  import opened PermutedBuffers
  import opened UpperRows
  import opened Reordering

  // ---------- The order of a renamed graph ----------

  ghost predicate InRange(queue: seq<nat>, n: nat) {
    forall i :: 0 <= i < |queue| ==> queue[i] < n
  }

  lemma AddSlotRenamed(pi: seq<nat>, queue: seq<nat>, nb: int)
    requires IsPerm(pi) && InRange(queue, |pi|) && nb < |pi|
    ensures AddSlot(MapIds(pi, queue), MapSlot(pi, nb)) == MapIds(pi, AddSlot(queue, nb))
    ensures InRange(AddSlot(queue, nb), |pi|)
  {
    var mapped := MapIds(pi, queue);
    if nb in queue {
      var i :| 0 <= i < |queue| && queue[i] == nb;
      assert mapped[i] == MapSlot(pi, nb);
    } else if nb >= 0 {
      assert forall i :: 0 <= i < |queue| ==> mapped[i] != pi[nb];
      assert MapIds(pi, queue + [nb]) == mapped + [pi[nb]];
    }
  }

  lemma {:induction false} AddRowRenamed(pi: seq<nat>, queue: seq<nat>, row: seq<int>)
    requires IsPerm(pi) && InRange(queue, |pi|) && RowOk(row, |pi|)
    ensures AddRow(MapIds(pi, queue), MapRow(pi, row)) == MapIds(pi, AddRow(queue, row))
    ensures InRange(AddRow(queue, row), |pi|)
    decreases |row|
  {
    if row != [] {
      assert MapRow(pi, row)[0] == MapSlot(pi, row[0]) && MapRow(pi, row)[1..] == MapRow(pi, row[1..]);
      AddSlotRenamed(pi, queue, row[0]);
      assert RowOk(row[1..], |pi|);
      hide InRange, RowOk, IsPerm, AddSlot, MapIds, MapRow, MapSlot;
      AddRowRenamed(pi, AddSlot(queue, row[0]), row[1..]);
    }
  }

  /** Renaming nodes renames the queue of the traversal. */
  lemma {:induction false} BfsRenamed(pi: seq<nat>, a: seq<seq<int>>, b: seq<seq<int>>, queue: seq<nat>, head: nat)
    requires RenamedAdj(pi, a, b) && AdjOk(a) && InRange(queue, |pi|)
    ensures Bfs(b, MapIds(pi, queue), head) == MapIds(pi, Bfs(a, queue, head))
    decreases |a| - head
  {
    BfsStep(a, queue, head);
    BfsStep(b, MapIds(pi, queue), head);
    hide Bfs, AddRow, MapIds, MapRow;
    if head < |queue| && head < |a| {
      var row := a[queue[head]];
      assert RowOk(row, |a|) && b[pi[queue[head]]] == MapRow(pi, row);
      AddRowRenamed(pi, queue, row);
      hide InRange, AdjOk;
      BfsRenamed(pi, a, b, AddRow(queue, row), head + 1);
    }
  }

  /** 0, 1, ..., k - 1. */
  ghost function FirstIds(k: nat): (r: seq<nat>)
    ensures |r| == k && forall i :: 0 <= i < k ==> r[i] == i
  {
    seq(k, i requires 0 <= i < k => i)
  }

  /** Once the first k ids are queued, the others join in order. */
  lemma {:induction false} RestInOrder(k: nat, n: nat, i: nat)
    requires i <= n && k <= n
    ensures AddRow(FirstIds(if k < i then i else k), AllIds(n)[i..]) == FirstIds(n)
    decreases n - i
  {
    var ids, queue := AllIds(n), FirstIds(if k < i then i else k);
    if i < n {
      AddRowStep(queue, ids, i);
      if i < k {
        assert queue[i] == i;
      } else {
        assert queue + [i] == FirstIds(i + 1);
      }
      RestInOrder(k, n, i + 1);
    } else {
      AddRowEnds(queue, ids);
    }
  }

  /** With the nodes named by their position in the order, the order of the renamed graph
      is that of the names. */
  lemma NewOrderOfNewNames(pi: seq<nat>, a: seq<seq<int>>, b: seq<seq<int>>, entry: nat)
    requires RenamedAdj(pi, a, b) && AdjOk(a) && entry < |a| && Inverse(pi, NewOrder(a, entry))
    ensures NewOrder(b, pi[entry]) == FirstIds(|b|)
  {
    var queue := Bfs(a, [entry], 0);
    assert queue <= NewOrder(a, entry);
    assert MapIds(pi, [entry]) == [pi[entry]];
    BfsRenamed(pi, a, b, [entry], 0);
    forall i | 0 <= i < |queue| ensures MapIds(pi, queue)[i] == i {
      assert NewOrder(a, entry)[i] == queue[i];
    }
    assert MapIds(pi, queue) == FirstIds(|queue|);
    RestInOrder(|queue|, |b|, 0);
    AddRowEnds(FirstIds(|queue|), AllIds(|b|));
  }

  // ---------- Buffers ----------

  /** Chunk by chunk equal. */
  lemma SameChunks<T>(x: seq<T>, y: seq<T>, n: nat, w: nat)
    requires |x| == |y| == n * w
    requires forall i :: 0 <= i < n ==> 0 <= i * w && i * w + w <= n * w && x[i * w..i * w + w] == y[i * w..i * w + w]
    ensures x == y
  {
    forall k | 0 <= k < |x| ensures x[k] == y[k] {
      var i := RowOf(k, n, w);
      assert x[i * w..i * w + w][k - i * w] == y[i * w..i * w + w][k - i * w];
    }
  }

  /** The names are kept: the inverse of the renaming lists the ids in order. */
  lemma NamesKept(pi: seq<nat>, row: seq<int>)
    requires Inverse(pi, FirstIds(|pi|))
    ensures (forall v :: 0 <= v < |pi| ==> pi[v] == v) && MapRow(pi, row) == row
  {
    forall v | 0 <= v < |pi| ensures pi[v] == v {
      assert FirstIds(|pi|)[v] == v;
    }
  }

  lemma SameVectors(b: Index, c: Index)
    requires b.Sized() && c.Sized() && b.n == c.n && VectorsDone(b, FirstIds(b.n), c.vectors, b.n)
    ensures c.vectors == b.vectors
  {
    forall w | 0 <= w < b.n
      ensures w * DIM + DIM <= b.n * DIM && c.vectors[w * DIM..w * DIM + DIM] == b.vectors[w * DIM..w * DIM + DIM]
    {
      assert FirstIds(b.n)[w] == w && c.vectors[w * DIM..w * DIM + DIM] == b.VectorAt(w);
    }
    SameChunks(c.vectors, b.vectors, b.n, DIM);
  }

  /** Unused base-layer slots of a rewritten index hold -1. */
  lemma UnusedAreEmpty(pi: seq<nat>, inv: seq<nat>, a: Index, conn0: seq<int>, w: nat, i: nat)
    requires a.Sized() && RowsDone(a, pi, inv, conn0, a.n) && w < a.n && a.conn0Cnt[inv[w]] <= i < a.m0
    ensures w * a.m0 + a.m0 <= |conn0| && Row(conn0, w, a.m0)[i] == -1
  {
    RowFits(w, a.n, a.m0);
    assert RowAt(a, pi, inv, conn0, w);
  }

  lemma SameRow(pi: seq<nat>, inv: seq<nat>, a: Index, b: Index, names: seq<nat>, c: Index, w: nat)
    requires a.Sized() && b.Sized() && Rewritten(pi, inv, a, b) && Rewritten(names, FirstIds(b.n), b, c) && w < b.n
    ensures w * b.m0 + b.m0 <= |b.conn0| == |c.conn0| && Row(c.conn0, w, b.m0) == Row(b.conn0, w, b.m0)
  {
    RowFits(w, b.n, b.m0);
    assert RowAt(b, names, FirstIds(b.n), c.conn0, w) && FirstIds(b.n)[w] == w;
    var x, y, cnt := Row(b.conn0, w, b.m0), Row(c.conn0, w, b.m0), b.conn0Cnt[w];
    NamesKept(names, b.Layer0Neighbors(w));
    TakeOfSlice(b.conn0, w * b.m0, b.m0, cnt);
    assert y[..cnt] == x[..cnt];
    forall i | 0 <= i < b.m0 ensures y[i] == x[i] {
      if i < cnt {
        assert y[..cnt][i] == x[..cnt][i];
      } else {
        UnusedAreEmpty(pi, inv, a, b.conn0, w, i);
      }
    }
  }

  lemma SameRows(pi: seq<nat>, inv: seq<nat>, a: Index, b: Index, names: seq<nat>, c: Index)
    requires a.Sized() && b.Sized() && Rewritten(pi, inv, a, b) && Rewritten(names, FirstIds(b.n), b, c)
    ensures c.conn0 == b.conn0 && c.conn0Cnt == b.conn0Cnt
  {
    assert c.conn0Cnt == b.conn0Cnt by {
      assert forall w :: 0 <= w < b.n ==> FirstIds(b.n)[w] == w;
    }
    assert |c.conn0| == |b.conn0| == b.n * b.m0;
    hide RowsDone, VectorsDone, LabelsDone, LayerSorted, Inverse, IsPerm;
    forall w | 0 <= w < b.n
      ensures 0 <= w * b.m0 && w * b.m0 + b.m0 <= b.n * b.m0
      ensures c.conn0[w * b.m0..w * b.m0 + b.m0] == b.conn0[w * b.m0..w * b.m0 + b.m0]
    {
      SameRow(pi, inv, a, b, names, c, w);
      RowFits(w, b.n, b.m0);
    }
    SameChunks(c.conn0, b.conn0, b.n, b.m0);
  }

  lemma SameLabels(pi: seq<nat>, inv: seq<nat>, a: Index, b: Index, names: seq<nat>, c: Index)
    requires a.Sized() && b.Sized() && Rewritten(pi, inv, a, b) && Rewritten(names, FirstIds(b.n), b, c)
    ensures c.labels == b.labels
  {
    forall k | 0 <= k < |b.labels| ensures c.labels[k] == b.labels[k] {
      forall j: nat | j < 8 ensures TestBit(c.labels[k], j) <==> TestBit(b.labels[k], j) {
        var w := 8 * k + j;
        assert w / 8 == k && w % 8 == j;
        if w < b.n {
          assert FirstIds(b.n)[w] == w;
        }
      }
      assert Pow2(8) == 256;
      SameBits(c.labels[k], b.labels[k], 8);
    }
  }

  // ---------- Upper layers ----------

  /** Two ascending lists of the same numbers are the same list. */
  lemma {:induction false} SameAscending(x: seq<int>, y: seq<int>, i: nat)
    requires Ascending(x) && Ascending(y) && |x| == |y| && i < |x|
    requires (forall k :: 0 <= k < |x| ==> x[k] in y) && forall k :: 0 <= k < |y| ==> y[k] in x
    ensures forall k :: 0 <= k <= i ==> x[k] == y[k]
  {
    if i > 0 {
      SameAscending(x, y, i - 1);
    }
    assert x[i] in y && y[i] in x;
    var p :| 0 <= p < |y| && y[p] == x[i];
    var q :| 0 <= q < |x| && x[q] == y[i];
    assert p >= i && q >= i;
  }

  /** Rows in another order hold the same nodes. */
  lemma ShuffledNodes(m: nat, t: Rows, r: Rows, lo: nat, hi: nat)
    requires t.Sized(m) && r.Sized(m) && lo <= hi <= |t.nodes| == |r.nodes|
    requires forall j: nat :: lo <= j < hi ==> SlotIn(m, t, j, r, lo, hi)
    ensures forall k :: 0 <= k < hi - lo ==> t.nodes[lo..hi][k] in r.nodes[lo..hi]
  {
    forall k | 0 <= k < hi - lo ensures t.nodes[lo..hi][k] in r.nodes[lo..hi] {
      assert SlotIn(m, t, lo + k, r, lo, hi);
      var i: nat :| lo <= i < hi && SameSlot(m, t, lo + k, r, i);
      assert r.nodes[lo..hi][i - lo] == t.nodes[lo..hi][k];
    }
  }

  lemma SameNodes(m: nat, t: Rows, r: Rows, lo: nat, hi: nat)
    requires t.Sized(m) && r.Sized(m) && lo <= hi <= |t.nodes| == |r.nodes|
    requires Shuffled(m, t, r, lo, hi) && Ascending(t.nodes[lo..hi]) && Ascending(r.nodes[lo..hi])
    ensures t.nodes[lo..hi] == r.nodes[lo..hi]
  {
    ShuffledNodes(m, t, r, lo, hi);
    ShuffledNodes(m, r, t, lo, hi);
    if lo < hi {
      SameAscending(t.nodes[lo..hi], r.nodes[lo..hi], hi - lo - 1);
    }
  }

  /** Sorting an ascending layer moves nothing. */
  lemma SameSlotStays(m: nat, t: Rows, r: Rows, lo: nat, hi: nat, i: nat)
    requires t.Sized(m) && r.Sized(m) && lo <= i < hi <= |t.nodes| == |r.nodes|
    requires Shuffled(m, t, r, lo, hi) && Ascending(t.nodes[lo..hi]) && Ascending(r.nodes[lo..hi])
    ensures SameSlot(m, t, i, r, i)
  {
    SameNodes(m, t, r, lo, hi);
    assert SlotIn(m, t, i, r, lo, hi);
    hide Shuffled, Ascending;
    var j: nat :| lo <= j < hi && SameSlot(m, t, i, r, j);
    var y := r.nodes[lo..hi];
    assert y[i - lo] == t.nodes[lo..hi][i - lo] == y[j - lo];
    AscendingInjective(y, i - lo, j - lo);
  }

  lemma AscendingInjective(s: seq<int>, i: nat, j: nat)
    requires Ascending(s) && i < |s| && j < |s| && s[i] == s[j]
    ensures i == j
  {
  }

  lemma UpperSlotStays(b: Index, names: seq<nat>, c: Index, i: nat)
    requires b.WellFormed() && c.WellFormed() && Rewritten(names, FirstIds(b.n), b, c) && i < |b.upperNodes|
    ensures SameSlot(b.m, UpperPart(b), i, UpperPart(c), i)
  {
    var t, r, m := UpperPart(b), UpperPart(c), b.m;
    NamesKept(names, b.upperNodes);
    NamesKept(names, b.upperConn);
    assert Remapped(names, b) == t;
    var K := SegmentFrom(b.upperOff, i, 0);
    K := K + 1;
    assert LayerSorted(m, t, r, b.upperOff, b.maxLayer, K);
    assert Ascending(b.UpperNodesOf(K));
    SameSlotStays(m, t, r, b.upperOff[K - 1], b.upperOff[K], i);
  }

  lemma SameSlotsSameRows(m: nat, t: Rows, r: Rows)
    requires t.Sized(m) && r.Sized(m) && |t.nodes| == |r.nodes|
    requires forall i: nat :: i < |t.nodes| ==> SameSlot(m, t, i, r, i)
    ensures r == t
  {
    forall i | 0 <= i < |t.nodes|
      ensures 0 <= i * m && i * m + m <= |t.nodes| * m && r.conns[i * m..i * m + m] == t.conns[i * m..i * m + m]
    {
      RowFits(i, |t.nodes|, m);
      assert SameSlot(m, t, i, r, i);
    }
    SameChunks(r.conns, t.conns, |t.nodes|, m);
    forall i: nat | i < |t.nodes| ensures r.nodes[i] == t.nodes[i] && r.cnts[i] == t.cnts[i] {
      assert SameSlot(m, t, i, r, i);
    }
  }

  lemma SameUpper(b: Index, names: seq<nat>, c: Index)
    requires b.WellFormed() && c.WellFormed() && Rewritten(names, FirstIds(b.n), b, c)
    ensures UpperPart(c) == UpperPart(b)
  {
    forall i: nat | i < |b.upperNodes| ensures SameSlot(b.m, UpperPart(b), i, UpperPart(c), i) {
      UpperSlotStays(b, names, c, i);
    }
    SameSlotsSameRows(b.m, UpperPart(b), UpperPart(c));
  }

  // ---------- The theorem ----------

  /** b is what Reorder makes of a, and c what it makes of b: b and c are the same, buffer
      by buffer, and the second renaming renames nothing. */
  lemma ReorderingTwiceIsOnce(pi: seq<nat>, a: Index, b: Index, names: seq<nat>, c: Index)
    requires a.WellFormed() && b.WellFormed() && c.WellFormed()
    requires Rewritten(pi, NewOrder(a.Layer(0), a.entryPoint), a, b) && b.entryPoint == pi[a.entryPoint]
    requires Rewritten(names, NewOrder(b.Layer(0), b.entryPoint), b, c) && c.entryPoint == names[b.entryPoint]
    ensures c == b && forall v :: 0 <= v < b.n ==> names[v] == v
  {
    var inv := NewOrder(a.Layer(0), a.entryPoint);
    RewrittenIsIsomorphic(pi, inv, a, b);
    a.NetIsOk();
    assert AdjOk(a.Layered().layers[0]);
    forall v | 0 <= v < a.n ensures b.Layer(0)[pi[v]] == MapRow(pi, a.Layer(0)[v]) {
      assert b.NeighborsAt(pi[v], 0) == MapRow(pi, a.NeighborsAt(v, 0));
    }
    NewOrderOfNewNames(pi, a.Layer(0), b.Layer(0), a.entryPoint);
    SameVectors(b, c);
    SameRows(pi, inv, a, b, names, c);
    SameLabels(pi, inv, a, b, names, c);
    SameUpper(b, names, c);
    NamesKept(names, []);
  }
}
