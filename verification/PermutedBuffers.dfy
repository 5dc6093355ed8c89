/** Rewriting the base-layer buffers under a new numbering (internal/hnsw/reorder.go:65-106):
    vectors, layer-0 rows and label bits move to their node's new position. */
module PermutedBuffers {
  import opened Distance
  import opened Bits
  import opened Relabelling
  import opened GraphIndex

  /** The permutation a numbering array holds. */
  ghost predicate IsNumbering(num: seq<int>, pi: seq<nat>) {
    IsPerm(pi) && |num| == |pi| && forall v :: 0 <= v < |pi| ==> num[v] == pi[v]
  }

  /** inv lists the old node behind each new one. */
  ghost predicate Inverse(pi: seq<nat>, inv: seq<nat>) {
    && |inv| == |pi|
    && (forall v :: 0 <= v < |pi| ==> pi[v] < |inv| && inv[pi[v]] == v)
    && (forall w :: 0 <= w < |inv| ==> inv[w] < |pi| && pi[inv[w]] == w)
  }

  /** newToOld. */
  method Invert(num: array<int>, ghost pi: seq<nat>) returns (inv: array<nat>)
    requires IsNumbering(num[..], pi)
    ensures fresh(inv) && Inverse(pi, inv[..])
  {
    inv := new nat[num.Length](_ => 0);
    for v := 0 to num.Length
      invariant forall u :: 0 <= u < v ==> inv[pi[u]] == u
    {
      inv[num[v]] := v;
    }
    forall w: nat | w < inv.Length ensures inv[w] < |pi| && pi[inv[w]] == w {
      var v := PermHits(pi, w);
    }
  }

  // ---------- Vectors ----------

  /** The first k vectors are those of the nodes they replace. */
  ghost predicate VectorsDone(g: Index, inv: seq<nat>, vectors: seq<Byte>, k: nat)
    requires g.Sized()
  {
    && k <= |inv| == g.n && |vectors| == g.n * DIM && (forall w :: 0 <= w < g.n ==> inv[w] < g.n)
    && forall w :: 0 <= w < k ==> vectors[w * DIM..w * DIM + DIM] == g.VectorAt(inv[w])
  }

  method CopyVector(g: Index, vectors: array<Byte>, newID: nat, oldID: nat, ghost inv: seq<nat>)
    requires g.Sized() && newID < g.n && VectorsDone(g, inv, vectors[..], newID) && oldID == inv[newID]
    modifies vectors
    ensures VectorsDone(g, inv, vectors[..], newID + 1)
  {
    ghost var before := vectors[..];
    var newOff := newID * DIM;
    var v := g.VectorAt(oldID);
    for i := 0 to DIM
      invariant vectors[..newOff] == before[..newOff]
      invariant vectors[newOff..newOff + i] == v[..i]
    {
      vectors[newOff + i] := v[i];
      assert vectors[newOff..newOff + i + 1] == v[..i] + [v[i]];
    }
    VectorsKept(g, inv, before, vectors[..], newID);
  }

  lemma VectorsKept(g: Index, inv: seq<nat>, a: seq<Byte>, b: seq<Byte>, k: nat)
    requires g.Sized() && VectorsDone(g, inv, a, k) && k < g.n && |b| == |a|
    requires a[..k * DIM] == b[..k * DIM]
    ensures VectorsDone(g, inv, b, k)
  {
    forall w | 0 <= w < k ensures b[w * DIM..w * DIM + DIM] == g.VectorAt(inv[w]) {
      assert a[w * DIM..w * DIM + DIM] == a[..k * DIM][w * DIM..w * DIM + DIM];
      assert b[w * DIM..w * DIM + DIM] == b[..k * DIM][w * DIM..w * DIM + DIM];
    }
  }

  // ---------- Layer-0 rows ----------

  /** Row w: the renamed neighbours of node old, then unused slots. */
  ghost predicate RowDone(g: Index, pi: seq<nat>, source: nat, row: seq<int>)
    requires g.Sized() && source < g.n
  {
    && |row| == g.m0
    && row[..g.conn0Cnt[source]] == MapRow(pi, g.Layer0Neighbors(source))
    && forall i :: g.conn0Cnt[source] <= i < g.m0 ==> row[i] == -1
  }

  ghost function Row(s: seq<int>, i: nat, w: nat): seq<int>
    requires i * w + w <= |s|
  {
    s[i * w..i * w + w]
  }

  ghost predicate RowsDone(g: Index, pi: seq<nat>, inv: seq<nat>, conn: seq<int>, k: nat)
    requires g.Sized()
  {
    && k <= |inv| == g.n && |conn| == g.n * g.m0 && (forall w :: 0 <= w < g.n ==> inv[w] < g.n)
    && forall w :: 0 <= w < k ==> RowAt(g, pi, inv, conn, w)
  }

  ghost predicate RowAt(g: Index, pi: seq<nat>, inv: seq<nat>, conn: seq<int>, w: nat)
    requires g.Sized() && w < |inv| == g.n && |conn| == g.n * g.m0 && inv[w] < g.n
  {
    RowFits(w, g.n, g.m0);
    RowDone(g, pi, inv[w], Row(conn, w, g.m0))
  }

  lemma RowsKept(g: Index, pi: seq<nat>, inv: seq<nat>, a: seq<int>, b: seq<int>, k: nat)
    requires g.Sized() && RowsDone(g, pi, inv, a, k) && k < g.n && |b| == |a|
    requires k * g.m0 <= |a| && a[..k * g.m0] == b[..k * g.m0]
    ensures RowsDone(g, pi, inv, b, k)
  {
    forall w | 0 <= w < k ensures RowAt(g, pi, inv, b, w) {
      assert RowAt(g, pi, inv, a, w);
      RowFits(w, g.n, g.m0);
      RowsApart(w, k, g.m0);
      assert Row(a, w, g.m0) == a[..k * g.m0][w * g.m0..w * g.m0 + g.m0];
      assert Row(b, w, g.m0) == b[..k * g.m0][w * g.m0..w * g.m0 + g.m0];
    }
  }

  /** The renamed neighbours from cell off on, then -1 up to the given width. */
  method FillMapped(num: array<int>, ghost pi: seq<nat>, conn: array<int>, off: nat, nbs: seq<int>, width: nat)
    requires num != conn && IsNumbering(num[..], pi) && |nbs| <= width && off + width <= conn.Length
    requires forall j :: 0 <= j < |nbs| ==> -1 <= nbs[j] < |pi|
    modifies conn
    ensures conn[..off] == old(conn[..off])
    ensures conn[off..off + width] == MapRow(pi, nbs) + Unused(width - |nbs|)
  {
    for i := 0 to |nbs|
      invariant conn[..off] == old(conn[..off])
      invariant conn[off..off + i] == MapRow(pi, nbs[..i])
    {
      conn[off + i] := if nbs[i] < 0 then -1 else num[nbs[i]];
      assert conn[off..off + i + 1] == MapRow(pi, nbs[..i]) + [MapSlot(pi, nbs[i])];
    }
    assert nbs[..|nbs|] == nbs;
    for i := |nbs| to width
      invariant conn[..off] == old(conn[..off])
      invariant conn[off..off + i] == MapRow(pi, nbs) + Unused(i - |nbs|)
    {
      conn[off + i] := -1;
      assert conn[off..off + i + 1] == MapRow(pi, nbs) + Unused(i - |nbs|) + [-1];
    }
  }

  /** Copy and rename one row, filling up with -1. */
  method CopyRow(g: Index, num: array<int>, ghost pi: seq<nat>, conn: array<int>, newID: nat, oldID: nat,
                 ghost inv: seq<nat>)
    requires g.WellFormed() && num != conn && |pi| == g.n && IsNumbering(num[..], pi)
    requires newID < g.n && RowsDone(g, pi, inv, conn[..], newID) && oldID == inv[newID]
    modifies conn
    ensures RowsDone(g, pi, inv, conn[..], newID + 1)
  {
    ghost var before := conn[..];
    RowFits(newID, g.n, g.m0);
    RowFits(oldID, g.n, g.m0);
    g.NeighborsInRange(oldID, 0);
    var nbs := g.Layer0Neighbors(oldID);
    FillMapped(num, pi, conn, newID * g.m0, nbs, g.m0);
    RowsKept(g, pi, inv, before, conn[..], newID);
    assert Row(conn[..], newID, g.m0) == MapRow(pi, nbs) + Unused(g.m0 - |nbs|);
    assert RowAt(g, pi, inv, conn[..], newID);
  }

  // ---------- Labels ----------

  /** The labels of the first k nodes are those of the nodes they replace; no other bit is
      set. */
  ghost predicate LabelsDone(g: Index, inv: seq<nat>, labels: seq<Byte>, k: nat)
    requires g.Sized()
  {
    && k <= |inv| == g.n && |labels| == (g.n + 7) / 8 && (forall w :: 0 <= w < g.n ==> inv[w] < g.n)
    && forall w: nat :: w < 8 * |labels| ==> (TestBit(labels[w / 8], w % 8) <==> w < k && g.IsFraud(inv[w]))
  }

  method CopyLabel(g: Index, labels: array<Byte>, newID: nat, oldID: nat, ghost inv: seq<nat>)
    requires g.Sized() && newID < g.n && LabelsDone(g, inv, labels[..], newID) && oldID == inv[newID]
    modifies labels
    ensures LabelsDone(g, inv, labels[..], newID + 1)
  {
    if g.IsFraud(oldID) {
      ghost var before := labels[..];
      labels[newID / 8] := SetBit(labels[newID / 8], newID % 8);
      forall w: nat | w < 8 * labels.Length
        ensures TestBit(labels[w / 8], w % 8) <==> w == newID || TestBit(before[w / 8], w % 8)
      {
        OrBitBits(before[newID / 8], newID % 8, w % 8);
      }
    }
  }
}
