/** The runtime form of the index (Graph in internal/hnsw/hnsw.go): flat buffers, their
    accessors, and the layered graph they stand for. */
module GraphIndex {
  import opened Distance
  import opened Bits
  import opened LayerSearch
  import opened Network

  // ---------- Rows of flat buffers ----------

  /** Row i of width w ends inside a buffer of n rows. */
  lemma {:induction false} RowFits(i: nat, n: nat, w: nat)
    requires i < n
    ensures 0 <= i * w && i * w + w <= n * w
    decreases n
  {
    assert n * w == (n - 1) * w + w;
    if i < n - 1 {
      RowFits(i, n - 1, w);
    }
  }

  lemma TakeOfSlice<T>(s: seq<T>, x: nat, w: nat, k: nat)
    requires x + w <= |s| && k <= w
    ensures s[x..x + w][..k] == s[x..x + k]
  {
  }

  lemma SliceOfPrefix<T>(a: seq<T>, b: seq<T>, x: nat, y: nat)
    requires x <= y <= |a|
    ensures (a + b)[x..y] == a[x..y]
  {
  }

  /** Different rows do not overlap. */
  lemma RowsApart(i: nat, k: nat, w: nat)
    requires i < k
    ensures i * w + w <= k * w
  {
    RowFits(i, k, w);
  }

  /** A slot lies between two consecutive offsets. */
  lemma {:induction false} SegmentFrom(off: seq<int>, s: nat, k: nat) returns (K: nat)
    requires k < |off| && off[k] <= s < off[|off| - 1]
    ensures K + 1 < |off| && off[K] <= s < off[K + 1]
    decreases |off| - k
  {
    if s < off[k + 1] {
      K := k;
    } else {
      K := SegmentFrom(off, s, k + 1);
    }
  }

  /** Position of x in a list, or -1. */
  function IndexOf(s: seq<int>, x: int): (r: int)
    ensures -1 <= r < |s|
    ensures r >= 0 ==> s[r] == x
    ensures r < 0 ==> x !in s
  {
    if s == [] then -1
    else if s[0] == x then 0
    else
      var r := IndexOf(s[1..], x);
      if r < 0 then -1 else r + 1
  }

  predicate Ascending(s: seq<int>) {
    forall i, j :: 0 <= i < j < |s| ==> s[i] < s[j]
  }

  // ---------- The index ----------

  datatype Index = Index(
    n: nat, m: nat, m0: nat,
    vectors: seq<Byte>,
    conn0: seq<int>, conn0Cnt: seq<Byte>,
    labels: seq<Byte>,
    upperOff: seq<int>, upperNodes: seq<int>, upperCnt: seq<Byte>, upperConn: seq<int>,
    entryPoint: nat, maxLayer: int)
  {
    /** Sizes of the vectors, base layer and labels; a real top layer. */
    predicate BaseSized() {
      && maxLayer >= 0
      && |vectors| == n * DIM && |conn0| == n * m0 && |conn0Cnt| == n && |labels| == (n + 7) / 8
      && (forall i :: 0 <= i < n ==> conn0Cnt[i] <= m0)
    }

    /** Buffer sizes agree with the parameters. */
    predicate Sized() {
      && BaseSized()
      && |upperOff| == maxLayer + 1 && |upperCnt| == |upperNodes| && |upperConn| == |upperNodes| * m
      && (forall i :: 0 <= i < |upperCnt| ==> upperCnt[i] <= m)
      && upperOff[0] == 0 && upperOff[maxLayer] == |upperNodes|
      && (forall i, j :: 0 <= i <= j < |upperOff| ==> 0 <= upperOff[i] <= upperOff[j] <= |upperNodes|)
    }

    function VectorAt(id: nat): (v: seq<Byte>)
      requires |vectors| == n * DIM && id < n
      ensures |v| == DIM
    {
      vectors[id * DIM..id * DIM + DIM]
    }

    function Layer0Neighbors(id: nat): seq<int>
      requires BaseSized() && id < n
    {
      RowFits(id, n, m0);
      conn0[id * m0..id * m0 + conn0Cnt[id]]
    }

    predicate IsFraud(id: nat)
      requires BaseSized() && id < n
    {
      TestBit(labels[id / 8], id % 8)
    }

    function UpperNodesOf(L: int): seq<int>
      requires Sized()
    {
      if L < 1 || L > maxLayer then [] else upperNodes[upperOff[L - 1]..upperOff[L]]
    }

    /** The slots of row s of the upper layers that are in use. */
    function UpperRow(s: nat): seq<int>
      requires Sized() && s < |upperNodes|
    {
      RowFits(s, |upperNodes|, m);
      upperConn[s * m..s * m + upperCnt[s]]
    }

    function UpperNeighbors(id: nat, L: int): seq<int>
      requires Sized()
    {
      var local := IndexOf(UpperNodesOf(L), id);
      if local < 0 then [] else UpperRow(upperOff[L - 1] + local)
    }

    function NeighborsAt(id: nat, L: nat): seq<int>
      requires Sized() && id < n
    {
      if L == 0 then Layer0Neighbors(id) else UpperNeighbors(id, L)
    }

    /** What the code relies on: sizes, ids in range, members of a layer ascending. */
    ghost predicate WellFormed() {
      && Sized() && n < 0x8000_0000 && entryPoint < n
      && (forall i :: 0 <= i < |conn0| ==> -1 <= conn0[i] < n)
      && (forall i :: 0 <= i < |upperConn| ==> -1 <= upperConn[i] < n)
      && (forall i :: 0 <= i < |upperNodes| ==> 0 <= upperNodes[i] < n)
      && (forall L :: 1 <= L <= maxLayer ==> Ascending(UpperNodesOf(L)))
    }

    ghost function Layer(L: nat): (adj: seq<seq<int>>)
      requires Sized()
      ensures |adj| == n
      ensures forall id :: 0 <= id < n ==> adj[id] == NeighborsAt(id, L)
    {
      seq(n, id requires 0 <= id < n => NeighborsAt(id, L))
    }

    /** The layered graph the buffers stand for. */
    ghost function Layered(): (net: Net)
      requires Sized()
      ensures |net.layers| == maxLayer + 1 && net.entry == entryPoint
      ensures forall L :: 0 <= L <= maxLayer ==> net.layers[L] == Layer(L)
    {
      Net(seq(maxLayer + 1, L requires 0 <= L <= maxLayer => Layer(L)), entryPoint)
    }

    /** Distance of every node to a query. */
    ghost function Distances(q: seq<int>): (d: seq<int>)
      requires Sized() && |q| == DIM
      ensures |d| == n
      ensures forall id :: 0 <= id < n ==> d[id] == Dist(q, VectorAt(id))
    {
      seq(n, id requires 0 <= id < n => Dist(q, VectorAt(id)))
    }

    ghost function Frauds(): (f: seq<bool>)
      requires Sized()
      ensures |f| == n && forall id :: 0 <= id < n ==> f[id] == IsFraud(id)
    {
      seq(n, id requires 0 <= id < n => IsFraud(id))
    }

    lemma NeighborsInRange(id: nat, L: nat)
      requires WellFormed() && id < n
      ensures RowOk(NeighborsAt(id, L), n)
      ensures forall j :: 0 <= j < |NeighborsAt(id, L)| ==> NeighborsAt(id, L)[j] >= -1
    {
      if L == 0 {
        RowFits(id, n, m0);
      } else {
        var local := IndexOf(UpperNodesOf(L), id);
        if local >= 0 {
          RowFits(upperOff[L - 1] + local, |upperNodes|, m);
        }
      }
    }

    lemma NetIsOk()
      requires WellFormed()
      ensures NetOk(Layered(), n)
    {
      forall L | 0 <= L <= maxLayer ensures |Layered().layers[L]| == n && AdjOk(Layered().layers[L]) {
        forall id | 0 <= id < n ensures RowOk(Layer(L)[id], n) {
          NeighborsInRange(id, L);
        }
      }
    }
  }

  // ---------- Membership by binary search ----------

  /** Binary search for a node on an upper layer: its local position, or -1. */
  method UpperLocalIndex(g: Index, nodeID: nat, L: int) returns (local: int)
    requires g.WellFormed()
    ensures local == IndexOf(g.UpperNodesOf(L), nodeID)
  {
    var nodes := g.UpperNodesOf(L);
    if |nodes| == 0 {
      return -1;
    }
    assert Ascending(nodes);
    var lo, hi := 0, |nodes|;
    while lo < hi
      invariant 0 <= lo <= hi <= |nodes|
      invariant forall i :: 0 <= i < lo ==> nodes[i] < nodeID
      invariant forall i :: hi <= i < |nodes| ==> nodes[i] >= nodeID
    {
      var mid := (lo + hi) / 2;
      if nodes[mid] < nodeID {
        lo := mid + 1;
      } else {
        hi := mid;
      }
    }
    if lo < |nodes| && nodes[lo] == nodeID {
      return lo;
    }
    return -1;
  }

  method UpperNeighborsOf(g: Index, nodeID: nat, L: int) returns (nbs: seq<int>)
    requires g.WellFormed()
    ensures nbs == g.UpperNeighbors(nodeID, L)
  {
    var local := UpperLocalIndex(g, nodeID, L);
    if local < 0 {
      return [];
    }
    return g.UpperRow(g.upperOff[L - 1] + local);
  }

  lemma {:induction false} IndexOfUnique(s: seq<int>, i: nat)
    requires i < |s| && Ascending(s)
    ensures IndexOf(s, s[i]) == i
    decreases |s|
  {
    if i > 0 {
      assert s[0] < s[i] && s[1..][i - 1] == s[i];
      IndexOfUnique(s[1..], i - 1);
    }
  }

  // ---------- The mutable graph ----------

  /** The graph under construction: its buffers are replaced and updated by the builder
      and by Reorder; queries read the value given by View. */
  class Graph {
    var n: nat
    var m: nat
    var m0: nat
    var vectors: seq<Byte>
    var conn0: seq<int>
    var conn0Cnt: seq<Byte>
    var labels: seq<Byte>
    var upperOff: seq<int>
    var upperNodes: seq<int>
    var upperCnt: seq<Byte>
    var upperConn: seq<int>
    var entryPoint: nat
    var maxLayer: int

    function View(): Index
      reads this
    {
      Index(n, m, m0, vectors, conn0, conn0Cnt, labels, upperOff, upperNodes, upperCnt, upperConn, entryPoint, maxLayer)
    }

    method Set(v: Index)
      modifies this
      ensures View() == v
    {
      n, m, m0, vectors := v.n, v.m, v.m0, v.vectors;
      conn0, conn0Cnt, labels := v.conn0, v.conn0Cnt, v.labels;
      entryPoint, maxLayer := v.entryPoint, v.maxLayer;
      SetUpper(v.upperOff, v.upperNodes, v.upperCnt, v.upperConn);
    }

    method SetUpper(off: seq<int>, nodes: seq<int>, cnts: seq<Byte>, conns: seq<int>)
      modifies this`upperOff, this`upperNodes, this`upperCnt, this`upperConn
      ensures upperOff == off && upperNodes == nodes && upperCnt == cnts && upperConn == conns
    {
      upperOff, upperNodes, upperCnt, upperConn := off, nodes, cnts, conns;
    }

    /** An empty graph with room for capacity nodes; every base-layer slot is -1. */
    constructor (capacity: nat, m: nat, m0: nat)
      ensures this.n == capacity && this.m == m && this.m0 == m0
      ensures vectors == Zeros(capacity * DIM) && conn0 == Unused(capacity * m0)
      ensures conn0Cnt == Zeros(capacity) && labels == Zeros((capacity + 7) / 8)
      ensures upperOff == [] && upperNodes == [] && upperCnt == [] && upperConn == []
      ensures entryPoint == 0 && maxLayer == 0
    {
      this.n, this.m, this.m0 := capacity, m, m0;
      vectors, conn0 := Zeros(capacity * DIM), Unused(capacity * m0);
      conn0Cnt, labels := Zeros(capacity), Zeros((capacity + 7) / 8);
      upperOff, upperNodes, upperCnt, upperConn := [], [], [], [];
      entryPoint, maxLayer := 0, 0;
    }
  }

  function Zeros(k: nat): (z: seq<Byte>)
    ensures |z| == k && forall i :: 0 <= i < k ==> z[i] == 0
  {
    seq(k, i requires 0 <= i < k => 0)
  }

  function Unused(k: nat): (z: seq<int>)
    ensures |z| == k && forall i :: 0 <= i < k ==> z[i] == -1
  {
    seq(k, i requires 0 <= i < k => -1)
  }
}
