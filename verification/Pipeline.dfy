/** The offline build from end to end (cmd/build-index/main.go:50-69 and
    internal/buildindex/buildindex.go:55-85): insert every record, finalize, reorder. */
module Pipeline {
  import opened Distance
  import opened LayerSearch
  import opened TopFive
  import opened GreedyClimbs
  import opened Network
  import opened Relabelling
  import opened GraphIndex
  import opened QueryEngine
  import opened BuilderSearch
  import opened BuildSteps
  import opened Building
  import opened CompleteLayers
  import opened Flattening
  import opened Reordering
  import opened BreadthFirst
  import opened Persistence

  /** The records to index: vectors, fraud labels, and the level drawn for each. */
  datatype Records = Records(vectors: seq<seq<Byte>>, frauds: seq<bool>, levels: seq<nat>) {
    ghost predicate Ok() {
      && 0 < |vectors| < 0x8000_0000 && |frauds| == |vectors| == |levels|
      && (forall i :: 0 <= i < |vectors| ==> |vectors[i]| == DIM && levels[i] <= 31)
    }
  }

  /** Nodes 0..k hold the first k records. */
  ghost predicate Holding(v: Index, r: Records, k: nat) {
    && v.BaseSized() && r.Ok() && k <= v.n == |r.vectors|
    && forall i :: 0 <= i < k ==> v.VectorAt(i) == r.vectors[i] && (v.IsFraud(i) <==> r.frauds[i])
  }

  lemma HoldingGrows(v: Index, gv: Index, w: Index, r: Records, k: nat)
    requires Holding(v, r, k) && k < |r.vectors| && Stored(v, gv, k, r.vectors[k], r.frauds[k])
    requires w.BaseSized() && w.n == v.n && w.vectors == gv.vectors && w.labels == gv.labels
    ensures Holding(w, r, k + 1)
  {
    forall i | 0 <= i < k + 1 ensures w.VectorAt(i) == r.vectors[i] && (w.IsFraud(i) <==> r.frauds[i]) {
      assert w.VectorAt(i) == gv.VectorAt(i) && (w.IsFraud(i) <==> gv.IsFraud(i));
    }
  }

  /** Insert the first `count` records in order.  While no more than M0 + 1 nodes are in and
      the search is as wide as what is there, every two of them are linked. */
  method InsertSome(r: Records, m: nat, m0: nat, efC: nat, count: nat) returns (b: Builder)
    requires r.Ok() && 1 <= m <= 255 && 1 <= m0 <= 255 && efC >= 1 && count <= |r.vectors|
    ensures fresh(b) && fresh(b.g) && fresh(b.visits) && fresh(b.visits.marks)
    ensures b.Valid() && b.g.n == |r.vectors| && b.inserted == count
    ensures b.g.m == m && b.g.m0 == m0 && b.efC == efC && b.levels[..count] == r.levels[..count]
    ensures Holding(b.g.View(), r, count)
    ensures count <= m0 + 1 && count <= efC + 1 ==> BaseComplete(b.g.View(), count)
  {
    hide BuilderFine, Inserted, First, Stored;
    b := new Builder(|r.vectors|, m, m0, efC);
    FineBase(b.g.View(), b.upperConns, b.levels[..0], b.efC);
    for i := 0 to count
      invariant fresh(b) && fresh(b.g) && fresh(b.visits) && fresh(b.visits.marks)
      invariant b.Valid() && b.g.n == |r.vectors| && b.inserted == i
      invariant b.g.m == m && b.g.m0 == m0 && b.efC == efC
      invariant b.levels[..i] == r.levels[..i]
      invariant Holding(b.g.View(), r, i)
      invariant i <= m0 + 1 && i <= efC + 1 ==> BaseComplete(b.g.View(), i)
    {
      InsertRecord(b, r, i);
    }
  }

  lemma StoredSized(v: Index, w: Index, id: nat, vec: seq<Byte>, fraud: bool)
    requires Stored(v, w, id, vec, fraud)
    ensures w.BaseSized() && w.n == v.n
  {
  }

  lemma OneIsComplete(v: Index)
    requires v.BaseSized() && v.n >= 1
    ensures BaseComplete(v, 1)
  {
  }

  /** Insert record i, the next one. */
  method InsertRecord(b: Builder, r: Records, i: nat)
    requires b.Valid() && b.inserted == i < b.g.n == |r.vectors| && r.Ok() && Holding(b.g.View(), r, i)
    requires b.levels[..i] == r.levels[..i]
    requires i <= b.g.m0 + 1 && i <= b.efC + 1 ==> BaseComplete(b.g.View(), i)
    modifies b`levels, b`upperConns, b`inserted, b.g, b.visits, b.visits.marks
    ensures b.Valid() && b.inserted == i + 1 && b.g.n == old(b.g.n) && b.g.m == old(b.g.m) && b.g.m0 == old(b.g.m0)
    ensures b.levels[..i + 1] == r.levels[..i + 1] && Holding(b.g.View(), r, i + 1)
    ensures i + 1 <= b.g.m0 + 1 && i + 1 <= b.efC + 1 ==> BaseComplete(b.g.View(), i + 1)
  {
    hide BuilderFine, Inserted, First, Stored, BaseComplete;
    ghost var v, up, levels := b.g.View(), b.upperConns, b.levels[..i];
    FineBase(v, up, levels, b.efC);
    ghost var gv, trail := b.Insert(i, r.vectors[i], r.frauds[i], r.levels[i]);
    ghost var w := b.g.View();
    StoredSized(v, gv, i, r.vectors[i], r.frauds[i]);
    assert b.levels[..i + 1] == levels + [r.levels[i]];
    FineBase(w, b.upperConns, b.levels[..i + 1], b.efC);
    HoldingGrows(v, gv, w, r, i);
    if i == 0 {
      OneIsComplete(w);
    } else if i <= b.g.m0 && i <= b.efC {
      InsertionKeepsComplete(gv, NodeDistances(gv, AsInts(r.vectors[i])), v, up, w, b.upperConns,
                             levels, r.levels[i], b.efC, trail);
    }
  }

  /** Insert every record in order. */
  method InsertAll(r: Records, m: nat, m0: nat, efC: nat) returns (b: Builder)
    requires r.Ok() && 1 <= m <= 255 && 1 <= m0 <= 255 && efC >= 1
    ensures fresh(b) && fresh(b.g) && b.Valid() && b.g.n == b.inserted == |r.vectors| && b.levels == r.levels
    ensures b.g.m == m && b.g.m0 == m0 && b.efC == efC
    ensures Holding(b.g.View(), r, |r.vectors|)
    ensures |r.vectors| <= m0 + 1 && |r.vectors| <= efC + 1 ==> BaseComplete(b.g.View(), |r.vectors|)
  {
    hide BuilderFine;
    b := InsertSome(r, m, m0, efC, |r.vectors|);
    assert b.levels[..|r.vectors|] == b.levels && r.levels[..|r.vectors|] == r.levels;
  }

  // ---------- The builder's invariant on the shipped index ----------

  /** The layers of an index read back as a builder state. */
  ghost function AsStage(ix: Index, levels: seq<nat>): Stage
    requires ix.Sized()
  {
    Stage(ix.Layered().layers, levels, ix.entryPoint)
  }

  /** Nested layers whose members are exactly the nodes of at least that level, every edge
      between two members, no self-loops or duplicates, degrees within the caps, the entry
      point on the top layer, and no node without a base-layer exit once there are two. */
  ghost predicate Structured(ix: Index, levels: seq<nat>, efC: nat) {
    ix.WellFormed() && |levels| == ix.n && StageFine(Config(ix.n, ix.m, ix.m0, efC), AsStage(ix, levels))
  }

  /** Flattening keeps the structure. */
  lemma FinalizedStructure(v: Index, a: Index, up: Uppers, levels: seq<nat>, efC: nat)
    requires BuilderFine(a, up, levels, efC) && a.WellFormed() && |levels| == a.n == v.n && v.BaseSized()
    requires forall id, L: nat :: 0 <= id < a.n && L <= a.maxLayer ==> a.NeighborsAt(id, L) == NeighborsAt(v, up, id, L)
    requires v.m0 == a.m0 && v.conn0 == a.conn0 && v.conn0Cnt == a.conn0Cnt
    ensures Structured(a, levels, efC)
  {
    forall L | 0 <= L <= a.maxLayer ensures a.Layer(L) == LayerAdj(a, up, L) {
      RowsIgnoreEntry(v, a, up, L);
      forall id | 0 <= id < a.n ensures a.Layer(L)[id] == LayerAdj(v, up, L)[id] {
      }
    }
    assert AsStage(a, levels).adj == StageOf(a, up, levels).adj;
  }

  lemma RenamedRow(pi: seq<nat>, row: seq<int>, v: nat, ms: set<nat>, ns: set<nat>)
    requires IsPerm(pi) && v < |pi| && RowElems(row, v, ms)
    requires forall u: nat :: u in ms ==> u < |pi| && pi[u] in ns
    ensures RowElems(MapRow(pi, row), pi[v], ns)
  {
  }

  lemma RenamedLayer(pi: seq<nat>, a: seq<seq<int>>, b: seq<seq<int>>, la: seq<nat>, lb: seq<nat>, L: nat, cap: nat)
    requires RenamedAdj(pi, a, b) && Renamed(pi, la, lb) && LayerFine(a, Members(la, L), cap)
    ensures LayerFine(b, Members(lb, L), cap)
  {
    forall w | 0 <= w < |b|
      ensures if w in Members(lb, L) then RowElems(b[w], w, Members(lb, L)) && |b[w]| <= cap else b[w] == []
    {
      var v := PermHits(pi, w);
      assert b[w] == MapRow(pi, a[v]) && lb[w] == la[v];
      assert v in Members(la, L) <==> w in Members(lb, L);
      if v in Members(la, L) {
        forall u: nat | u in Members(la, L) ensures u < |pi| && pi[u] in Members(lb, L) {
          assert lb[pi[u]] == la[u];
        }
        RenamedRow(pi, a[v], v, Members(la, L), Members(lb, L));
      }
    }
  }

  lemma RenamedLayerFine(pi: seq<nat>, a: Index, b: Index, la: seq<nat>, lb: seq<nat>, L: nat, cap: nat)
    requires a.WellFormed() && b.WellFormed() && Isomorphic(pi, a, b) && Renamed(pi, la, lb) && L <= a.maxLayer
    requires LayerFine(a.Layer(L), Members(la, L), cap)
    ensures LayerFine(b.Layer(L), Members(lb, L), cap)
  {
    forall v | 0 <= v < a.n ensures b.Layer(L)[pi[v]] == MapRow(pi, a.Layer(L)[v]) {
      assert b.NeighborsAt(pi[v], L) == MapRow(pi, a.NeighborsAt(v, L));
    }
    hide LayerFine, Index.Layer, Index.WellFormed;
    RenamedLayer(pi, a.Layer(L), b.Layer(L), la, lb, L, cap);
  }

  lemma RenamedNode(pi: seq<nat>, a: Index, b: Index, la: seq<nat>, lb: seq<nat>, w: nat) returns (v: nat)
    requires a.WellFormed() && b.WellFormed() && Isomorphic(pi, a, b) && Renamed(pi, la, lb) && w < b.n
    ensures v < a.n && lb[w] == la[v] && (a.Layer0Neighbors(v) != [] ==> b.Layer0Neighbors(w) != [])
  {
    v := PermHits(pi, w);
    assert b.NeighborsAt(pi[v], 0) == MapRow(pi, a.NeighborsAt(v, 0));
  }

  lemma EntryOnTop(pi: seq<nat>, a: Index, b: Index, la: seq<nat>, lb: seq<nat>)
    requires a.WellFormed() && b.WellFormed() && Isomorphic(pi, a, b) && Renamed(pi, la, lb)
    ensures lb[b.entryPoint] == la[a.entryPoint] && b.maxLayer == a.maxLayer && b.n == a.n && b.m == a.m && b.m0 == a.m0
  {
  }

  /** Reordering keeps the structure. */
  lemma ReorderedStructure(pi: seq<nat>, a: Index, b: Index, la: seq<nat>, lb: seq<nat>, efC: nat)
    requires a.WellFormed() && b.WellFormed() && Isomorphic(pi, a, b) && Structured(a, la, efC) && Renamed(pi, la, lb)
    ensures Structured(b, lb, efC)
  {
    var c := Config(a.n, a.m, a.m0, efC);
    EntryOnTop(pi, a, b, la, lb);
    hide Isomorphic, LayerFine, Index.WellFormed, Index.Layer0Neighbors;
    forall L | 0 <= L <= b.maxLayer ensures LayerFine(b.Layer(L), Members(lb, L), c.Cap(L)) {
      RenamedLayerFine(pi, a, b, la, lb, L, c.Cap(L));
    }
    forall w | 0 <= w < b.n ensures lb[w] <= b.maxLayer && (b.n >= 2 ==> b.Layer(0)[w] != []) {
      var v := RenamedNode(pi, a, b, la, lb, w);
      assert a.Layer(0)[v] == a.Layer0Neighbors(v) && b.Layer(0)[w] == b.Layer0Neighbors(w);
    }
  }

  /** The members of every layer. */
  ghost function MembersByLayer(levels: seq<nat>, top: nat): (ms: seq<set<nat>>)
    ensures |ms| == top + 1 && forall L :: 0 <= L <= top ==> ms[L] == Members(levels, L)
  {
    seq(top + 1, L requires 0 <= L <= top => Members(levels, L))
  }

  /** So every query descends greedily on it: from the entry point down, each layer ends
      at a member of that layer none of whose neighbours there is closer. */
  lemma StructuredIsPopulated(ix: Index, levels: seq<nat>, efC: nat)
    requires Structured(ix, levels, efC)
    ensures Populated(ix.Layered(), MembersByLayer(levels, ix.maxLayer))
  {
    var net := ix.Layered();
    var c := Config(ix.n, ix.m, ix.m0, efC);
    forall L | 0 <= L <= ix.maxLayer ensures Closed(net.layers[L], Members(levels, L)) {
      var ms := Members(levels, L);
      assert LayerFine(net.layers[L], ms, c.Cap(L));
      forall v, j | v in ms && v < |net.layers[L]| && 0 <= j < |net.layers[L][v]| && net.layers[L][v][j] >= 0
        ensures net.layers[L][v][j] in ms
      {
        assert RowElems(net.layers[L][v], v, ms);
      }
    }
  }

  lemma StructuredNet(ix: Index, levels: seq<nat>, efC: nat, q: seq<int>, L: nat)
    requires Structured(ix, levels, efC) && |q| == DIM && 1 <= L <= ix.maxLayer
    ensures NetOk(ix.Layered(), ix.n)
    ensures var net, d := ix.Layered(), ix.Distances(q);
            var r := Arrive(net, d, L);
            && r in Members(levels, L) && d[r] <= d[Arrive(net, d, L + 1)] <= d[net.entry]
            && SpaceOk(At(net, d, L)) && LocalMinimum(At(net, d, L), r)
  {
    ix.NetIsOk();
    StructuredIsPopulated(ix, levels, efC);
    hide Structured, NetOk, Populated, Arrive, LocalMinimum, At, Members, Index.WellFormed, Index.Layer, Index.Layered;
    DescentIsGreedy(ix.Layered(), ix.Distances(q), MembersByLayer(levels, ix.maxLayer), L);
  }

  /** On a structured index the descent for any query is greedy on every upper layer. */
  lemma StructuredDescent(ix: Index, levels: seq<nat>, efC: nat, q: seq<int>, L: nat)
    requires Structured(ix, levels, efC) && |q| == DIM && 1 <= L <= ix.maxLayer
    ensures NetOk(ix.Layered(), ix.n)
    ensures var d := ix.Distances(q);
            var r := Arrive(ix.Layered(), d, L);
            && r < ix.n && levels[r] >= L && d[r] <= d[ix.entryPoint]
            && forall j :: 0 <= j < |ix.NeighborsAt(r, L)| && ix.NeighborsAt(r, L)[j] >= 0 ==>
                 ix.NeighborsAt(r, L)[j] < ix.n && d[ix.NeighborsAt(r, L)[j]] >= d[r]
  {
    StructuredNet(ix, levels, efC, q, L);
    hide NetOk, Arrive, Index.NeighborsAt, StageFine, Index.Distances, Index.Layer, AdjOk;
    var d := ix.Distances(q);
    var r := Arrive(ix.Layered(), d, L);
    var row := ix.NeighborsAt(r, L);
    assert At(ix.Layered(), d, L).adj[r] == row;
    ix.NeighborsInRange(r, L);
  }

  // ---------- The size of the upper layers ----------

  function LevelSum(levels: seq<nat>): nat {
    if levels == [] then 0 else LevelSum(levels[..|levels| - 1]) + levels[|levels| - 1]
  }

  /** How many memberships the first k upper layers have. */
  ghost function MemberCount(levels: seq<nat>, k: nat): nat {
    if k == 0 then 0 else MemberCount(levels, k - 1) + |Members(levels, k)|
  }

  lemma {:induction false} OneMoreNode(levels: seq<nat>, level: nat, k: nat)
    ensures MemberCount(levels + [level], k) == MemberCount(levels, k) + if level < k then level else k
  {
    if k > 0 {
      OneMoreNode(levels, level, k - 1);
      MembersGrow(levels, level, k);
    }
  }

  lemma {:induction false} NobodyCounts(k: nat)
    ensures MemberCount([], k) == 0
  {
    if k > 0 {
      NobodyCounts(k - 1);
      assert Members([], k) == {};
    }
  }

  /** A node of level l is on l upper layers. */
  lemma {:induction false} MembershipsAreLevels(levels: seq<nat>, k: nat)
    requires forall v :: 0 <= v < |levels| ==> levels[v] <= k
    ensures MemberCount(levels, k) == LevelSum(levels)
  {
    if levels == [] {
      NobodyCounts(k);
    } else {
      var front, level := levels[..|levels| - 1], levels[|levels| - 1];
      assert levels == front + [level];
      OneMoreNode(front, level, k);
      MembershipsAreLevels(front, k);
    }
  }

  lemma {:induction false} EntriesAreMemberships(up: Uppers, levels: seq<nat>, k: nat)
    requires KeysAre(up, levels) && k <= |up|
    ensures UpperCount(up, k) == MemberCount(levels, k)
  {
    if k > 0 {
      EntriesAreMemberships(up, levels, k - 1);
      assert forall v: int :: v in up[k - 1] <==> v in Members(levels, k);
      assert up[k - 1].Keys == Members(levels, k);
    }
  }

  /** The upper layers hold as many entries as the levels sum up to. */
  lemma EntriesAreLevels(v: Index, up: Uppers, levels: seq<nat>, efC: nat)
    requires BuilderFine(v, up, levels, efC)
    ensures UpperCount(up, |up|) == LevelSum(levels)
  {
    if levels != [] {
      EntriesAreMemberships(up, levels, |up|);
      assert |StageOf(v, up, levels).adj| == |up| + 1;
      MembershipsAreLevels(levels, |up|);
    }
  }

  // ---------- The whole build ----------

  lemma HoldingStays(v: Index, a: Index, r: Records)
    requires Holding(v, r, |r.vectors|) && a.BaseSized() && a.n == v.n && a.vectors == v.vectors && a.labels == v.labels
    ensures Holding(a, r, |r.vectors|)
  {
    assert forall i :: 0 <= i < a.n ==> a.VectorAt(i) == v.VectorAt(i) && (a.IsFraud(i) <==> v.IsFraud(i));
  }

  lemma RenamedRecords(pi: seq<nat>, a: Index, b: Index, r: Records)
    requires a.WellFormed() && b.WellFormed() && Isomorphic(pi, a, b) && Holding(a, r, |r.vectors|)
    ensures IsPerm(pi) && |pi| == a.n == b.n
    ensures forall i :: 0 <= i < b.n ==>
              pi[i] < b.n && b.VectorAt(pi[i]) == r.vectors[i] && (b.IsFraud(pi[i]) <==> r.frauds[i])
  {
  }

  lemma RenamingExists(pi: seq<nat>, la: seq<nat>) returns (lb: seq<nat>)
    requires IsPerm(pi) && |la| == |pi|
    ensures Renamed(pi, la, lb)
  {
    lb := [];
    for w := 0 to |pi|
      invariant |lb| == w
      invariant forall v :: 0 <= v < |pi| && pi[v] < w ==> lb[pi[v]] == la[v]
    {
      var v := PermHits(pi, w);
      lb := lb + [la[v]];
    }
  }

  lemma SameBase(v: Index, a: Index)
    requires v.BaseSized() && a.BaseSized() && v.n == a.n && v.m0 == a.m0 && v.conn0 == a.conn0
    requires v.conn0Cnt == a.conn0Cnt
    ensures BaseComplete(v, v.n) ==> BaseComplete(a, a.n)
  {
    assert forall w :: 0 <= w < v.n ==> a.Layer0Neighbors(w) == v.Layer0Neighbors(w);
  }

  /** Insert everything, then finalize. */
  method BuildAndFinalize(r: Records, m: nat, m0: nat, efC: nat) returns (g: Graph)
    requires r.Ok() && LevelSum(r.levels) < 0x8000_0000 && 1 <= m <= 255 && 1 <= m0 <= 255 && efC >= 1
    ensures fresh(g) && g.View().WellFormed() && g.n == |r.vectors| && g.m == m && g.m0 == m0
    ensures Holding(g.View(), r, g.n) && Structured(g.View(), r.levels, efC)
    ensures |g.upperNodes| == LevelSum(r.levels)
    ensures g.n <= m0 + 1 && g.n <= efC + 1 ==> BaseComplete(g.View(), g.n)
  {
    hide BuilderFine, Structured, BaseComplete, LevelSum, UpperCount, Holding;
    var b := InsertAll(r, m, m0, efC);
    ghost var v := b.g.View();
    assert b.levels[..b.inserted] == b.levels;
    FineBase(v, b.upperConns, b.levels, b.efC);
    EntriesAreLevels(v, b.upperConns, b.levels, b.efC);
    Finalize(b);
    g := b.g;
    HoldingStays(v, g.View(), r);
    FinalizedStructure(v, g.View(), b.upperConns, b.levels, b.efC);
    SameBase(v, g.View());
  }

  /** The whole offline build.  Whatever levels were drawn, as long as they sum to less than
      2^31, the result is a well-formed index with entry point 0; record i is node names[i],
      with its vector, label and level; and everything the builder keeps about layers, edges
      and degrees holds of it.  With no more than M0 + 1 records and a search as wide, every
      two nodes are linked at the base layer. */
  method BuildIndex(r: Records, m: nat, m0: nat, efC: nat)
      returns (g: Graph, ghost names: seq<nat>, ghost levels: seq<nat>)
    requires r.Ok() && LevelSum(r.levels) < 0x8000_0000 && 1 <= m <= 255 && 1 <= m0 <= 255 && efC >= 1
    ensures fresh(g) && g.View().WellFormed() && g.n == |r.vectors| && g.m == m && g.m0 == m0 && g.entryPoint == 0
    ensures IsPerm(names) && |names| == g.n && Renamed(names, r.levels, levels)
    ensures forall i :: 0 <= i < g.n ==>
              && names[i] < g.n && g.View().VectorAt(names[i]) == r.vectors[i]
              && (g.View().IsFraud(names[i]) <==> r.frauds[i])
    ensures Structured(g.View(), levels, efC) && |g.upperNodes| == LevelSum(r.levels)
    ensures g.n <= m0 + 1 && g.n <= efC + 1 ==> BaseComplete(g.View(), g.n)
  {
    hide BreadthFirstOrder, Structured, Renamed, BaseComplete, LevelSum, Holding;
    g := BuildAndFinalize(r, m, m0, efC);
    ghost var a := g.View();
    names := Reorder(g);
    ghost var b := g.View();
    RenamedRecords(names, a, b, r);
    levels := RenamingExists(names, r.levels);
    ReorderedStructure(names, a, b, r.levels, levels, efC);
    SameUpperSize(a, b);
    if a.n <= m0 + 1 && a.n <= efC + 1 {
      ReorderingKeepsComplete(names, a, b);
    }
  }

  lemma SameUpperSize(a: Index, b: Index)
    requires a.WellFormed() && b.WellFormed() && a.upperOff == b.upperOff && a.maxLayer == b.maxLayer
    ensures |a.upperNodes| == |b.upperNodes|
  {
  }

  // ---------- Shipping ----------

  lemma ProductBound(n: nat, w: nat, a: nat, b: nat)
    requires n <= a && w <= b
    ensures n * w <= a * b
  {
    assert n * w <= a * w <= a * b;
  }

  lemma SmallSections(ix: Index)
    requires ix.WellFormed() && ix.m <= 255 && ix.m0 <= 255 && |ix.upperNodes| < 0x8000_0000
    ensures |ix.vectors| < 0x100_0000_0000 && |ix.conn0Cnt| < 0x100_0000_0000 && |ix.conn0| < 0x100_0000_0000
    ensures |ix.labels| < 0x100_0000_0000 && |ix.upperCnt| < 0x100_0000_0000 && |ix.upperConn| < 0x100_0000_0000
  {
    ProductBound(ix.n, DIM, 0x8000_0000, 255);
    ProductBound(ix.n, ix.m0, 0x8000_0000, 255);
    ProductBound(|ix.upperNodes|, ix.m, 0x8000_0000, 255);
  }

  lemma {:induction false} FileEnd(sections: seq<seq<Byte>>, k: nat, bound: nat)
    requires k <= |sections| && forall i :: 0 <= i < k ==> |sections[i]| <= bound
    ensures EndOf(sections, k) <= HEADER_SIZE + k * (bound + ALIGNMENT)
  {
    if k > 0 {
      FileEnd(sections, k - 1, bound);
      assert k * (bound + ALIGNMENT) == (k - 1) * (bound + ALIGNMENT) + (bound + ALIGNMENT);
    }
  }

  /** Every index within the build's limits can be saved. */
  lemma BuiltFits(ix: Index)
    requires ix.WellFormed() && ix.m <= 255 && ix.m0 <= 255 && |ix.upperNodes| < 0x8000_0000
    requires ix.maxLayer < 0x8000_0000
    ensures Fits(ix)
  {
    hide EndOf;
    SmallSections(ix);
    assert Int32Sections(ix);
    FileEnd(Sections(ix), 8, 0x1000_0000_0000);
  }

  lemma TopLevel(ix: Index, levels: seq<nat>, efC: nat, names: seq<nat>, r: Records)
    requires Structured(ix, levels, efC) && r.Ok() && Renamed(names, r.levels, levels)
    ensures ix.maxLayer <= 31
  {
    var v := PermHits(names, ix.entryPoint);
    assert |AsStage(ix, levels).adj| == ix.maxLayer + 1;
  }

  lemma CompleteIsAlwaysExact(g: Index)
    requires g.WellFormed() && BaseComplete(g, g.n) && g.n >= 5
    ensures forall q: seq<int> :: |q| == DIM ==> IsClosest(Answer(g, q), g.Distances(q), Ids(g.n))
  {
    forall q: seq<int> | |q| == DIM ensures IsClosest(Answer(g, q), g.Distances(q), Ids(g.n)) {
      CompleteIsExact(g, q);
    }
  }

  /** The offline build and the start of the service (cmd/build-index/main.go:46-85): the
      index that is saved is the index that is loaded.  With five to M0 + 1 records, and a
      search as wide, every answer of it is exact. */
  method BuildAndLoad(r: Records, m: nat, m0: nat, efC: nat)
      returns (g: Graph, loaded: Result<Graph>, ghost names: seq<nat>, ghost levels: seq<nat>)
    requires r.Ok() && LevelSum(r.levels) < 0x8000_0000 && 1 <= m <= 255 && 1 <= m0 <= 255 && efC >= 1
    ensures loaded.Got? && loaded.value.View() == g.View()
    ensures Structured(g.View(), levels, efC) && g.n == |r.vectors| && g.entryPoint == 0
    ensures IsPerm(names) && |names| == g.n && Renamed(names, r.levels, levels)
    ensures forall i :: 0 <= i < g.n ==>
              && names[i] < g.n && g.View().VectorAt(names[i]) == r.vectors[i]
              && (g.View().IsFraud(names[i]) <==> r.frauds[i])
    ensures 5 <= g.n <= m0 + 1 && g.n <= efC + 1 ==>
              forall q: seq<int> :: |q| == DIM ==> IsClosest(Answer(g.View(), q), g.View().Distances(q), Ids(g.n))
  {
    hide Structured, Renamed, Fits, Parse, Image, BaseComplete, IsClosest, Answer;
    g, names, levels := BuildIndex(r, m, m0, efC);
    TopLevel(g.View(), levels, efC, names, r);
    BuiltFits(g.View());
    WellFormedSurvives(g.View());
    if 5 <= g.n <= m0 + 1 && g.n <= efC + 1 {
      CompleteIsAlwaysExact(g.View());
    }
    var f, written := Save(g);
    loaded := LoadFromBytes(f.data);
  }
}
