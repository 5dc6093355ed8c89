/** Three builds that show where the source's comments promise too much: one in which a
    full base-layer row shrinks and the new edge is dropped (internal/hnsw/hnsw.go:495-498,
    521), one in which Reorder changes the response to every query
    (internal/hnsw/reorder.go:9-12), and one in which a stored vector is not in its own
    truth set (internal/buildindex/buildindex.go:90-92). */
module Counterexamples {
  import opened Distance
  import opened CandidateHeap
  import opened LayerSearch
  import opened TopFive
  import opened Network
  import opened Relabelling
  import opened GraphIndex
  import opened QueryEngine
  import opened BruteForce
  import opened NeighborSelection
  import opened BuilderSearch
  import opened BuildSteps
  import opened Building
  import opened Reordering
  import opened BreadthFirst
  import opened CompleteLayers
  import opened Pipeline

  // ---------- Four points in the plane ----------

  /** A vector that is zero from the third dimension on. */
  function Point(x: Byte, y: Byte): (v: seq<Byte>)
    ensures |v| == DIM
  {
    [x, y] + Zeros(DIM - 2)
  }

  lemma {:induction false} OnlyTwoDiffer(q: seq<int>, v: seq<int>, k: nat)
    requires 2 <= k <= |q| == |v| && forall i :: 2 <= i < k ==> q[i] == v[i]
    ensures SumSq(q, v, k) == Sq(q[0] - v[0]) + Sq(q[1] - v[1])
  {
    if k == 2 {
      assert SumSq(q, v, 1) == SumSq(q, v, 0) + Sq(q[0] - v[0]);
    } else {
      OnlyTwoDiffer(q, v, k - 1);
    }
  }

  lemma PointDistance(a: Byte, b: Byte, c: Byte, d: Byte)
    ensures Dist(Point(a, b), Point(c, d)) == Sq(a as int - c as int) + Sq(b as int - d as int)
  {
    hide SumSq, Sq, Wrap32;
    OnlyTwoDiffer(Point(a, b), Point(c, d), DIM);
    SmallSquare(a as int - c as int);
    SmallSquare(b as int - d as int);
  }

  ghost predicate FourPoints(g: Index) {
    && g.n == 4 && |g.vectors| == g.n * DIM
    && g.VectorAt(0) == Point(0, 0) && g.VectorAt(1) == Point(6, 5)
    && g.VectorAt(2) == Point(9, 6) && g.VectorAt(3) == Point(10, 0)
  }

  lemma Gaps(g: Index)
    requires FourPoints(g)
    ensures NodeDist(g, 0, 1) == 61 && NodeDist(g, 0, 2) == 117 && NodeDist(g, 0, 3) == 100
    ensures NodeDist(g, 1, 2) == 10 && NodeDist(g, 2, 1) == 10 && NodeDist(g, 3, 1) == 41
  {
    hide Dist, Point, Index.VectorAt;
    PointDistance(0, 0, 6, 5);
    PointDistance(0, 0, 9, 6);
    PointDistance(0, 0, 10, 0);
    PointDistance(6, 5, 9, 6);
    PointDistance(9, 6, 6, 5);
    PointDistance(10, 0, 6, 5);
  }

  /** Distances from the fourth point, as its insertion sees them. */
  lemma LastPointDistances(g: Index)
    requires FourPoints(g)
    ensures var d := NodeDistances(g, AsInts(Point(10, 0))); d[0] == 100 && d[1] == 41 && d[2] == 37
  {
    hide Dist, Point, Index.VectorAt;
    PointDistance(10, 0, 0, 0);
    PointDistance(10, 0, 6, 5);
    PointDistance(10, 0, 9, 6);
    assert AsInts(Point(10, 0)) == Point(10, 0);
  }

  // ---------- Selections of two from three ----------

  lemma SortedThree(s: seq<Item>, a: Item, b: Item, c: Item)
    requires ByDistance(s) && |s| == 3 && a in s && b in s && c in s && a.dist < b.dist < c.dist
    ensures s == [a, b, c]
  {
  }

  lemma KeepsFirst(g: Index, s: seq<Item>)
    requires Usable(g, s) && |s| > 0
    ensures KeptOf(g, s, 2, 0) == [] && Keeps(g, s, 2, [], 0)
  {
  }

  lemma KeepsAfter(g: Index, s: seq<Item>, k: nat, i: nat)
    requires Usable(g, s) && k < |s| && i < |s|
    ensures Keeps(g, s, 2, [k], i) <==> Clears(g, s[i], s[k])
  {
    var kept: seq<nat> := [k];
    assert kept[0] == k;
  }

  lemma FirstAndThird(g: Index, s: seq<Item>)
    requires Usable(g, s) && |s| == 3 && !Clears(g, s[1], s[0]) && Clears(g, s[2], s[0])
    ensures KeptOf(g, s, 2, 3) == [0, 2]
  {
    hide *;
    KeepsFirst(g, s);
    KeepsAfter(g, s, 0, 1);
    KeepsAfter(g, s, 0, 2);
    KeptStep(g, s, 2, 0, []);
    KeptStep(g, s, 2, 1, [0]);
    KeptStep(g, s, 2, 2, [0]);
  }

  lemma SecondDropped(g: Index, s: seq<Item>)
    requires Usable(g, s) && |s| == 3 && !Clears(g, s[1], s[0]) && Clears(g, s[2], s[0])
    ensures Select(g, s, 2) == [s[0], s[2]]
  {
    hide *;
    FirstAndThird(g, s);
    SelectIsKept(g, s, 2);
  }

  // ---------- The fourth insertion ----------

  /** The candidates for the row of node 0, full with 1 and 2, when the edge to 3 is added. */
  lemma RowCandidates(g: Index, row: seq<int>)
    requires FourPoints(g) && |row| == 2 && 1 in row && 2 in row
    ensures RowIn(row + [3], g.n) && |RowItems(g, 0, row + [3])| == 3
    ensures var items := RowItems(g, 0, row + [3]);
            Item(1, 61) in items && Item(2, 117) in items && Item(3, 100) in items
  {
    Gaps(g);
    hide FourPoints, NodeDist;
    var items := RowItems(g, 0, row + [3]);
    var i :| 0 <= i < |row| && row[i] == 1;
    var j :| 0 <= j < |row| && row[j] == 2;
    assert items[i] == Item(1, 61) && items[j] == Item(2, 117) && items[2] == Item(3, 100);
  }

  /** Only the link to 1 survives. */
  lemma RowShrinks(g: Index, row: seq<int>, row': seq<int>)
    requires FourPoints(g) && |row| == 2 && 1 in row && 2 in row && Relinked(g, 0, row + [3], 2, row')
    ensures row' == [1]
  {
    RowCandidates(g, row);
    var sorted :| ChosenFrom(g, 0, row + [3], 2, row', sorted);
    SortedMembers(RowItems(g, 0, row + [3]), sorted);
    SortedThree(sorted, Item(1, 61), Item(3, 100), Item(2, 117));
    LinkToOneSurvives(g, sorted);
  }

  lemma LinkToOneSurvives(g: Index, s: seq<Item>)
    requires FourPoints(g) && s == [Item(1, 61), Item(3, 100), Item(2, 117)]
    ensures Usable(g, s) && Select(g, s, 2) == [Item(1, 61)]
  {
    Gaps(g);
    hide FourPoints, NodeDist, Select;
    LoneSurvivor(g, s, 2);
  }

  /** What the fourth node finds: all three others. */
  lemma FindsThree(dist: seq<int>, ef: nat, t: Trail, before: seq<seq<int>>, members: set<nat>)
    requires Outcome(Space(before, dist), t.entry, ef, t.found) && LayerFine(before, members, 2)
    requires (forall v: nat :: v in members <==> v < 3) && t.entry in members && Complete(before, 3) && ef >= 3
    requires |dist| == 4
    ensures |t.found| <= 3 && forall v: nat :: v < 3 ==> Item(v, dist[v]) in t.found
  {
    var sp := Space(before, dist);
    OutcomeIsLocallyOptimal(sp, t.entry, ef, t.found);
    forall x | x in t.found ensures x.id < 3 && x == Item(x.id, dist[x.id]) {
      ReachableMembers(before, members, 2, t.entry, x.id);
    }
    hide Outcome, LayerFine, Complete;
    assert forall i :: 0 <= i < |t.found| ==> t.found[i] in t.found;
    NoMoreThan(t.found, 3);
    forall v: nat | v < 3 ensures Item(v, dist[v]) in t.found {
      SearchFindsAll(before, dist, t.entry, ef, t.found, 3, v);
    }
  }

  lemma ThreeItems(s: seq<Item>, a: Item, b: Item, c: Item)
    requires |s| <= 3 && a in s && b in s && c in s && a.id != b.id && b.id != c.id && a.id != c.id
    ensures |s| == 3
  {
    var i :| 0 <= i < |s| && s[i] == a;
    var j :| 0 <= j < |s| && s[j] == b;
    var k :| 0 <= k < |s| && s[k] == c;
  }

  /** What work on a layer does to the new row and to a chosen one. */
  lemma WorkedRows(g: Index, dist: seq<int>, ef: nat, cap: nat, id: nat, t: Trail,
                   before: seq<seq<int>>, after: seq<seq<int>>, s: nat)
    requires Worked(g, dist, ef, cap, id, t, before, after) && s < |before| && s != id
    ensures |after| == |before| && id < |after| && after[id] == IdsOf(Select(g, t.sorted, cap))
    ensures s in IdsOf(Select(g, t.sorted, cap)) ==> Linked(g, s, before[s], id, cap, after[s])
  {
    hide Outcome, Select, Linked;
  }

  lemma TwoOthers(row: seq<int>, members: set<nat>)
    requires RowElems(row, 0, members) && |row| <= 2 && 1 in row && 2 in row
    ensures |row| == 2
  {
    var i :| 0 <= i < |row| && row[i] == 1;
    var j :| 0 <= j < |row| && row[j] == 2;
  }

  /** The fourth point finds the other three and selects two of them. */
  lemma FourthSelection(g: Index, dist: seq<int>, ef: nat, t: Trail, before: seq<seq<int>>, after: seq<seq<int>>,
                        members: set<nat>)
    requires Worked(g, dist, ef, 2, 3, t, before, after) && LayerFine(before, members, 2) && FourPoints(g)
    requires (forall v: nat :: v in members <==> v < 3) && t.entry in members && Complete(before, 3) && ef >= 3
    requires |dist| == 4 && dist[0] == 100 && dist[1] == 41 && dist[2] == 37
    ensures Usable(g, t.sorted) && IdsOf(Select(g, t.sorted, 2)) == [2, 0]
  {
    hide Outcome;
    FindsThree(dist, ef, t, before, members);
    hide LayerFine, Complete;
    ThreeItems(t.found, Item(0, 100), Item(1, 41), Item(2, 37));
    Gaps(g);
    hide FourPoints, NodeDist, Select;
    SortedMembers(t.found, t.sorted);
    SortedThree(t.sorted, Item(2, 37), Item(1, 41), Item(0, 100));
    SecondDropped(g, t.sorted);
  }

  lemma FourthInsertion(g: Index, dist: seq<int>, ef: nat, t: Trail, before: seq<seq<int>>, after: seq<seq<int>>,
                        members: set<nat>)
    requires Worked(g, dist, ef, 2, 3, t, before, after) && LayerFine(before, members, 2) && FourPoints(g)
    requires (forall v: nat :: v in members <==> v < 3) && t.entry in members && Complete(before, 3) && ef >= 3
    requires |dist| == |before| == 4 && dist[0] == 100 && dist[1] == 41 && dist[2] == 37
    ensures |before| == |after| == 4 && |before[0]| == 2 && after[3] == [2, 0] && after[0] == [1]
  {
    assert RowElems(before[0], 0, members) && |before[0]| <= 2 && 1 in before[0] && 2 in before[0];
    hide *;
    FourthSelection(g, dist, ef, t, before, after, members);
    WorkedRows(g, dist, ef, 2, 3, t, before, after, 0);
    TwoOthers(before[0], members);
    var chosen := IdsOf(Select(g, t.sorted, 2));
    assert chosen[1] == 0;
    FullLinked(g, before[0], after[0]);
    RowShrinks(g, before[0], after[0]);
  }

  lemma FullLinked(g: Index, row: seq<int>, row': seq<int>)
    requires Linked(g, 0, row, 3, 2, row') && |row| == 2
    ensures Relinked(g, 0, row + [3], 2, row')
  {
  }

  // ---------- The first build ----------

  lemma ShrunkRow(gv: Index, v: Index, up: Uppers, w: Index, up': Uppers, levels: seq<nat>, level: nat, efC: nat,
                  trail: seq<Trail>)
    requires BuilderFine(v, up, levels, efC) && |levels| == 3 && v.m0 == 2 && efC >= 3 && v.n == w.n == 4
    requires w.BaseSized()
    requires BaseComplete(v, 3) && FourPoints(gv)
    requires Inserted(ConfigOf(v, efC), gv, NodeDistances(gv, AsInts(Point(10, 0))), StageOf(v, up, levels),
                      StageOf(w, up', levels + [level]), level, trail)
    ensures |v.Layer0Neighbors(0)| == 2 && w.Layer0Neighbors(3) == [2, 0] && w.Layer0Neighbors(0) == [1]
  {
    var c, dist := ConfigOf(v, efC), NodeDistances(gv, AsInts(Point(10, 0)));
    var pre, post := StageOf(v, up, levels), StageOf(w, up', levels + [level]);
    LayerFacts(c, gv, dist, pre, post, level, trail, 0);
    TrailEntries(c, gv, dist, pre, post, level, trail, 0);
    LastPointDistances(gv);
    BaseIsLayer(v, up, 3);
    hide Inserted, StageFine, Worked, LayerFine, BaseComplete, FourPoints;
    FourthInsertion(gv, dist, efC, trail[0], pre.adj[0], post.adj[0], Members(levels, 0));
  }

  /** M0 is 2, and four points are inserted, all at the base layer.  Before the fourth the
      row of node 0 is full; the fourth chooses node 0, so the edge 0 -> 3 is added; after
      that node 0 has one neighbour, and it is not the new one. */
  method RowShrinksBelowM0(m: nat, efC: nat) returns (b: Builder, ghost before: Index)
    requires 1 <= m <= 255 && efC >= 3
    ensures b.Valid() && b.g.m0 == 2 && b.inserted == 4
    ensures before.BaseSized() && before.n == b.g.n == 4 && |before.Layer0Neighbors(0)| == b.g.m0
    ensures b.g.View().Layer0Neighbors(3) == [2, 0] && b.g.View().Layer0Neighbors(0) == [1]
  {
    hide BuilderFine, Inserted, First, Stored, BaseComplete, Point, Holding, FourPoints;
    var r := Records([Point(0, 0), Point(6, 5), Point(9, 6), Point(10, 0)], [false, false, false, false], [0, 0, 0, 0]);
    b := InsertSome(r, m, 2, efC, 3);
    before := b.g.View();
    ghost var up, levels := b.upperConns, b.levels[..3];
    FineBase(before, up, levels, efC);
    ghost var gv, trail := b.Insert(3, r.vectors[3], r.frauds[3], r.levels[3]);
    ghost var w := b.g.View();
    assert b.levels[..4] == levels + [0];
    FineBase(w, b.upperConns, b.levels[..4], efC);
    HoldingPoints(before, gv, r);
    ShrunkRow(gv, before, up, w, b.upperConns, levels, 0, efC, trail);
  }

  lemma HoldingPoints(v: Index, gv: Index, r: Records)
    requires r.vectors == [Point(0, 0), Point(6, 5), Point(9, 6), Point(10, 0)]
    requires Holding(v, r, 3) && Stored(v, gv, 3, r.vectors[3], r.frauds[3])
    ensures FourPoints(gv)
  {
    hide Point;
    HoldingGrows(v, gv, gv, r, 3);
  }

  // ---------- The second build ----------

  function One(b: bool): nat {
    if b then 1 else 0
  }

  lemma CountOfTwo(f: seq<bool>, ids: seq<nat>)
    requires |f| == 2 && |ids| == 5 && (forall i :: 0 <= i < 5 ==> ids[i] < 2)
    requires ids[0] != ids[1] && ids[2] == ids[3] == ids[4] == 0
    ensures FraudCount(f, ids) == One(f[0]) + One(f[1]) + 3 * One(f[0])
  {
    SplitFraudCount(f, ids, 2);
    assert ids[..2][..1] == [ids[0]] && [ids[0]][..0] == [];
    assert FraudCount(f, ids[..2]) == FraudCount(f, [ids[0]]) + One(f[ids[1]]);
    assert FraudCount(f, [ids[0]]) == One(f[ids[0]]);
  }

  lemma TwoAreReached(g: Index, q: seq<int>)
    requires g.WellFormed() && |q| == DIM && g.n == 2 && BaseComplete(g, 2)
    ensures NetOk(g.Layered(), 2) && ReachSet(g.Layered().layers[0], Arrive(g.Layered(), g.Distances(q), 1)) == Ids(2)
  {
    g.NetIsOk();
    CompleteIsExact(g, q);
  }

  lemma TwoAreFound(g: Index, q: seq<int>)
    requires g.WellFormed() && |q| == DIM && g.n == 2 && BaseComplete(g, 2)
    ensures Found(g, q) == 2
    ensures var ids := Answer(g, q); ids[0] != ids[1] && ids[2] == ids[3] == ids[4] == 0
  {
    g.NetIsOk();
    var net, dist := g.Layered(), g.Distances(q);
    TwoAreReached(g, q);
    hide ReachSet, Arrive, BaseComplete, NetOk, Query5, Index.WellFormed;
    ShortAnswer(net, dist);
    assert Query5(net, dist)[..2][0] == Query5(net, dist)[0] && Query5(net, dist)[..2][1] == Query5(net, dist)[1];
  }

  /** On two linked nodes every answer holds both and three paddings with id 0. */
  lemma TwoNodeCount(g: Index, q: seq<int>)
    requires g.WellFormed() && |q| == DIM && g.n == 2 && BaseComplete(g, 2)
    ensures FraudCount(g.Frauds(), Answer(g, q)) == One(g.IsFraud(0)) + One(g.IsFraud(1)) + 3 * One(g.IsFraud(0))
  {
    TwoAreFound(g, q);
    hide BaseComplete, Answer, Index.WellFormed;
    CountOfTwo(g.Frauds(), Answer(g, q));
  }

  /** The higher of the two nodes is the entry point. */
  lemma HigherIsEntry(g: Index, efC: nat)
    requires Structured(g, [0, 1], efC)
    ensures g.entryPoint == 1
  {
    var st := AsStage(g, [0, 1]);
    assert st.levels[1] <= |st.adj| - 1 && st.levels[st.entry] == |st.adj| - 1;
  }

  /** Two records, the second a level higher, the first labelled fraud. */
  method BuildTwo(u: seq<Byte>, v: seq<Byte>, m: nat, m0: nat, efC: nat) returns (g: Graph)
    requires |u| == |v| == DIM && 1 <= m <= 255 && 1 <= m0 <= 255 && efC >= 1
    ensures fresh(g) && g.View().WellFormed() && g.n == 2 && g.entryPoint == 1
    ensures g.View().IsFraud(0) && !g.View().IsFraud(1) && BaseComplete(g.View(), 2)
  {
    hide Structured, BaseComplete;
    var r := Records([u, v], [true, false], [0, 1]);
    assert LevelSum([0, 1]) == 1;
    g := BuildAndFinalize(r, m, m0, efC);
    HigherIsEntry(g.View(), efC);
  }

  /** Whatever the vectors, every query on that index counts four frauds before Reorder and
      one after it. */
  method ReorderChangesResponses(u: seq<Byte>, v: seq<Byte>, m: nat, m0: nat, efC: nat)
      returns (g: Graph, ghost before: Index)
    requires |u| == |v| == DIM && 1 <= m <= 255 && 1 <= m0 <= 255 && efC >= 1
    ensures before.WellFormed() && g.View().WellFormed() && before.n == g.n == 2
    ensures forall q: seq<int> :: |q| == DIM ==>
              && FraudCount(before.Frauds(), Answer(before, q)) == 4
              && FraudCount(g.View().Frauds(), Answer(g.View(), q)) == 1
  {
    hide BaseComplete, BreadthFirstOrder, FraudCount, Answer;
    g := BuildTwo(u, v, m, m0, efC);
    before := g.View();
    ghost var names := Reorder(g);
    ghost var after := g.View();
    ReorderingKeepsComplete(names, before, after);
    NamesSwap(names, before, after);
    hide Isomorphic, Index.WellFormed;
    forall q: seq<int> | |q| == DIM
      ensures FraudCount(before.Frauds(), Answer(before, q)) == 4
      ensures FraudCount(after.Frauds(), Answer(after, q)) == 1
    {
      TwoNodeCount(before, q);
      TwoNodeCount(after, q);
    }
  }

  lemma NamesSwap(names: seq<nat>, a: Index, b: Index)
    requires a.WellFormed() && b.WellFormed() && Isomorphic(names, a, b) && a.n == 2 && names[1] == 0
    requires a.IsFraud(0) && !a.IsFraud(1)
    ensures !b.IsFraud(0) && b.IsFraud(1)
  {
    assert names[0] == 1;
  }

  // ---------- Six equal vectors ----------

  lemma SixTwinsBefore(g: Index, names: seq<nat>, u: seq<Byte>)
    requires g.WellFormed() && g.n == 6 && IsPerm(names) && |names| == 6
    requires forall i :: 0 <= i < 6 ==> g.VectorAt(names[i]) == u
    ensures |TwinsBefore(g, 5)| == 5
  {
    forall w: nat | w < 6 ensures g.VectorAt(w) == u {
      var i := PermHits(names, w);
    }
    assert TwinsBefore(g, 5) == Ids(5);
  }

  lemma {:induction false} NoUpperLevels(levels: seq<nat>)
    requires forall i :: 0 <= i < |levels| ==> levels[i] == 0
    ensures LevelSum(levels) == 0
    decreases |levels|
  {
    if levels != [] {
      NoUpperLevels(levels[..|levels| - 1]);
    }
  }

  /** Whatever the vector, on the index of six records that all hold it the exact five
      nearest nodes of node 5 do not include node 5. */
  method LastTwinIsMissing(u: seq<Byte>, m: nat, m0: nat, efC: nat) returns (g: Graph, truth: array<nat>)
    requires |u| == DIM && 1 <= m <= 255 && 1 <= m0 <= 255 && efC >= 1
    ensures g.View().WellFormed() && g.n == 6 && truth.Length == 5 && 5 !in truth[..]
    ensures IsClosest(truth[..], g.View().Distances(AsInts(g.View().VectorAt(5))), Ids(6))
  {
    hide Structured, BaseComplete, Relabelling.Renamed, IsClosest, ScannedIds;
    var r := Records([u, u, u, u, u, u], [false, false, false, false, false, false], [0, 0, 0, 0, 0, 0]);
    NoUpperLevels(r.levels);
    ghost var names, levels;
    g, names, levels := BuildIndex(r, m, m0, efC);
    ghost var v := g.View();
    SixTwinsBefore(v, names, u);
    StoredIsInOwnTruth(v, 5);
    var q := AsInts(g.View().VectorAt(5));
    truth := BruteTop5(g.View(), q);
    assert 5 in truth[..] <==> 5 in multiset(truth[..]);
    assert 5 in ScannedIds(v.Distances(q)) <==> 5 in multiset(ScannedIds(v.Distances(q)));
  }
}
