/** Renaming the nodes of a layered graph by a permutation, and its effect on queries:
    descent, heap and selection compare distances only and neighbour order is kept, so
    the whole query is renamed along (the promise of internal/hnsw/reorder.go). */
module Relabelling {
  import opened CandidateHeap
  import opened LayerSearch
  import opened SearchCertificate
  import opened TopFive
  import opened Network

  /** pi[v] is the new name of node v. */
  ghost predicate IsPerm(pi: seq<nat>) {
    && (forall v :: 0 <= v < |pi| ==> pi[v] < |pi|)
    && (forall u, v :: 0 <= u < v < |pi| ==> pi[u] != pi[v])
  }

  ghost function MapSlot(pi: seq<nat>, nb: int): int {
    if 0 <= nb < |pi| then pi[nb] else nb
  }

  ghost function MapRow(pi: seq<nat>, row: seq<int>): (r: seq<int>)
    ensures |r| == |row|
  {
    seq(|row|, j requires 0 <= j < |row| => MapSlot(pi, row[j]))
  }

  ghost predicate RenamedAdj(pi: seq<nat>, a: seq<seq<int>>, b: seq<seq<int>>) {
    && IsPerm(pi) && |a| == |b| == |pi|
    && forall v :: 0 <= v < |pi| ==> b[pi[v]] == MapRow(pi, a[v])
  }

  ghost predicate Renamed<T>(pi: seq<nat>, a: seq<T>, b: seq<T>) {
    && IsPerm(pi) && |a| == |b| == |pi|
    && forall v :: 0 <= v < |pi| ==> b[pi[v]] == a[v]
  }

  ghost predicate RenamedSpace(pi: seq<nat>, a: Space, b: Space) {
    RenamedAdj(pi, a.adj, b.adj) && Renamed(pi, a.dist, b.dist)
  }

  ghost predicate RenamedNet(pi: seq<nat>, a: Net, b: Net) {
    && |a.layers| == |b.layers| && a.entry < |pi| && b.entry == pi[a.entry]
    && forall L :: 0 <= L < |a.layers| ==> RenamedAdj(pi, a.layers[L], b.layers[L])
  }

  /** A permutation reaches every node. */
  lemma PermHits(pi: seq<nat>, w: nat) returns (v: nat)
    requires IsPerm(pi) && w < |pi|
    ensures v < |pi| && pi[v] == w
  {
    PrefixSize(pi, |pi|);
    CardinalityMonotone(Prefix(pi, |pi|), Ids(|pi|));
    assert w in Prefix(pi, |pi|);
    v :| 0 <= v < |pi| && pi[v] == w;
  }

  lemma RenamedAdjOk(pi: seq<nat>, a: seq<seq<int>>, b: seq<seq<int>>)
    requires RenamedAdj(pi, a, b) && AdjOk(a)
    ensures AdjOk(b)
  {
    forall w | 0 <= w < |b| ensures RowOk(b[w], |b|) {
      var v := PermHits(pi, w);
      assert RowOk(a[v], |a|);
    }
  }

  /** Renaming keeps a layer usable. */
  lemma RenamedSpaceOk(pi: seq<nat>, a: Space, b: Space)
    requires RenamedSpace(pi, a, b) && SpaceOk(a)
    ensures SpaceOk(b)
  {
    RenamedAdjOk(pi, a.adj, b.adj);
  }

  lemma RenamedRowOk(pi: seq<nat>, row: seq<int>)
    requires IsPerm(pi) && RowOk(row, |pi|)
    ensures RowOk(MapRow(pi, row), |pi|)
  {
  }

  /** Renaming keeps a layered graph usable. */
  lemma RenamedNetOk(pi: seq<nat>, a: Net, b: Net)
    requires NetOk(a, |pi|) && RenamedNet(pi, a, b)
    ensures NetOk(b, |pi|)
  {
    forall L | 0 <= L < |b.layers| ensures |b.layers[L]| == |pi| && AdjOk(b.layers[L]) {
      RenamedAdjOk(pi, a.layers[L], b.layers[L]);
    }
    assert RenamedAdj(pi, a.layers[0], b.layers[0]);
  }

  // ---------- Descent ----------

  lemma {:induction false} ScanCommutes(pi: seq<nat>, a: Space, b: Space, nbs: seq<int>, cur: nat)
    requires RenamedSpace(pi, a, b) && SpaceOk(a)
    requires cur < |pi| && RowOk(nbs, |pi|)
    ensures SpaceOk(b) && RowOk(MapRow(pi, nbs), |pi|)
    ensures Scan(b, MapRow(pi, nbs), pi[cur]) == pi[Scan(a, nbs, cur)]
    decreases |nbs|
  {
    RenamedSpaceOk(pi, a, b);
    RenamedRowOk(pi, nbs);
    if nbs != [] {
      var mapped := MapRow(pi, nbs);
      assert mapped[1..] == MapRow(pi, nbs[1..]);
      if nbs[0] >= 0 && a.dist[nbs[0]] < a.dist[cur] {
        ScanCommutes(pi, a, b, nbs[1..], nbs[0]);
      } else {
        ScanCommutes(pi, a, b, nbs[1..], cur);
      }
    }
  }

  lemma {:induction false} DescendCommutes(pi: seq<nat>, a: Space, b: Space, cur: nat)
    requires RenamedSpace(pi, a, b) && SpaceOk(a) && cur < |pi|
    ensures SpaceOk(b)
    ensures Descend(b, pi[cur]) == pi[Descend(a, cur)]
    decreases |Closer(a, cur)|
  {
    RenamedSpaceOk(pi, a, b);
    var next := Scan(a, a.adj[cur], cur);
    assert b.adj[pi[cur]] == MapRow(pi, a.adj[cur]);
    assert RowOk(b.adj[pi[cur]], |pi|);
    ScanCommutes(pi, a, b, a.adj[cur], cur);
    if a.dist[next] < a.dist[cur] {
      CloserShrinks(a, cur, next);
      DescendCommutes(pi, a, b, next);
    }
  }

  lemma {:induction false} ArriveCommutes(pi: seq<nat>, a: Net, b: Net, d: seq<int>, e: seq<int>, L: nat)
    requires NetOk(a, |pi|) && RenamedNet(pi, a, b) && Renamed(pi, d, e)
    requires L <= |a.layers|
    ensures NetOk(b, |pi|)
    ensures Arrive(b, e, L) == pi[Arrive(a, d, L)]
    decreases |a.layers| - L
  {
    RenamedNetOk(pi, a, b);
    if L < |a.layers| {
      ArriveCommutes(pi, a, b, d, e, L + 1);
      assert RenamedAdj(pi, a.layers[L], b.layers[L]);
      assert AdjOk(a.layers[L]) && AdjOk(b.layers[L]);
      DescendCommutes(pi, At(a, d, L), At(b, e, L), Arrive(a, d, L + 1));
    }
  }

  // ---------- Heap ----------

  ghost function MapItem(pi: seq<nat>, x: Item): Item {
    if x.id < |pi| then Item(pi[x.id], x.dist) else x
  }

  ghost function MapItems(pi: seq<nat>, h: seq<Item>): (r: seq<Item>)
    ensures |r| == |h|
    ensures forall i :: 0 <= i < |h| ==> r[i] == MapItem(pi, h[i])
  {
    seq(|h|, i requires 0 <= i < |h| => MapItem(pi, h[i]))
  }

  lemma {:induction false} SiftUpCommutes(pi: seq<nat>, h: seq<Item>, i: nat)
    requires i < |h|
    ensures SiftUp(MapItems(pi, h), i) == MapItems(pi, SiftUp(h, i))
    decreases i
  {
    if i > 0 && h[(i - 1) / 2].dist > h[i].dist {
      var p := (i - 1) / 2;
      assert Swap(MapItems(pi, h), p, i) == MapItems(pi, Swap(h, p, i));
      SiftUpCommutes(pi, Swap(h, p, i), p);
    }
  }

  lemma {:induction false} SiftDownCommutes(pi: seq<nat>, h: seq<Item>, i: nat)
    requires i < |h|
    ensures SiftDown(MapItems(pi, h), i) == MapItems(pi, SiftDown(h, i))
    decreases |h| - i
  {
    if 2 * i + 1 < |h| {
      var c := SmallestChild(h, i);
      assert c == SmallestChild(MapItems(pi, h), i);
      if h[i].dist > h[c].dist {
        assert Swap(MapItems(pi, h), i, c) == MapItems(pi, Swap(h, i, c));
        SiftDownCommutes(pi, Swap(h, i, c), c);
      }
    }
  }

  lemma PushCommutes(pi: seq<nat>, h: seq<Item>, x: Item)
    ensures PushMin(MapItems(pi, h), MapItem(pi, x)) == MapItems(pi, PushMin(h, x))
  {
    assert MapItems(pi, h) + [MapItem(pi, x)] == MapItems(pi, h + [x]);
    SiftUpCommutes(pi, h + [x], |h|);
  }

  lemma PopCommutes(pi: seq<nat>, h: seq<Item>)
    ensures PopMin(MapItems(pi, h)) == MapItems(pi, PopMin(h))
  {
    if |h| > 1 {
      var top := h[0 := h[|h| - 1]][..|h| - 1];
      var m := MapItems(pi, h);
      assert m[0 := m[|m| - 1]][..|m| - 1] == MapItems(pi, top);
      SiftDownCommutes(pi, top, 0);
    }
  }

  // ---------- Search ----------

  ghost predicate RenamedSearch(pi: seq<nat>, s: Search, t: Search) {
    && t.cands == MapItems(pi, s.cands) && t.res == MapItems(pi, s.res) && t.worst == s.worst
    && forall v :: 0 <= v < |pi| ==> (v in s.seen <==> pi[v] in t.seen)
  }

  lemma {:induction false} WorstCommutes(pi: seq<nat>, res: seq<Item>, i: nat, w: nat)
    requires w < i <= |res|
    requires forall k :: 0 <= k < i ==> res[k].dist <= res[w].dist
    ensures WorstFrom(MapItems(pi, res), i, w) == WorstFrom(res, i, w)
    decreases |res| - i
  {
    if i < |res| {
      WorstCommutes(pi, res, i + 1, if res[i].dist > res[w].dist then i else w);
    }
  }

  lemma AdmitCommutes(pi: seq<nat>, s: Search, t: Search, x: Item)
    requires IsPerm(pi) && RenamedSearch(pi, s, t) && x.id < |pi|
    requires 0 < |s.res| <= EF && s.worst < |s.res|
    ensures RenamedSearch(pi, Admit(s, x), Admit(t, MapItem(pi, x)))
  {
    PushCommutes(pi, s.cands, x);
    var y := MapItem(pi, x);
    assert t.res + [y] == MapItems(pi, s.res + [x]);
    assert t.res[s.worst := y] == MapItems(pi, s.res[s.worst := x]);
    WorstCommutes(pi, s.res[s.worst := x], 1, 0);
  }

  lemma VisitCommutes(pi: seq<nat>, a: Space, b: Space, nb: int, s: Search, t: Search)
    requires RenamedSpace(pi, a, b) && SpaceOk(a) && RenamedSearch(pi, s, t)
    requires nb < |pi| && s.Ok(|pi|) && t.Ok(|pi|)
    ensures SpaceOk(b)
    ensures RenamedSearch(pi, Visit(a, nb, s), Visit(b, MapSlot(pi, nb), t))
  {
    RenamedSpaceOk(pi, a, b);
    if nb >= 0 && nb !in s.seen {
      AdmitCommutes(pi, s, t, Item(nb, a.dist[nb]));
      assert MapItem(pi, Item(nb, a.dist[nb])) == Item(pi[nb], b.dist[pi[nb]]);
    }
  }

  lemma {:induction false} ExpandCommutes(pi: seq<nat>, a: Space, b: Space, nbs: seq<int>, s: Search, t: Search)
    requires RenamedSpace(pi, a, b) && SpaceOk(a) && RenamedSearch(pi, s, t)
    requires RowOk(nbs, |pi|) && s.Ok(|pi|) && t.Ok(|pi|)
    ensures SpaceOk(b) && RowOk(MapRow(pi, nbs), |pi|)
    ensures RenamedSearch(pi, Expand(a, nbs, s), Expand(b, MapRow(pi, nbs), t))
    decreases |nbs|
  {
    RenamedSpaceOk(pi, a, b);
    RenamedRowOk(pi, nbs);
    if nbs != [] {
      var mapped := MapRow(pi, nbs);
      assert mapped[1..] == MapRow(pi, nbs[1..]) && mapped[0] == MapSlot(pi, nbs[0]);
      VisitCommutes(pi, a, b, nbs[0], s, t);
      ExpandCommutes(pi, a, b, nbs[1..], Visit(a, nbs[0], s), Visit(b, mapped[0], t));
    }
  }

  /** Taking the closest candidate commutes with renaming. */
  lemma PoppedCommutes(pi: seq<nat>, s: Search, t: Search)
    requires RenamedSearch(pi, s, t) && IsPerm(pi) && s.Ok(|pi|) && t.Ok(|pi|) && s.cands != []
    ensures Popped(s).Ok(|pi|) && Popped(t).Ok(|pi|) && RenamedSearch(pi, Popped(s), Popped(t))
    ensures t.cands != [] && t.cands[0] == MapItem(pi, s.cands[0]) && s.cands[0].id < |pi|
    ensures t.cands[0].dist > t.res[t.worst].dist <==> s.cands[0].dist > s.res[s.worst].dist
  {
    assert s.cands[0] in s.cands;
    PopCommutes(pi, s.cands);
    PoppedOk(s, |pi|);
    PoppedOk(t, |pi|);
  }

  lemma {:induction false} RunCommutes(pi: seq<nat>, a: Space, b: Space, s: Search, t: Search)
    requires RenamedSpace(pi, a, b) && SpaceOk(a) && RenamedSearch(pi, s, t)
    requires s.Ok(|pi|) && t.Ok(|pi|)
    ensures SpaceOk(b)
    ensures RenamedSearch(pi, Run(a, s), Run(b, t))
    decreases |Ids(|a.dist|) - s.seen|, |s.cands|
  {
    RenamedSpaceOk(pi, a, b);
    if s.cands != [] {
      var c := s.cands[0];
      PoppedCommutes(pi, s, t);
      if c.dist <= s.res[s.worst].dist {
        assert b.adj[pi[c.id]] == MapRow(pi, a.adj[c.id]) && RowOk(a.adj[c.id], |pi|);
        RunProgress(a, s);
        ExpandCommutes(pi, a, b, a.adj[c.id], Popped(s), Popped(t));
        hide RenamedSearch, RenamedSpace, SpaceOk, Expand, Popped;
        RunCommutes(pi, a, b, Expand(a, a.adj[c.id], Popped(s)), Expand(b, b.adj[pi[c.id]], Popped(t)));
      }
    } else {
      assert t.cands == [];
    }
  }

  lemma SearchCommutes(pi: seq<nat>, a: Space, b: Space, entry: nat)
    requires RenamedSpace(pi, a, b) && SpaceOk(a) && entry < |pi|
    ensures SpaceOk(b)
    ensures RenamedSearch(pi, SearchFrom(a, entry), SearchFrom(b, pi[entry]))
  {
    RenamedSpaceOk(pi, a, b);
    var x := Item(entry, a.dist[entry]);
    PushCommutes(pi, [], x);
    assert MapItems(pi, []) == [] && MapItems(pi, [x]) == [MapItem(pi, x)];
    RunCommutes(pi, a, b, Start(a, entry), Start(b, pi[entry]));
  }

  // ---------- Selection ----------

  lemma {:induction false} BestCommutes(pi: seq<nat>, res: seq<Item>, taken: set<nat>, i: nat, best: int)
    requires i <= |res| && best < i
    ensures BestFrom(MapItems(pi, res), taken, i, best) == BestFrom(res, taken, i, best)
    decreases |res| - i
  {
    if i < |res| {
      BestCommutes(pi, res, taken, i + 1,
                   if i !in taken && (best < 0 || res[i].dist < res[best].dist) then i else best);
    }
  }

  lemma {:induction false} OrderCommutes(pi: seq<nat>, res: seq<Item>, taken: set<nat>, k: nat)
    ensures Order(MapItems(pi, res), taken, k) == Order(res, taken, k)
    decreases k
  {
    BestCommutes(pi, res, taken, 0, -1);
    BestIsClosest(res, taken);
    BestIsClosest(MapItems(pi, res), taken);
    if k > 0 && Best(res, taken) >= 0 {
      OrderCommutes(pi, res, taken + {Best(res, taken)}, k - 1);
    }
  }

  // ---------- Main results ----------

  ghost function MapIds(pi: seq<nat>, ids: seq<nat>): (r: seq<nat>)
    ensures |r| == |ids|
    ensures forall i :: 0 <= i < |ids| ==> r[i] == MapSlot(pi, ids[i])
  {
    seq(|ids|, i requires 0 <= i < |ids| => if ids[i] < |pi| then pi[ids[i]] else ids[i])
  }

  lemma BaseSearchCommutes(pi: seq<nat>, a: Net, b: Net, d: seq<int>, e: seq<int>)
    requires NetOk(a, |pi|) && RenamedNet(pi, a, b) && Renamed(pi, d, e)
    ensures NetOk(b, |pi|)
    ensures BaseSearch(b, e).res == MapItems(pi, BaseSearch(a, d).res)
    ensures forall i :: 0 <= i < |BaseSearch(a, d).res| ==> BaseSearch(a, d).res[i].id < |pi|
    ensures var found := |ReachSet(a.layers[0], Arrive(a, d, 1))|;
            |BaseSearch(a, d).res| == if found < EF then found else EF
  {
    RenamedNetOk(pi, a, b);
    assert RenamedAdj(pi, a.layers[0], b.layers[0]);
    assert AdjOk(a.layers[0]) && AdjOk(b.layers[0]);
    ArriveCommutes(pi, a, b, d, e, 1);
    SearchCommutes(pi, At(a, d, 0), At(b, e, 0), Arrive(a, d, 1));
    ResultCount(At(a, d, 0), Arrive(a, d, 1));
    KeptAreClosestOfMet(At(a, d, 0), Arrive(a, d, 1));
  }

  /** Position by position: results are renamed, padding stays id 0. */
  lemma AnswerCommutes(pi: seq<nat>, a: Net, b: Net, d: seq<int>, e: seq<int>)
    requires NetOk(a, |pi|) && RenamedNet(pi, a, b) && Renamed(pi, d, e)
    ensures NetOk(b, |pi|)
    ensures var found := |ReachSet(a.layers[0], Arrive(a, d, 1))|;
            forall i :: 0 <= i < 5 ==>
              if i < found then Query5(a, d)[i] < |pi| && Query5(b, e)[i] == pi[Query5(a, d)[i]]
              else Query5(a, d)[i] == 0 && Query5(b, e)[i] == 0
  {
    RenamedNetOk(pi, a, b);
    BaseSearchCommutes(pi, a, b, d, e);
    var res := BaseSearch(a, d).res;
    OrderCommutes(pi, res, {}, 5);
    OrderIsSelection(res, {}, 5);
  }

  /** How many of the five outputs are results; the others are padding. */
  ghost function ResultPart(net: Net, dist: seq<int>): (k: nat)
    requires NetOk(net, |dist|)
    ensures k <= 5
  {
    var found := |ReachSet(net.layers[0], Arrive(net, dist, 1))|;
    if found < 5 then found else 5
  }

  lemma AnswerParts(pi: seq<nat>, a: Net, b: Net, d: seq<int>, e: seq<int>)
    requires NetOk(a, |pi|) && RenamedNet(pi, a, b) && Renamed(pi, d, e)
    ensures NetOk(b, |pi|)
    ensures var k, x, y := ResultPart(a, d), Query5(a, d), Query5(b, e);
            && y[..k] == MapIds(pi, x[..k])
            && forall i :: k <= i < 5 ==> x[i] == 0 && y[i] == 0
  {
    RenamedNetOk(pi, a, b);
    AnswerCommutes(pi, a, b, d, e);
    var k, x, y := ResultPart(a, d), Query5(a, d), Query5(b, e);
    assert forall i :: 0 <= i < k ==> y[i] == pi[x[i]];
  }

  /** Queries commute with renaming exactly when five nodes can be found from the
      descended entry, or the padding id 0 keeps its name. */
  lemma QueryCommutes(pi: seq<nat>, a: Net, b: Net, d: seq<int>, e: seq<int>)
    requires NetOk(a, |pi|) && RenamedNet(pi, a, b) && Renamed(pi, d, e)
    ensures NetOk(b, |pi|)
    ensures Query5(b, e) == MapIds(pi, Query5(a, d))
            <==> |ReachSet(a.layers[0], Arrive(a, d, 1))| >= 5 || pi[0] == 0
  {
    RenamedNetOk(pi, a, b);
    AnswerCommutes(pi, a, b, d, e);
    var mapped := MapIds(pi, Query5(a, d));
    if |ReachSet(a.layers[0], Arrive(a, d, 1))| < 5 {
      assert Query5(b, e)[4] == 0 && mapped[4] == pi[0];
    }
  }
}
