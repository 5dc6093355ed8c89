/** The whole query on an abstract layered graph (QueryFast5 in internal/hnsw/query.go)
    and what its answer means. */
module Network {
  import opened CandidateHeap
  import opened LayerSearch
  import opened GreedyClimbs
  import opened SearchCertificate
  import opened SearchOrder
  import opened TopFive

  /** layers[0] is the base layer; layers[L] lists, for every node, its neighbour slots on
      layer L (none for a node that is not on it). */
  datatype Net = Net(layers: seq<seq<seq<int>>>, entry: nat)

  ghost predicate NetOk(net: Net, n: nat) {
    && |net.layers| > 0 && net.entry < n
    && forall L :: 0 <= L < |net.layers| ==> |net.layers[L]| == n && AdjOk(net.layers[L])
  }

  ghost function At(net: Net, dist: seq<int>, L: nat): Space
    requires L < |net.layers|
  {
    Space(net.layers[L], dist)
  }

  /** The node reached once the descent has finished layer L, coming from the top. */
  ghost function Arrive(net: Net, dist: seq<int>, L: nat): (r: nat)
    requires NetOk(net, |dist|) && L <= |net.layers|
    ensures r < |dist|
    decreases |net.layers| - L
  {
    if L == |net.layers| then net.entry
    else
      assert |net.layers[L]| == |dist| && AdjOk(net.layers[L]);
      Descend(At(net, dist, L), Arrive(net, dist, L + 1))
  }

  ghost function BaseSearch(net: Net, dist: seq<int>): (s: Search)
    requires NetOk(net, |dist|)
    ensures s.Ok(|dist|)
  {
    assert |net.layers[0]| == |dist| && AdjOk(net.layers[0]);
    SearchFrom(At(net, dist, 0), Arrive(net, dist, 1))
  }

  /** The five ids answered to a query with the given node distances. */
  ghost function Query5(net: Net, dist: seq<int>): (out: seq<nat>)
    requires NetOk(net, |dist|)
    ensures |out| == 5
  {
    Top5(BaseSearch(net, dist).res)
  }

  // ---------- The descent ----------

  /** The edges of the members stay among the members. */
  ghost predicate Closed(adj: seq<seq<int>>, members: set<nat>) {
    forall v, j :: v in members && v < |adj| && 0 <= j < |adj[v]| && adj[v][j] >= 0 ==> adj[v][j] in members
  }

  lemma {:induction false} DescendEndsAtLocalMinimum(sp: Space, cur: nat, members: set<nat>)
    requires SpaceOk(sp) && cur < |sp.dist| && cur in members && Closed(sp.adj, members)
    ensures var r := Descend(sp, cur);
            r in members && sp.dist[r] <= sp.dist[cur] && LocalMinimum(sp, r)
    decreases |Closer(sp, cur)|
  {
    var next := Scan(sp, sp.adj[cur], cur);
    if sp.dist[next] < sp.dist[cur] {
      CloserShrinks(sp, cur, next);
      DescendEndsAtLocalMinimum(sp, next, members);
    }
  }

  /** A greedy path from a member ends at a member. */
  lemma {:induction false} PathStays(sp: Space, p: seq<nat>, a: nat, b: nat, members: set<nat>)
    requires SpaceOk(sp) && GreedyPath(sp, p, a, b) && Closed(sp.adj, members) && a in members
    ensures b in members
    decreases |p|
  {
    if |p| > 1 {
      assert ClimbStep(sp, p[0], p[1]);
      PathStays(sp, p[1..], p[1], b, members);
    }
  }

  /** Layers are populated by nested sets of nodes, and the entry is on the top one. */
  ghost predicate Populated(net: Net, members: seq<set<nat>>) {
    && |members| == |net.layers|
    && (forall L :: 0 <= L < |members| ==> Closed(net.layers[L], members[L]))
    && (forall L :: 0 < L < |members| ==> members[L] <= members[L - 1])
    && |members| > 0 && net.entry in members[|members| - 1]
  }

  /** Whole descent: on every upper layer it ends at a member of that layer none of whose
      neighbours there is closer to the query, never farther than where it came from. */
  lemma {:induction false} DescentIsGreedy(net: Net, dist: seq<int>, members: seq<set<nat>>, L: nat)
    requires NetOk(net, |dist|) && Populated(net, members) && 1 <= L < |net.layers|
    ensures var r := Arrive(net, dist, L);
            && r in members[L] && r in members[L - 1]
            && dist[r] <= dist[Arrive(net, dist, L + 1)] <= dist[net.entry]
            && SpaceOk(At(net, dist, L)) && LocalMinimum(At(net, dist, L), r)
    decreases |net.layers| - L
  {
    assert |net.layers[L]| == |dist| && AdjOk(net.layers[L]);
    var from := Arrive(net, dist, L + 1);
    assert from in members[L] && dist[from] <= dist[net.entry] by {
      if L + 1 < |net.layers| {
        DescentIsGreedy(net, dist, members, L + 1);
      }
    }
    assert Closed(net.layers[L], members[L]) && members[L] <= members[L - 1];
    DescendEndsAtLocalMinimum(At(net, dist, L), from, members[L]);
  }

  /** The stops of the descent of a query, from the entry point to where the base search
      starts. */
  lemma {:induction false} DescentStops(net: Net, dist: seq<int>, L: nat) returns (stops: seq<nat>)
    requires NetOk(net, |dist|) && 1 <= L <= |net.layers|
    ensures Descent(net.layers, dist, |net.layers| - 1, L - 1, stops)
    ensures stops[0] == net.entry && stops[|stops| - 1] == Arrive(net, dist, L)
    decreases |net.layers| - L
  {
    var top := |net.layers| - 1;
    if L == |net.layers| {
      stops := [net.entry];
    } else {
      var above := DescentStops(net, dist, L + 1);
      stops := above + [Arrive(net, dist, L)];
      DescendIsClimb(At(net, dist, L), Arrive(net, dist, L + 1), Arrive(net, dist, L));
      forall i | 0 <= i < top - (L - 1) ensures ClimbedOn(net.layers, dist, top, stops, i) {
        if i < top - L {
          assert ClimbedOn(net.layers, dist, top, above, i);
        }
      }
    }
  }

  // ---------- Completeness of the base search ----------

  ghost function ReachSet(adj: seq<seq<int>>, a: nat): set<nat> {
    set v: nat | v < |adj| && Reachable(adj, a, v)
  }

  ghost function KeptIds(items: seq<Item>): set<nat> {
    set x | x in items :: x.id
  }

  lemma {:induction false} KeptIdsSize(items: seq<Item>)
    requires forall i, j :: 0 <= i < j < |items| ==> items[i].id != items[j].id
    ensures |KeptIds(items)| == |items|
  {
    if items == [] {
      assert KeptIds(items) == {};
    } else {
      var front := items[..|items| - 1];
      var last := items[|items| - 1];
      KeptIdsSize(front);
      assert KeptIds(items) == KeptIds(front) + {last.id} by {
        assert forall x :: x in items <==> x in front || x == last;
      }
      assert last.id !in KeptIds(front);
    }
  }

  /** A search that ends with fewer than ten results has met and kept every node
      reachable from its start. */
  lemma ShortSearchIsComplete(sp: Space, entry: nat, v: nat)
    requires SpaceOk(sp) && entry < |sp.dist|
    requires |SearchFrom(sp, entry).res| < EF && Reachable(sp.adj, entry, v)
    ensures Holds(SearchFrom(sp, entry).res, sp, v)
  {
    SearchIsLocallyOptimal(sp, entry);
    var s := SearchFrom(sp, entry);
    forall u | u in s.seen ensures Expanded(sp.adj, u, s.seen) {
      assert Holds(s.res, sp, u);
    }
    var p :| IsWalk(sp.adj, p, entry, v);
    ClosedHoldsWalk(sp.adj, s.seen, p, entry, v);
  }

  /** The early stop never fires while fewer than ten results are held. */
  lemma NoEarlyStopBelowWidth(sp: Space, entry: nat, s: Search)
    requires Inv(sp, entry, s, {}) && s.cands != [] && |s.res| < EF
    ensures s.cands[0].dist <= s.res[s.worst].dist
  {
    var c := s.cands[0];
    assert c in s.cands;
    assert Holds(s.res, sp, c.id);
  }

  /** The search keeps exactly as many nodes as are reachable, up to ten, and exactly the
      reachable ones when there are at most ten. */
  lemma ResultCount(sp: Space, entry: nat)
    requires SpaceOk(sp) && entry < |sp.dist|
    ensures var s := SearchFrom(sp, entry);
            var reach := ReachSet(sp.adj, entry);
            && |s.res| == (if |reach| < EF then |reach| else EF)
            && KeptIds(s.res) <= reach
            && (|reach| <= EF ==> KeptIds(s.res) == reach)
  {
    SearchIsLocallyOptimal(sp, entry);
    var s := SearchFrom(sp, entry);
    var reach := ReachSet(sp.adj, entry);
    KeptIdsSize(s.res);
    assert KeptIds(s.res) <= reach;
    CardinalityMonotone(KeptIds(s.res), reach);
    if |s.res| < EF {
      forall v | v in reach ensures v in KeptIds(s.res) {
        ShortSearchIsComplete(sp, entry, v);
        assert Item(v, sp.dist[v]).id == v;
      }
      assert KeptIds(s.res) == reach;
    }
  }

  // ---------- Meaning of the answer ----------

  /** Distinct nodes with their distances. */
  ghost predicate Results(res: seq<Item>, dist: seq<int>) {
    && (forall i :: 0 <= i < |res| ==> res[i].id < |dist| && res[i].dist == dist[res[i].id])
    && (forall i, j :: 0 <= i < j < |res| ==> res[i].id != res[j].id)
  }

  lemma SelectedIds(res: seq<Item>, dist: seq<int>, order: seq<nat>, out: seq<nat>)
    requires Results(res, dist) && Selection(res, {}, order) && |out| == |order|
    requires forall i :: 0 <= i < |out| ==> out[i] == res[order[i]].id
    ensures IsClosest(out, dist, KeptIds(res))
  {
    assert forall i, j :: 0 <= i < j < |out| ==> out[i] != out[j];
    forall i | 0 <= i < |out| ensures out[i] in KeptIds(res) {
      assert res[order[i]] in res;
    }
    forall i, v | 0 <= i < |out| && v in KeptIds(res) && v !in out ensures dist[out[i]] <= dist[v] {
      var x :| x in res && x.id == v;
      var k :| 0 <= k < |res| && res[k] == x;
      assert k !in order;
    }
  }

  /** The selection of five from distinct results, of which there are at least five. */
  lemma Top5IsClosest(res: seq<Item>, dist: seq<int>)
    requires |res| >= 5 && Results(res, dist)
    ensures IsClosest(Top5(res), dist, KeptIds(res))
  {
    OrderIsSelection(res, {}, 5);
    SelectedIds(res, dist, Order(res, {}, 5), Top5(res));
  }

  lemma HeldIsKept(items: seq<Item>, sp: Space, v: nat)
    ensures Holds(items, sp, v) ==> v in KeptIds(items)
  {
    if v < |sp.dist| {
      assert Item(v, sp.dist[v]).id == v;
    }
  }

  lemma WidenPool(ids: seq<nat>, dist: seq<int>, pool: set<nat>, wide: set<nat>)
    requires IsClosest(ids, dist, pool) && pool <= wide
    requires forall v :: v in wide ==> v < |dist|
    requires forall u, v :: u in pool && v in wide && v !in pool ==> dist[u] <= dist[v]
    ensures IsClosest(ids, dist, wide)
  {
  }

  /** What the search certificate says about the kept ids. */
  lemma KeptAreClosestOfMet(sp: Space, entry: nat)
    requires SpaceOk(sp) && entry < |sp.dist|
    ensures var s := SearchFrom(sp, entry);
            && Results(s.res, sp.dist) && KeptIds(s.res) <= s.seen
            && (forall v :: v in s.seen ==> v < |sp.dist|)
            && forall u, v :: u in KeptIds(s.res) && v in s.seen && v !in KeptIds(s.res) ==> sp.dist[u] <= sp.dist[v]
  {
    SearchIsLocallyOptimal(sp, entry);
    var s := SearchFrom(sp, entry);
    forall u, v | u in KeptIds(s.res) && v in s.seen && v !in KeptIds(s.res) ensures sp.dist[u] <= sp.dist[v] {
      var x :| x in s.res && x.id == u;
      HeldIsKept(s.res, sp, v);
    }
  }

  /** With at least five nodes reachable from the descended entry, the answer consists of
      five distinct nodes by non-decreasing distance, and no other node the search met is
      closer than any of them. */
  lemma AnswerIsClosestOfMet(net: Net, dist: seq<int>)
    requires NetOk(net, |dist|)
    requires |ReachSet(net.layers[0], Arrive(net, dist, 1))| >= 5
    ensures IsClosest(Query5(net, dist), dist, BaseSearch(net, dist).seen)
  {
    assert |net.layers[0]| == |dist| && AdjOk(net.layers[0]);
    var s := BaseSearch(net, dist);
    KeptAreClosestOfMet(At(net, dist, 0), Arrive(net, dist, 1));
    ResultCount(At(net, dist, 0), Arrive(net, dist, 1));
    Top5IsClosest(s.res, dist);
    WidenPool(Query5(net, dist), dist, KeptIds(s.res), s.seen);
  }

  /** When the layer-0 component of the descended entry is all n nodes and 5 <= n <= 10,
      the answer is exact. */
  lemma AnswerIsExactOnSmallGraphs(net: Net, dist: seq<int>)
    requires NetOk(net, |dist|) && 5 <= |dist| <= EF
    requires forall v: nat :: v < |dist| ==> Reachable(net.layers[0], Arrive(net, dist, 1), v)
    ensures IsClosest(Query5(net, dist), dist, Ids(|dist|))
  {
    var entry := Arrive(net, dist, 1);
    assert |net.layers[0]| == |dist| && AdjOk(net.layers[0]);
    assert ReachSet(net.layers[0], entry) == Ids(|dist|);
    ResultCount(At(net, dist, 0), entry);
    KeptAreClosestOfMet(At(net, dist, 0), entry);
    Top5IsClosest(BaseSearch(net, dist).res, dist);
  }

  /** With fewer than five nodes reachable the answer lists all of them, closest first, and
      is padded with id 0. */
  lemma ShortAnswer(net: Net, dist: seq<int>)
    requires NetOk(net, |dist|)
    ensures var reach := ReachSet(net.layers[0], Arrive(net, dist, 1));
            |reach| < 5 ==>
              && IsClosest(Query5(net, dist)[..|reach|], dist, reach)
              && forall i :: |reach| <= i < 5 ==> Query5(net, dist)[i] == 0
  {
    var entry := Arrive(net, dist, 1);
    assert |net.layers[0]| == |dist| && AdjOk(net.layers[0]);
    ResultCount(At(net, dist, 0), entry);
    KeptAreClosestOfMet(At(net, dist, 0), entry);
    assert Query5(net, dist) == Top5(BaseSearch(net, dist).res);
    hide ReachSet, KeptIds, IsClosest, Arrive, NetOk, BaseSearch, Query5;
    if |BaseSearch(net, dist).res| < 5 {
      FewResults(BaseSearch(net, dist).res, dist);
    }
  }

  lemma FewResults(res: seq<Item>, dist: seq<int>)
    requires |res| < 5 && Results(res, dist)
    ensures IsClosest(Top5(res)[..|res|], dist, KeptIds(res)) && forall i :: |res| <= i < 5 ==> Top5(res)[i] == 0
  {
    OrderIsSelection(res, {}, 5);
    hide IsClosest, KeptIds;
    SelectedIds(res, dist, Order(res, {}, 5), Top5(res)[..|res|]);
  }

  // ---------- The answer explained ----------

  /** out is the answer of a query, told by the nodes passed: from the entry point the
      descent climbs greedily through the upper layers; from where it ends the nodes in done
      are expanded best first with width ten, until none is left; out lists the five
      closest of the nodes met, in order, or all of them and then id 0. */
  ghost predicate Explains(net: Net, dist: seq<int>, stops: seq<nat>, done: seq<nat>, out: seq<nat>) {
    && |net.layers| > 0 && Descent(net.layers, dist, |net.layers| - 1, 0, stops) && stops[0] == net.entry
    && var from := stops[|stops| - 1];
       && BestFirst(At(net, dist, 0), from, EF, done) && Exhausted(At(net, dist, 0), from, EF, done)
       && FiveOf(out, dist, Met(net.layers[0], from, done))
  }

  /** The five closest of the pool in order, or the whole pool in order and then id 0. */
  ghost predicate FiveOf(out: seq<nat>, dist: seq<int>, pool: set<nat>) {
    && |out| == 5
    && IsClosest(out[..if |pool| < 5 then |pool| else 5], dist, pool)
    && forall i :: |pool| <= i < 5 ==> out[i] == 0
  }

  /** Fewer than five nodes are met only when there are no more to be reached. */
  lemma FewMet(sp: Space, entry: nat)
    requires SpaceOk(sp) && entry < |sp.dist|
    ensures var s := SearchFrom(sp, entry);
            var reach := ReachSet(sp.adj, entry);
            s.seen <= reach && (|reach| < 5 ==> s.seen == reach) && (|reach| >= 5 ==> |s.seen| >= 5)
  {
    SearchIsLocallyOptimal(sp, entry);
    ResultCount(sp, entry);
    KeptAreClosestOfMet(sp, entry);
    var s := SearchFrom(sp, entry);
    KeptIdsSize(s.res);
    CardinalityMonotone(KeptIds(s.res), s.seen);
  }

  lemma AnswerIsFiveOfMet(net: Net, dist: seq<int>)
    requires NetOk(net, |dist|)
    ensures FiveOf(Query5(net, dist), dist, BaseSearch(net, dist).seen)
  {
    var entry := Arrive(net, dist, 1);
    assert |net.layers[0]| == |dist| && AdjOk(net.layers[0]);
    FewMet(At(net, dist, 0), entry);
    var out := Query5(net, dist);
    assert BaseSearch(net, dist) == SearchFrom(At(net, dist, 0), entry);
    hide IsClosest, ReachSet, Arrive, NetOk, BaseSearch, Query5, SearchFrom, AdjOk;
    if |ReachSet(net.layers[0], entry)| >= 5 {
      AnswerIsClosestOfMet(net, dist);
      assert out[..5] == out;
    } else {
      ShortAnswer(net, dist);
    }
  }

  /** Every answer is explained by a greedy descent and a best-first search. */
  lemma AnswerExplained(net: Net, dist: seq<int>) returns (stops: seq<nat>, done: seq<nat>)
    requires NetOk(net, |dist|)
    ensures Explains(net, dist, stops, done, Query5(net, dist))
  {
    assert |net.layers[0]| == |dist| && AdjOk(net.layers[0]);
    stops := DescentStops(net, dist, 1);
    var sp, from := At(net, dist, 0), Arrive(net, dist, 1);
    SearchIsBestFirst(sp, from);
    AnswerIsFiveOfMet(net, dist);
    var seen := BaseSearch(net, dist).seen;
    assert Searched(sp, from, EF, seen);
    done :| BestFirst(sp, from, EF, done) && Exhausted(sp, from, EF, done) && seen == Met(sp.adj, from, done);
  }
}
