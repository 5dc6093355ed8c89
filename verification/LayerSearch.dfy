/** What the query phases compute (internal/hnsw/query.go), as functions of one layer's
    adjacency and of the distance of every node to the query: greedy descent on a layer,
    the width-10 search at layer 0, and the selection of five. */
module LayerSearch {
  import opened CandidateHeap

  /** Width of the search at layer 0. */
  const EF: nat := 10

  /** A layer as one query sees it: the neighbour slots of each node (a negative entry is
      an empty slot) and the distance of each node to the query. */
  datatype Space = Space(adj: seq<seq<int>>, dist: seq<int>)

  ghost predicate RowOk(row: seq<int>, n: nat) {
    forall j :: 0 <= j < |row| ==> row[j] < n
  }

  ghost predicate AdjOk(adj: seq<seq<int>>) {
    forall i :: 0 <= i < |adj| ==> RowOk(adj[i], |adj|)
  }

  ghost predicate SpaceOk(sp: Space) {
    |sp.adj| == |sp.dist| && AdjOk(sp.adj)
  }

  // ---------- Greedy descent on one layer ----------

  /** One pass over a neighbour list: move to every strictly closer neighbour in turn. */
  ghost function Scan(sp: Space, nbs: seq<int>, cur: nat): (r: nat)
    requires SpaceOk(sp) && cur < |sp.dist| && RowOk(nbs, |sp.dist|)
    ensures r < |sp.dist| && sp.dist[r] <= sp.dist[cur]
    ensures r == cur || (r in nbs && sp.dist[r] < sp.dist[cur])
    ensures forall j :: 0 <= j < |nbs| && nbs[j] >= 0 ==> sp.dist[r] <= sp.dist[nbs[j]]
  {
    if nbs == [] then cur
    else if nbs[0] >= 0 && sp.dist[nbs[0]] < sp.dist[cur] then Scan(sp, nbs[1..], nbs[0])
    else Scan(sp, nbs[1..], cur)
  }

  ghost function Closer(sp: Space, cur: nat): set<nat>
    requires cur < |sp.dist|
  {
    set i: nat | i < |sp.dist| && sp.dist[i] < sp.dist[cur]
  }

  lemma CloserShrinks(sp: Space, a: nat, b: nat)
    requires a < |sp.dist| && b < |sp.dist| && sp.dist[b] < sp.dist[a]
    ensures |Closer(sp, b)| < |Closer(sp, a)|
  {
    assert b in Closer(sp, a) - Closer(sp, b);
    assert Closer(sp, b) <= Closer(sp, a) - {b};
    CardinalityMonotone(Closer(sp, b), Closer(sp, a) - {b});
  }

  lemma {:induction false} CardinalityMonotone(a: set<nat>, b: set<nat>)
    requires a <= b
    ensures |a| <= |b|
    ensures |a| == |b| ==> a == b
  {
    if a != {} {
      var x :| x in a;
      CardinalityMonotone(a - {x}, b - {x});
    }
  }

  /** Hill climbing until a pass brings no improvement. */
  ghost function Descend(sp: Space, cur: nat): (r: nat)
    requires SpaceOk(sp) && cur < |sp.dist|
    ensures r < |sp.dist|
    decreases |Closer(sp, cur)|
  {
    var next := Scan(sp, sp.adj[cur], cur);
    if sp.dist[next] < sp.dist[cur] then
      CloserShrinks(sp, cur, next);
      Descend(sp, next)
    else cur
  }

  // ---------- The search at layer 0 ----------

  /** `seen` are the marked nodes, `cands` the pending candidates, `res` the kept
      results, `worst` the index of the result the next admission would replace. */
  datatype Search = Search(seen: set<nat>, cands: seq<Item>, res: seq<Item>, worst: nat) {
    ghost predicate Ok(n: nat) {
      && (forall v :: v in seen ==> v < n)
      && (forall x :: x in cands ==> x.id < n)
      && 0 < |res| <= EF && worst < |res|
    }
  }

  ghost function WorstFrom(res: seq<Item>, i: nat, w: nat): (r: nat)
    requires w < i <= |res|
    requires forall k :: 0 <= k < i ==> res[k].dist <= res[w].dist
    ensures r < |res|
    ensures forall k :: 0 <= k < |res| ==> res[k].dist <= res[r].dist
    decreases |res| - i
  {
    if i == |res| then w
    else WorstFrom(res, i + 1, if res[i].dist > res[w].dist then i else w)
  }

  /** w is the first of the farthest items. */
  ghost predicate FirstWorst(found: seq<Item>, w: nat) {
    && w < |found|
    && (forall k :: 0 <= k < |found| ==> found[k].dist <= found[w].dist)
    && (forall k :: 0 <= k < w ==> found[k].dist < found[w].dist)
  }

  lemma {:induction false} WorstFromIsFirst(found: seq<Item>, i: nat, w: nat)
    requires w < i <= |found| && forall k :: 0 <= k < i ==> found[k].dist <= found[w].dist
    requires forall k :: 0 <= k < w ==> found[k].dist < found[w].dist
    ensures FirstWorst(found, WorstFrom(found, i, w))
    decreases |found| - i
  {
    if i < |found| {
      WorstFromIsFirst(found, i + 1, if found[i].dist > found[w].dist then i else w);
    }
  }

  /** What happens to a node met for the first time. */
  ghost function Admit(s: Search, x: Item): Search
    requires 0 < |s.res| <= EF && s.worst < |s.res|
  {
    var seen := s.seen + {x.id};
    if |s.res| < EF then
      Search(seen, PushMin(s.cands, x), s.res + [x], if x.dist > s.res[s.worst].dist then |s.res| else s.worst)
    else if x.dist < s.res[s.worst].dist then
      var res := s.res[s.worst := x];
      Search(seen, PushMin(s.cands, x), res, WorstFrom(res, 1, 0))
    else
      s.(seen := seen)
  }

  ghost function Visit(sp: Space, nb: int, s: Search): (r: Search)
    requires SpaceOk(sp) && nb < |sp.dist| && s.Ok(|sp.dist|)
    ensures r.Ok(|sp.dist|)
    ensures s.seen <= r.seen && (r.seen == s.seen ==> r == s)
  {
    if nb < 0 || nb in s.seen then s
    else
      var x := Item(nb, sp.dist[nb]);
      assert forall y :: y in PushMin(s.cands, x) ==> y in s.cands || y == x by {
        forall y ensures y in PushMin(s.cands, x) ==> y in s.cands || y == x {
          PushMinMembers(s.cands, x, y);
        }
      }
      assert nb in Admit(s, x).seen;
      Admit(s, x)
  }

  /** The loop over one neighbour list. */
  ghost function Expand(sp: Space, nbs: seq<int>, s: Search): (r: Search)
    requires SpaceOk(sp) && RowOk(nbs, |sp.dist|) && s.Ok(|sp.dist|)
    ensures r.Ok(|sp.dist|)
    ensures s.seen <= r.seen && (r.seen == s.seen ==> r == s)
    decreases |nbs|
  {
    if nbs == [] then s else Expand(sp, nbs[1..], Visit(sp, nbs[0], s))
  }

  ghost function Ids(n: nat): (r: set<nat>)
    ensures forall i: nat :: i in r <==> i < n
    ensures |r| == n
  {
    if n == 0 then {} else Ids(n - 1) + {n - 1}
  }

  ghost function Popped(s: Search): Search {
    s.(cands := PopMin(s.cands))
  }

  /** PopMin introduces no item. */
  lemma PoppedOk(s: Search, n: nat)
    requires s.Ok(n)
    ensures Popped(s).Ok(n)
  {
    if |s.cands| > 1 {
      var top := s.cands[0 := s.cands[|s.cands| - 1]][..|s.cands| - 1];
      SiftDownPermutes(top, 0);
      forall x | x in PopMin(s.cands) ensures x.id < n {
        assert x in multiset(top);
        assert x in top;
      }
    }
  }

  /** The search loop: take a closest candidate, stop when it is farther than the worst
      kept result, otherwise go through its neighbours. */
  ghost function Run(sp: Space, s: Search): (r: Search)
    requires SpaceOk(sp) && s.Ok(|sp.dist|)
    ensures r.Ok(|sp.dist|)
    decreases |Ids(|sp.dist|) - s.seen|, |s.cands|
  {
    if s.cands == [] then s
    else
      var c := s.cands[0];
      PoppedOk(s, |sp.dist|);
      assert c in s.cands;
      if c.dist > s.res[s.worst].dist then Popped(s)
      else
        var s' := Expand(sp, sp.adj[c.id], Popped(s));
        CardinalityMonotone(Ids(|sp.dist|) - s'.seen, Ids(|sp.dist|) - s.seen);
        assert |Ids(|sp.dist|) - s'.seen| == |Ids(|sp.dist|) - s.seen| ==> s'.seen == s.seen by {
          if |Ids(|sp.dist|) - s'.seen| == |Ids(|sp.dist|) - s.seen| {
            assert s'.seen <= Ids(|sp.dist|);
            assert s'.seen == Ids(|sp.dist|) - (Ids(|sp.dist|) - s'.seen);
            assert s.seen == Ids(|sp.dist|) - (Ids(|sp.dist|) - s.seen);
          }
        }
        Run(sp, s')
  }

  ghost function Start(sp: Space, entry: nat): (s: Search)
    requires entry < |sp.dist|
    ensures s.Ok(|sp.dist|)
  {
    var x := Item(entry, sp.dist[entry]);
    assert PushMin([], x) == [x];
    Search({entry}, PushMin([], x), [x], 0)
  }

  /** The whole search at layer 0 from `entry`. */
  ghost function SearchFrom(sp: Space, entry: nat): (s: Search)
    requires SpaceOk(sp) && entry < |sp.dist|
    ensures s.Ok(|sp.dist|)
  {
    Run(sp, Start(sp, entry))
  }
}
