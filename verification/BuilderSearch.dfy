/** The searches the builder runs while inserting (greedyDescend and searchLayer in
    internal/hnsw/hnsw.go): any width, any layer, on the graph as built so far. */
module BuilderSearch {
  import opened Distance
  import opened CandidateHeap
  import opened LayerSearch
  import opened GreedyClimbs
  import opened SearchCertificate
  import opened SearchOrder
  import opened Network
  import opened GraphIndex
  import opened QueryEngine

  // ---------- container/heap ----------

  ghost predicate Distinct(s: seq<Item>) {
    forall i, j :: 0 <= i < j < |s| ==> s[i] != s[j]
  }

  lemma {:induction false} DistinctCounts(s: seq<Item>, x: Item)
    requires Distinct(s)
    ensures multiset(s)[x] <= 1
    decreases |s|
  {
    if s != [] {
      var front := s[..|s| - 1];
      assert s == front + [s[|s| - 1]];
      DistinctCounts(front, x);
      if x == s[|s| - 1] {
        assert x !in front;
        assert x !in multiset(front);
      }
    }
  }

  lemma {:induction false} CountsDistinct(s: seq<Item>)
    requires forall x :: multiset(s)[x] <= 1
    ensures Distinct(s)
    decreases |s|
  {
    if s != [] {
      var front, last := s[..|s| - 1], s[|s| - 1];
      assert s == front + [last];
      assert forall x :: multiset(s)[x] >= multiset(front)[x];
      CountsDistinct(front);
      if last in front {
        assert last in multiset(front);
        assert multiset(s)[last] == multiset(front)[last] + 1;
      }
    }
  }

  /** x taken out of h, in whatever order the rest is left. */
  ghost predicate TakenOut(h: seq<Item>, x: Item, rest: seq<Item>) {
    multiset(h) == multiset(rest) + multiset{x}
  }

  lemma TakenOutMembers(h: seq<Item>, x: Item, rest: seq<Item>)
    requires TakenOut(h, x, rest)
    ensures |rest| == |h| - 1
    ensures forall y :: y in h <==> y in rest || y == x
    ensures Distinct(h) ==> Distinct(rest) && x !in rest
  {
    assert |multiset(h)| == |h| && |multiset(rest)| == |rest|;
    forall y ensures y in h <==> y in rest || y == x {
      assert y in h <==> y in multiset(h);
      assert y in rest <==> y in multiset(rest);
    }
    if Distinct(h) {
      forall y ensures multiset(rest)[y] <= 1 && (y == x ==> multiset(rest)[y] == 0) {
        DistinctCounts(h, y);
        assert multiset(h)[y] == multiset(rest)[y] + multiset{x}[y];
      }
      CountsDistinct(rest);
      assert x !in multiset(rest);
    }
  }

  /** Stands for heap.Pop on the min-heap: some closest item is removed. */
  method PopLeast(h: seq<Item>) returns (x: Item, rest: seq<Item>)
    requires |h| > 0
    ensures TakenOut(h, x, rest) && forall y :: y in h ==> x.dist <= y.dist
  {
    var b := 0;
    for i := 1 to |h|
      invariant 0 <= b < i && forall k :: 0 <= k < i ==> h[b].dist <= h[k].dist
    {
      if h[i].dist < h[b].dist {
        b := i;
      }
    }
    x, rest := h[b], h[..b] + h[b + 1..];
    assert h == h[..b] + [h[b]] + h[b + 1..];
  }

  /** Stands for reading the root of the max-heap: some farthest item. */
  method Greatest(h: seq<Item>) returns (x: Item)
    requires |h| > 0
    ensures x in h && forall y :: y in h ==> y.dist <= x.dist
  {
    x := h[0];
    for i := 1 to |h|
      invariant x in h && forall k :: 0 <= k < i ==> h[k].dist <= x.dist
    {
      if h[i].dist > x.dist {
        x := h[i];
      }
    }
  }

  /** Stands for heap.Pop on the max-heap: some farthest item is removed. */
  method PopGreatest(h: seq<Item>) returns (x: Item, rest: seq<Item>)
    requires |h| > 0
    ensures TakenOut(h, x, rest) && forall y :: y in h ==> y.dist <= x.dist
  {
    var b := 0;
    for i := 1 to |h|
      invariant 0 <= b < i && forall k :: 0 <= k < i ==> h[k].dist <= h[b].dist
    {
      if h[i].dist > h[b].dist {
        b := i;
      }
    }
    x, rest := h[b], h[..b] + h[b + 1..];
    assert h == h[..b] + [h[b]] + h[b + 1..];
  }

  // ---------- Visited marks ----------

  /** The generation-counted visited array of the builder; the counter is a uint32. */
  class Visits {
    const marks: array<nat>
    var gen: nat

    ghost predicate Valid()
      reads this, marks
    {
      gen < 0x1_0000_0000 && forall i :: 0 <= i < marks.Length ==> marks[i] <= gen
    }

    ghost function Seen(): (s: set<nat>)
      reads this, marks
      ensures forall v: nat :: v in s <==> v < marks.Length && marks[v] == gen
    {
      set v: nat | v < marks.Length && marks[v] == gen
    }

    constructor (n: nat)
      ensures Valid() && marks.Length == n && fresh(marks)
    {
      marks := new nat[n](_ => 0);
      gen := 0;
    }

    /** resetVisited: afterwards nothing counts as visited. */
    method Reset()
      requires Valid()
      modifies this, marks
      ensures Valid() && Seen() == {}
    {
      gen := (gen + 1) % 0x1_0000_0000;
      if gen == 0 {
        for i := 0 to marks.Length
          invariant forall k :: 0 <= k < i ==> marks[k] == 0
        {
          marks[i] := 0;
        }
        gen := 1;
      }
    }

    method Mark(v: nat)
      requires Valid() && v < marks.Length
      modifies marks
      ensures Valid() && Seen() == old(Seen()) + {v}
    {
      marks[v] := gen;
    }
  }

  // ---------- The width-ef search ----------

  ghost predicate EfKept(sp: Space, ef: nat, seen: set<nat>, res: seq<Item>) {
    && (forall v :: v in seen ==> v < |sp.dist|)
    && Faithful(sp, res) && Distinct(res) && 1 <= |res| <= ef
    && (forall x :: x in res ==> x.id in seen)
  }

  /** A node met is kept, or ef no farther ones are. */
  ghost predicate EfBest(sp: Space, ef: nat, seen: set<nat>, res: seq<Item>)
    requires forall v :: v in seen ==> v < |sp.dist|
  {
    forall v, x :: v in seen && x in res ==> Holds(res, sp, v) || (|res| == ef && x.dist <= sp.dist[v])
  }

  ghost predicate EfPending(sp: Space, seen: set<nat>, cands: seq<Item>, res: seq<Item>, busy: set<nat>) {
    && Faithful(sp, cands) && (forall x :: x in cands ==> x.id in seen)
    && forall v :: Holds(res, sp, v) ==> Holds(cands, sp, v) || v in busy || Expanded(sp.adj, v, seen)
  }

  ghost predicate EfReach(sp: Space, entry: nat, seen: set<nat>) {
    entry in seen && forall v :: v in seen ==> Reachable(sp.adj, entry, v)
  }

  ghost predicate EfInv(sp: Space, entry: nat, ef: nat, seen: set<nat>, cands: seq<Item>, res: seq<Item>,
                        busy: set<nat>) {
    && SpaceOk(sp) && EfKept(sp, ef, seen, res) && EfBest(sp, ef, seen, res)
    && EfPending(sp, seen, cands, res, busy) && EfReach(sp, entry, seen)
  }

  /** The outcome of a search of width ef: between 1 and ef distinct nodes reachable from
      the entry with their distances, the closest of all nodes met, all their neighbours
      met too; and what was met is what a best-first search of that width meets. */
  ghost predicate Outcome(sp: Space, entry: nat, ef: nat, found: seq<Item>) {
    exists seen :: EfInv(sp, entry, ef, seen, [], found, {}) && Searched(sp, entry, ef, seen)
  }

  /** What an outcome guarantees of the nodes found: distinct, reachable, with their
      distances; and every neighbour of one is found too, or ef no farther ones were. */
  lemma OutcomeIsLocallyOptimal(sp: Space, entry: nat, ef: nat, found: seq<Item>)
    requires Outcome(sp, entry, ef, found)
    ensures SpaceOk(sp) && 1 <= |found| <= ef && Faithful(sp, found)
    ensures forall i, j :: 0 <= i < j < |found| ==> found[i].id != found[j].id
    ensures forall x :: x in found ==> Reachable(sp.adj, entry, x.id)
    ensures forall x, nb :: x in found && nb in sp.adj[x.id] && nb >= 0 ==>
              && nb < |sp.dist|
              && (Holds(found, sp, nb) || (|found| == ef && forall y :: y in found ==> y.dist <= sp.dist[nb]))
  {
    var seen :| EfInv(sp, entry, ef, seen, [], found, {});
    hide Outcome, Searched;
    assert forall x :: x in found ==> Holds(found, sp, x.id);
    forall i, j | 0 <= i < j < |found| ensures found[i].id != found[j].id {
      assert found[i] in found && found[j] in found;
    }
    forall x, nb | x in found && nb in sp.adj[x.id] && nb >= 0
      ensures nb < |sp.dist|
      ensures Holds(found, sp, nb) || (|found| == ef && forall y :: y in found ==> y.dist <= sp.dist[nb])
    {
      assert Expanded(sp.adj, x.id, seen);
      assert nb in seen;
      if !Holds(found, sp, nb) {
        MetIsNoCloser(sp, ef, seen, found, nb);
      }
    }
  }

  lemma EfAdmit(sp: Space, entry: nat, ef: nat, seen: set<nat>, cands: seq<Item>, res: seq<Item>, busy: set<nat>,
                x: Item, worst: Item)
    requires EfInv(sp, entry, ef, seen, cands, res, busy)
    requires x.id < |sp.dist| && x.dist == sp.dist[x.id] && x.id !in seen && Reachable(sp.adj, entry, x.id)
    requires worst in res && forall y :: y in res ==> y.dist <= worst.dist
    ensures |res| < ef ==> EfInv(sp, entry, ef, seen + {x.id}, cands + [x], res + [x], busy)
    ensures |res| == ef && x.dist >= worst.dist ==> EfInv(sp, entry, ef, seen + {x.id}, cands, res, busy)
  {
    assert x !in res;
    var more := res + [x];
    assert forall y :: y in res ==> y in more;
    assert more[|res|] == x;
    assert (cands + [x])[|cands|] == x;
  }

  lemma EfReplaceKept(sp: Space, ef: nat, seen: set<nat>, res: seq<Item>, x: Item, y: Item, rest: seq<Item>)
    requires EfKept(sp, ef, seen, res) && EfBest(sp, ef, seen, res) && |res| == ef
    requires x.id < |sp.dist| && x.dist == sp.dist[x.id] && x.id !in seen
    requires TakenOut(res + [x], y, rest) && forall z :: z in res + [x] ==> z.dist <= y.dist
    ensures EfKept(sp, ef, seen + {x.id}, rest) && EfBest(sp, ef, seen + {x.id}, rest)
    ensures forall z :: z in rest ==> z in res || z == x
  {
    var more := res + [x];
    assert x !in res;
    TakenOutMembers(more, y, rest);
    forall v, z | v in seen + {x.id} && z in rest
      ensures Holds(rest, sp, v) || (|rest| == ef && z.dist <= sp.dist[v])
    {
      assert z in more;
      if !Holds(rest, sp, v) {
        var it := Item(v, sp.dist[v]);
        if it in more {
          assert it == y;
        } else {
          assert !Holds(res, sp, v) && v != x.id;
          MetIsNoCloser(sp, ef, seen, res, v);
        }
      }
    }
  }

  /** A node met but not kept is no closer than any kept one. */
  lemma MetIsNoCloser(sp: Space, ef: nat, seen: set<nat>, res: seq<Item>, v: nat)
    requires EfKept(sp, ef, seen, res) && EfBest(sp, ef, seen, res) && v in seen && !Holds(res, sp, v)
    ensures |res| == ef && forall z :: z in res ==> z.dist <= sp.dist[v]
  {
    assert res[0] in res;
  }

  /** A closer node displaces a farthest kept one. */
  lemma EfReplace(sp: Space, entry: nat, ef: nat, seen: set<nat>, cands: seq<Item>, res: seq<Item>, busy: set<nat>,
                  x: Item, y: Item, rest: seq<Item>)
    requires EfInv(sp, entry, ef, seen, cands, res, busy) && |res| == ef
    requires x.id < |sp.dist| && x.dist == sp.dist[x.id] && x.id !in seen && Reachable(sp.adj, entry, x.id)
    requires TakenOut(res + [x], y, rest) && forall z :: z in res + [x] ==> z.dist <= y.dist
    ensures EfInv(sp, entry, ef, seen + {x.id}, cands + [x], rest, busy)
  {
    EfReplaceKept(sp, ef, seen, res, x, y, rest);
    assert (cands + [x])[|cands|] == x;
    assert forall z :: z in cands ==> z in cands + [x];
  }

  lemma EfPop(sp: Space, entry: nat, ef: nat, seen: set<nat>, cands: seq<Item>, res: seq<Item>, c: Item,
              rest: seq<Item>)
    requires EfInv(sp, entry, ef, seen, cands, res, {}) && TakenOut(cands, c, rest)
    ensures EfInv(sp, entry, ef, seen, rest, res, {c.id})
    ensures c.id in seen && c.id < |sp.dist| && c.dist == sp.dist[c.id] && |rest| < |cands|
  {
    TakenOutMembers(cands, c, rest);
  }

  /** The early stop: no kept node is pending when the closest candidate is farther than
      a farthest kept one. */
  lemma EfStop(sp: Space, entry: nat, ef: nat, seen: set<nat>, cands: seq<Item>, res: seq<Item>, c: Item, worst: Item)
    requires EfInv(sp, entry, ef, seen, cands, res, {})
    requires forall y :: y in cands ==> c.dist <= y.dist
    requires forall y :: y in res ==> y.dist <= worst.dist
    requires c.dist > worst.dist
    ensures EfInv(sp, entry, ef, seen, [], res, {})
  {
    forall v: nat | Holds(res, sp, v) ensures Expanded(sp.adj, v, seen) {
      assert Item(v, sp.dist[v]) !in cands;
    }
  }

  lemma EfBounded(sp: Space, entry: nat, ef: nat, seen: set<nat>, cands: seq<Item>, res: seq<Item>, busy: set<nat>)
    requires EfInv(sp, entry, ef, seen, cands, res, busy)
    ensures 0 < |res| <= ef && |sp.adj| == |sp.dist| && forall v :: v in seen ==> v < |sp.dist|
  {
  }

  lemma EfRowDone(sp: Space, entry: nat, ef: nat, seen: set<nat>, cands: seq<Item>, res: seq<Item>, c: nat)
    requires EfInv(sp, entry, ef, seen, cands, res, {c}) && Expanded(sp.adj, c, seen)
    ensures EfInv(sp, entry, ef, seen, cands, res, {})
  {
  }

  // ---------- The graph as built so far ----------

  /** The upper-layer maps of the builder, node to neighbours; the base layer is in the
      graph's buffers. */
  type Uppers = seq<map<int, seq<int>>>

  /** Neighbours on layer L: the base rows, or the layer's map; none for a node that is
      not in it. */
  function NeighborsAt(v: Index, upper: Uppers, id: nat, L: nat): seq<int>
    requires v.BaseSized() && id < v.n
  {
    if L == 0 then v.Layer0Neighbors(id)
    else if L - 1 >= |upper| || id !in upper[L - 1] then []
    else upper[L - 1][id]
  }

  ghost function LayerAdj(v: Index, upper: Uppers, L: nat): (adj: seq<seq<int>>)
    requires v.BaseSized()
    ensures |adj| == v.n && forall id :: 0 <= id < v.n ==> adj[id] == NeighborsAt(v, upper, id, L)
  {
    seq(v.n, id requires 0 <= id < v.n => NeighborsAt(v, upper, id, L))
  }

  ghost function NodeDistances(v: Index, q: seq<int>): (d: seq<int>)
    requires |v.vectors| == v.n * DIM && |q| == DIM
    ensures |d| == v.n && forall id :: 0 <= id < v.n ==> d[id] == Dist(q, v.VectorAt(id))
  {
    seq(v.n, id requires 0 <= id < v.n => Dist(q, v.VectorAt(id)))
  }

  /** Layer L as an insertion with query vector q sees it. */
  ghost function LayerSpace(v: Index, upper: Uppers, q: seq<int>, L: nat): (sp: Space)
    requires v.BaseSized() && |q| == DIM
    ensures |sp.adj| == |sp.dist| == v.n
  {
    Space(LayerAdj(v, upper, L), NodeDistances(v, q))
  }

  /** Greedy hill climbing on layer L. */
  method GreedyDescend(v: Index, upper: Uppers, q: seq<int>, entry: nat, L: nat) returns (current: nat)
    requires v.BaseSized() && |q| == DIM && entry < v.n && AdjOk(LayerAdj(v, upper, L))
    ensures SpaceOk(LayerSpace(v, upper, q, L))
    ensures current == Descend(LayerSpace(v, upper, q, L), entry)
    ensures ClimbsTo(LayerSpace(v, upper, q, L), entry, current)
  {
    ghost var sp := LayerSpace(v, upper, q, L);
    DescendIsClimb(sp, entry, Descend(sp, entry));
    current := entry;
    while true
      invariant current < v.n && Descend(sp, current) == Descend(sp, entry)
      decreases |Closer(sp, current)|
    {
      var nbs := NeighborsAt(v, upper, current, L);
      assert nbs == sp.adj[current] && RowOk(nbs, v.n);
      var next, improved := ClimbOnce(v, q, nbs, current, sp);
      if !improved {
        return;
      }
      CloserShrinks(sp, current, next);
      current := next;
    }
  }

  lemma EfAppendTracked(sp: Space, entry: nat, ef: nat, seen: set<nat>, cands: seq<Item>, res: seq<Item>,
                        busy: set<nat>, done: seq<nat>, x: Item)
    requires EfInv(sp, entry, ef, seen, cands, res, busy) && Tracked(sp, ef, seen, multiset(cands), res, done)
    requires x.id < |sp.dist| && x.dist == sp.dist[x.id] && x.id !in seen && forall u :: u in done ==> u in seen
    requires |res| < ef
    ensures Tracked(sp, ef, seen + {x.id}, multiset(cands + [x]), res + [x], done)
  {
    TrackedAdmit(sp, ef, seen, multiset(cands), res, done, x, res + [x]);
    assert multiset(cands + [x]) == multiset(cands) + multiset{x};
  }

  lemma EfReplaceTracked(sp: Space, entry: nat, ef: nat, seen: set<nat>, cands: seq<Item>, res: seq<Item>,
                         busy: set<nat>, done: seq<nat>, x: Item, worst: Item, y: Item, rest: seq<Item>)
    requires EfInv(sp, entry, ef, seen, cands, res, busy) && Tracked(sp, ef, seen, multiset(cands), res, done)
    requires x.id < |sp.dist| && x.dist == sp.dist[x.id] && x.id !in seen && forall u :: u in done ==> u in seen
    requires |res| == ef && worst in res && x.dist < worst.dist && TakenOut(res + [x], y, rest)
    ensures Tracked(sp, ef, seen + {x.id}, multiset(cands + [x]), rest, done)
  {
    TakenOutMembers(res + [x], y, rest);
    TrackedAdmit(sp, ef, seen, multiset(cands), res, done, x, rest);
    assert multiset(cands + [x]) == multiset(cands) + multiset{x};
  }

  lemma RejectTracked(sp: Space, ef: nat, seen: set<nat>, cands: seq<Item>, res: seq<Item>, done: seq<nat>,
                      x: Item, worst: Item)
    requires Tracked(sp, ef, seen, multiset(cands), res, done) && x.id < |sp.dist| && x.dist == sp.dist[x.id]
    requires |res| == ef && x.dist >= worst.dist && forall y :: y in res ==> y.dist <= worst.dist
    ensures Tracked(sp, ef, seen + {x.id}, multiset(cands), res, done)
  {
    TrackedReject(sp, ef, seen, multiset(cands), res, done, x.id);
  }

  lemma SeenIsMarked(visits: Visits, v: nat)
    requires v < visits.marks.Length
    ensures v in visits.Seen() <==> visits.marks[v] == visits.gen
  {
  }

  /** One node met: kept when there is room or it is closer than a farthest kept one. */
  method MeetNode(ghost sp: Space, ghost entry: nat, ef: nat, visits: Visits, cands0: seq<Item>, res0: seq<Item>,
                  ghost busy: set<nat>, ghost done: seq<nat>, x: Item)
      returns (cands: seq<Item>, res: seq<Item>)
    requires visits.Valid() && x.id < visits.marks.Length == |sp.dist| && visits.marks[x.id] != visits.gen
    requires EfInv(sp, entry, ef, visits.Seen(), cands0, res0, busy)
    requires Tracked(sp, ef, visits.Seen(), multiset(cands0), res0, done) && forall u :: u in done ==>
              u in visits.Seen()
    requires x.dist == sp.dist[x.id] && Reachable(sp.adj, entry, x.id)
    modifies visits.marks
    ensures visits.Valid() && visits.Seen() == old(visits.Seen()) + {x.id}
    ensures EfInv(sp, entry, ef, visits.Seen(), cands, res, busy)
    ensures Tracked(sp, ef, visits.Seen(), multiset(cands), res, done)
  {
    hide *;
    ghost var seen := visits.Seen();
    SeenIsMarked(visits, x.id);
    EfBounded(sp, entry, ef, seen, cands0, res0, busy);
    visits.Mark(x.id);
    cands, res := cands0, res0;
    var worst := Greatest(res);
    EfAdmit(sp, entry, ef, seen, cands, res, busy, x, worst);
    if |res| < ef || x.dist < worst.dist {
      cands := cands + [x];
      res := res + [x];
      if |res| > ef {
        var far, rest := PopGreatest(res);
        EfReplace(sp, entry, ef, seen, cands0, res0, busy, x, far, rest);
        EfReplaceTracked(sp, entry, ef, seen, cands0, res0, busy, done, x, worst, far, rest);
        res := rest;
      } else {
        EfAppendTracked(sp, entry, ef, seen, cands0, res0, busy, done, x);
      }
    } else {
      RejectTracked(sp, ef, seen, cands0, res0, done, x, worst);
    }
  }

  /** What the loop needs to know of a neighbour slot. */
  lemma SlotFacts(sp: Space, entry: nat, ef: nat, seen: set<nat>, cands: seq<Item>, res: seq<Item>, c: nat, i: nat)
    requires EfInv(sp, entry, ef, seen, cands, res, {c}) && c in seen && c < |sp.adj| && i < |sp.adj[c]|
    ensures sp.adj[c][i] < |sp.dist| && (sp.adj[c][i] >= 0 ==> Reachable(sp.adj, entry, sp.adj[c][i]))
  {
    assert RowOk(sp.adj[c], |sp.dist|);
    if sp.adj[c][i] >= 0 {
      ReachableStep(sp.adj, entry, c, i);
    }
  }

  /** One neighbour slot of a candidate. */
  method MeetSlot(v: Index, q: seq<int>, ghost sp: Space, ghost entry: nat, ef: nat, visits: Visits,
                  cands0: seq<Item>, res0: seq<Item>, ghost c: nat, ghost done: seq<nat>, nb: int)
      returns (cands: seq<Item>, res: seq<Item>)
    requires |v.vectors| == v.n * DIM && |q| == DIM && |sp.dist| == v.n == visits.marks.Length
    requires forall id :: 0 <= id < v.n ==> sp.dist[id] == Dist(q, v.VectorAt(id))
    requires visits.Valid() && nb < v.n && (nb >= 0 ==> Reachable(sp.adj, entry, nb))
    requires EfInv(sp, entry, ef, visits.Seen(), cands0, res0, {c})
    requires Tracked(sp, ef, visits.Seen(), multiset(cands0), res0, done) && forall u :: u in done ==>
              u in visits.Seen()
    modifies visits.marks
    ensures visits.Valid() && visits.Seen() == old(visits.Seen()) + Neighbors([nb])
    ensures visits.Seen() == old(visits.Seen()) ==> cands == cands0
    ensures EfInv(sp, entry, ef, visits.Seen(), cands, res, {c})
    ensures Tracked(sp, ef, visits.Seen(), multiset(cands), res, done)
  {
    hide Tracked, EfInv, Reachable;
    assert Neighbors([nb]) == if nb < 0 then {} else {nb as nat};
    if nb < 0 || visits.marks[nb] == visits.gen {
      return cands0, res0;
    }
    cands, res := MeetNode(sp, entry, ef, visits, cands0, res0, {c}, done, Item(nb, Dist(q, v.VectorAt(nb))));
  }

  lemma NeighborsNone(nbs: seq<int>)
    ensures Neighbors(nbs[..0]) == {} && nbs[..|nbs|] == nbs
  {
  }

  lemma NeighborsGrow(nbs: seq<int>, i: nat)
    requires i < |nbs|
    ensures Neighbors(nbs[..i + 1]) == Neighbors(nbs[..i]) + Neighbors([nbs[i]])
  {
    assert nbs[..i + 1] == nbs[..i] + [nbs[i]];
  }

  /** The loop over the neighbours of one candidate. */
  method ExpandNode(v: Index, q: seq<int>, ghost sp: Space, ghost entry: nat, ef: nat, visits: Visits,
                    cands0: seq<Item>, res0: seq<Item>, c: nat, ghost done: seq<nat>, nbs: seq<int>)
      returns (cands: seq<Item>, res: seq<Item>)
    requires |v.vectors| == v.n * DIM && |q| == DIM && |sp.dist| == v.n == visits.marks.Length
    requires forall id :: 0 <= id < v.n ==> sp.dist[id] == Dist(q, v.VectorAt(id))
    requires |sp.adj| == v.n && visits.Valid() && c < v.n && c in visits.Seen() && nbs == sp.adj[c]
    requires EfInv(sp, entry, ef, visits.Seen(), cands0, res0, {c})
    requires Tracked(sp, ef, visits.Seen(), multiset(cands0), res0, done) && forall u :: u in done ==>
              u in visits.Seen()
    modifies visits.marks
    ensures visits.Valid() && visits.Seen() == old(visits.Seen()) + Neighbors(nbs)
    ensures visits.Seen() == old(visits.Seen()) ==> cands == cands0
    ensures EfInv(sp, entry, ef, visits.Seen(), cands, res, {})
    ensures Tracked(sp, ef, visits.Seen(), multiset(cands), res, done)
  {
    hide *;
    cands, res := cands0, res0;
    NeighborsNone(nbs);
    for i := 0 to |nbs|
      invariant visits.Valid() && visits.Seen() == old(visits.Seen()) + Neighbors(nbs[..i])
      invariant visits.Seen() == old(visits.Seen()) ==> cands == cands0
      invariant EfInv(sp, entry, ef, visits.Seen(), cands, res, {c})
      invariant Tracked(sp, ef, visits.Seen(), multiset(cands), res, done)
    {
      SlotFacts(sp, entry, ef, visits.Seen(), cands, res, c, i);
      NeighborsGrow(nbs, i);
      cands, res := MeetSlot(v, q, sp, entry, ef, visits, cands, res, c, done, nbs[i]);
    }
    SlotsDone(sp, entry, ef, old(visits.Seen()), visits.Seen(), cands, res, c);
  }

  lemma SlotsDone(sp: Space, entry: nat, ef: nat, before: set<nat>, seen: set<nat>, cands: seq<Item>, res: seq<Item>,
                  c: nat)
    requires EfInv(sp, entry, ef, seen, cands, res, {c}) && c < |sp.adj| && seen == before + Neighbors(sp.adj[c])
    ensures EfInv(sp, entry, ef, seen, cands, res, {})
  {
    assert Expanded(sp.adj, c, seen);
    EfRowDone(sp, entry, ef, seen, cands, res, c);
  }

  lemma FewerUnseen(n: nat, a: set<nat>, b: set<nat>)
    requires a <= b && forall v :: v in b ==> v < n
    ensures |Ids(n) - b| <= |Ids(n) - a| && (|Ids(n) - b| == |Ids(n) - a| ==> a == b)
  {
    CardinalityMonotone(Ids(n) - b, Ids(n) - a);
    if |Ids(n) - b| == |Ids(n) - a| {
      assert a == Ids(n) - (Ids(n) - a) && b == Ids(n) - (Ids(n) - b);
    }
  }

  lemma EfStart(sp: Space, entry: nat, ef: nat)
    requires SpaceOk(sp) && entry < |sp.dist| && ef >= 1
    ensures EfInv(sp, entry, ef, {entry}, [Item(entry, sp.dist[entry])], [Item(entry, sp.dist[entry])], {})
  {
    assert IsWalk(sp.adj, [entry], entry, entry);
  }

  /** The state of the loop after the nodes in done have been expanded. */
  ghost predicate EfGoing(sp: Space, entry: nat, ef: nat, seen: set<nat>, cands: seq<Item>, res: seq<Item>,
                          done: seq<nat>) {
    && Tracked(sp, ef, seen, multiset(cands), res, done) && seen == Met(sp.adj, entry, done)
    && BestFirst(sp, entry, ef, done) && forall u :: u in done ==> u in seen
  }

  lemma EfIsRanked(sp: Space, entry: nat, ef: nat, seen: set<nat>, cands: seq<Item>, res: seq<Item>, busy: set<nat>)
    requires EfInv(sp, entry, ef, seen, cands, res, busy)
    ensures Ranked(sp, ef, seen, res)
  {
    forall v | v in seen ensures v < |sp.dist| && (Item(v, sp.dist[v]) in res || Outranked(res, ef, sp.dist[v])) {
      if !Holds(res, sp, v) {
        MetIsNoCloser(sp, ef, seen, res, v);
      }
    }
  }

  /** A closest candidate is taken out to be expanded. */
  lemma EfTake(sp: Space, entry: nat, ef: nat, seen: set<nat>, cands: seq<Item>, res: seq<Item>, done: seq<nat>,
               c: Item, rest: seq<Item>, worst: Item)
    requires EfInv(sp, entry, ef, seen, cands, res, {}) && EfGoing(sp, entry, ef, seen, cands, res, done)
    requires TakenOut(cands, c, rest) && (forall y :: y in cands ==> c.dist <= y.dist) && worst in res
    requires c.dist <= worst.dist
    ensures MayExpand(sp, entry, ef, done, c.id) && Tracked(sp, ef, seen, multiset(rest), res, done + [c.id])
    ensures BestFirst(sp, entry, ef, done + [c.id]) && forall u :: u in done + [c.id] ==> u in seen
  {
    EfIsRanked(sp, entry, ef, seen, cands, res, {});
    assert c in multiset(cands) && forall y :: y in multiset(cands) ==> y in cands;
    hide EfInv, Tracked, Ranked, BestFirst;
    TakenMayExpand(sp, entry, ef, multiset(cands), res, done, c, worst);
    TrackedTake(sp, ef, seen, multiset(cands), res, done, c, multiset(rest));
    BestFirstGrows(sp, entry, ef, done, c.id);
  }

  /** Nothing is left to be expanded when no candidate is, or a closest one is farther than
      a farthest kept node. */
  lemma EfExhausted(sp: Space, entry: nat, ef: nat, seen: set<nat>, cands: seq<Item>, res: seq<Item>, done: seq<nat>)
    requires EfInv(sp, entry, ef, seen, cands, res, {}) && EfGoing(sp, entry, ef, seen, cands, res, done)
    requires forall y, x :: y in cands && x in res ==> x.dist < y.dist
    ensures Searched(sp, entry, ef, seen)
  {
    EfIsRanked(sp, entry, ef, seen, cands, res, {});
    forall y | y in multiset(cands) ensures y !in res && Outranked(res, ef, y.dist) {
      assert y in cands;
      assert Item(y.id, sp.dist[y.id]) == y;
    }
    NothingLeft(sp, entry, ef, multiset(cands), res, done);
  }

  lemma BaseVectors(v: Index)
    requires v.BaseSized()
    ensures |v.vectors| == v.n * DIM
  {
  }

  /** One iteration: expand a closest candidate, or stop when it is farther than a
      farthest kept node (then nothing is left pending). */
  method SearchStep(v: Index, q: seq<int>, ghost sp: Space, ghost entry: nat, ef: nat, visits: Visits,
                    upper: Uppers, L: nat, cands0: seq<Item>, res0: seq<Item>, ghost done0: seq<nat>)
      returns (cands: seq<Item>, res: seq<Item>, ghost done: seq<nat>)
    requires v.BaseSized() && |q| == DIM && |sp.adj| == |sp.dist| == v.n
    requires forall id :: 0 <= id < v.n ==>
              sp.adj[id] == NeighborsAt(v, upper, id, L) && sp.dist[id] == Dist(q, v.VectorAt(id))
    requires visits.Valid() && visits.marks.Length == v.n && |cands0| > 0
    requires EfInv(sp, entry, ef, visits.Seen(), cands0, res0, {})
    requires EfGoing(sp, entry, ef, visits.Seen(), cands0, res0, done0)
    modifies visits.marks
    ensures visits.Valid() && EfInv(sp, entry, ef, visits.Seen(), cands, res, {})
    ensures cands != [] ==> EfGoing(sp, entry, ef, visits.Seen(), cands, res, done)
    ensures cands == [] ==> Searched(sp, entry, ef, visits.Seen())
    ensures |Ids(v.n) - visits.Seen()| <= |Ids(v.n) - old(visits.Seen())|
    ensures |Ids(v.n) - visits.Seen()| < |Ids(v.n) - old(visits.Seen())| || |cands| < |cands0|
  {
    hide *;
    BaseVectors(v);
    ghost var seen := visits.Seen();
    var c, rest := PopLeast(cands0);
    EfPop(sp, entry, ef, seen, cands0, res0, c, rest);
    EfBounded(sp, entry, ef, seen, cands0, res0, {});
    var worst := Greatest(res0);
    if c.dist > worst.dist {
      EfStop(sp, entry, ef, seen, cands0, res0, c, worst);
      EfExhausted(sp, entry, ef, seen, cands0, res0, done0);
      return [], res0, done0;
    }
    EfTake(sp, entry, ef, seen, cands0, res0, done0, c, rest, worst);
    done := done0 + [c.id];
    cands, res := ExpandNode(v, q, sp, entry, ef, visits, rest, res0, c.id, done, NeighborsAt(v, upper, c.id, L));
    EfBounded(sp, entry, ef, visits.Seen(), cands, res, {});
    FewerUnseen(v.n, seen, visits.Seen());
    EfGoesOn(sp, entry, ef, seen, visits.Seen(), cands0, res0, cands, res, done0, c.id);
    if cands == [] {
      EfExhausted(sp, entry, ef, visits.Seen(), cands, res, done);
    }
  }

  lemma EfGoesOn(sp: Space, entry: nat, ef: nat, seen: set<nat>, seen': set<nat>, cands0: seq<Item>, res0: seq<Item>,
                 cands: seq<Item>, res: seq<Item>, done: seq<nat>, c: nat)
    requires EfGoing(sp, entry, ef, seen, cands0, res0, done) && EfInv(sp, entry, ef, seen', cands, res, {})
    requires c < |sp.adj| && seen' == seen + Neighbors(sp.adj[c]) && BestFirst(sp, entry, ef, done + [c])
    requires Tracked(sp, ef, seen', multiset(cands), res, done + [c]) && forall u :: u in done + [c] ==> u in seen
    ensures EfGoing(sp, entry, ef, seen', cands, res, done + [c])
  {
    MetGrows(sp.adj, entry, done, c, seen');
  }

  /** The nodes found are the ef closest of all nodes visited (all of them when fewer were),
      and every neighbour of one has been visited. */
  lemma FoundAreClosestOfVisited(sp: Space, entry: nat, ef: nat, seen: set<nat>, found: seq<Item>)
    requires EfInv(sp, entry, ef, seen, [], found, {})
    ensures forall x :: x in found ==> x.id in seen && x.dist == sp.dist[x.id] && Expanded(sp.adj, x.id, seen)
    ensures forall v :: v in seen ==> v < |sp.dist| && Reachable(sp.adj, entry, v)
    ensures forall v :: v in seen && !Holds(found, sp, v) ==>
              |found| == ef && forall x :: x in found ==> x.dist <= sp.dist[v]
  {
    forall x | x in found ensures Expanded(sp.adj, x.id, seen) {
      assert Holds(found, sp, x.id);
    }
    forall v | v in seen && !Holds(found, sp, v)
      ensures |found| == ef && forall x :: x in found ==> x.dist <= sp.dist[v]
    {
      MetIsNoCloser(sp, ef, seen, found, v);
    }
  }

  /** A search that ends with fewer than ef nodes has found every node reachable from its
      start. */
  lemma ShortFindIsComplete(sp: Space, entry: nat, ef: nat, found: seq<Item>, v: nat)
    requires Outcome(sp, entry, ef, found) && |found| < ef && Reachable(sp.adj, entry, v)
    ensures Holds(found, sp, v)
  {
    var seen :| EfInv(sp, entry, ef, seen, [], found, {});
    forall u | u in seen ensures Holds(found, sp, u) && Expanded(sp.adj, u, seen) {
      if !Holds(found, sp, u) {
        MetIsNoCloser(sp, ef, seen, found, u);
      }
    }
    var p :| IsWalk(sp.adj, p, entry, v);
    ClosedHoldsWalk(sp.adj, seen, p, entry, v);
  }

  /** The search finds exactly as many nodes as are reachable, up to ef, and exactly the
      reachable ones when there are at most ef. */
  lemma FoundCount(sp: Space, entry: nat, ef: nat, found: seq<Item>)
    requires Outcome(sp, entry, ef, found)
    ensures var reach := ReachSet(sp.adj, entry);
            && |found| == (if |reach| < ef then |reach| else ef)
            && KeptIds(found) <= reach && (|reach| <= ef ==> KeptIds(found) == reach)
  {
    var reach := ReachSet(sp.adj, entry);
    OutcomeIsLocallyOptimal(sp, entry, ef, found);
    hide Outcome;
    KeptIdsSize(found);
    CardinalityMonotone(KeptIds(found), reach);
    if |found| < ef {
      forall v | v in reach ensures v in KeptIds(found) {
        ShortFindIsComplete(sp, entry, ef, found, v);
        HeldIsKept(found, sp, v);
      }
      assert KeptIds(found) == reach;
    }
  }

  /** The ef nodes closest to q of all those visited from the entry on layer L, in no order. */
  method SearchLayer(v: Index, upper: Uppers, q: seq<int>, entry: nat, ef: nat, L: nat, visits: Visits)
      returns (found: seq<Item>)
    requires v.BaseSized() && |q| == DIM && entry < v.n && ef >= 1 && AdjOk(LayerAdj(v, upper, L))
    requires visits.Valid() && visits.marks.Length == v.n
    modifies visits, visits.marks
    ensures visits.Valid()
    ensures EfInv(LayerSpace(v, upper, q, L), entry, ef, visits.Seen(), [], found, {})
    ensures Searched(LayerSpace(v, upper, q, L), entry, ef, visits.Seen())
    ensures Outcome(LayerSpace(v, upper, q, L), entry, ef, found)
  {
    ghost var sp := LayerSpace(v, upper, q, L);
    visits.Reset();
    visits.Mark(entry);
    assert visits.Seen() == {entry};
    var d0 := Dist(q, v.VectorAt(entry));
    var cands, res := [Item(entry, d0)], [Item(entry, d0)];
    EfStart(sp, entry, ef);
    TrackedStart(sp, ef, entry);
    assert multiset(cands) == multiset{Item(entry, d0)};
    ghost var done: seq<nat> := [];
    hide EfInv, Searched, Tracked, BestFirst;
    while |cands| > 0
      invariant visits.Valid() && EfInv(sp, entry, ef, visits.Seen(), cands, res, {})
      invariant cands != [] ==> EfGoing(sp, entry, ef, visits.Seen(), cands, res, done)
      invariant cands == [] ==> Searched(sp, entry, ef, visits.Seen())
      decreases |Ids(v.n) - visits.Seen()|, |cands|
    {
      cands, res, done := SearchStep(v, q, sp, entry, ef, visits, upper, L, cands, res, done);
    }
    assert cands == [];
    found := res;
  }
}
