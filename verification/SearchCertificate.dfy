/** What the layer-0 search guarantees about its results, whatever the graph: they are the
    closest of all the nodes it met, each of them has been expanded, and the early stop
    loses nothing as long as fewer than ten results are held. */
module SearchCertificate {
  import opened CandidateHeap
  import opened LayerSearch

  // ---------- Reachability ----------

  /** p is a walk from a to b along neighbour slots; its length is |p| - 1. */
  ghost predicate IsWalk(adj: seq<seq<int>>, p: seq<nat>, a: nat, b: nat) {
    && |p| > 0 && p[0] == a && p[|p| - 1] == b
    && (forall i :: 0 <= i < |p| ==> p[i] < |adj|)
    && (forall i :: 0 < i < |p| ==> p[i] in adj[p[i - 1]])
  }

  ghost predicate Reachable(adj: seq<seq<int>>, a: nat, b: nat) {
    exists p :: IsWalk(adj, p, a, b)
  }

  /** All neighbours of v are in seen. */
  ghost predicate Expanded(adj: seq<seq<int>>, v: nat, seen: set<nat>) {
    v < |adj| && forall j :: 0 <= j < |adj[v]| && adj[v][j] >= 0 ==> adj[v][j] in seen
  }

  lemma ReachableStep(adj: seq<seq<int>>, a: nat, b: nat, j: nat)
    requires AdjOk(adj) && Reachable(adj, a, b) && b < |adj| && j < |adj[b]| && adj[b][j] >= 0
    ensures Reachable(adj, a, adj[b][j])
  {
    var p :| IsWalk(adj, p, a, b);
    assert RowOk(adj[b], |adj|);
    assert IsWalk(adj, p + [adj[b][j]], a, adj[b][j]);
  }

  lemma {:induction false} ClosedHoldsWalk(adj: seq<seq<int>>, s: set<nat>, p: seq<nat>, a: nat, b: nat)
    requires IsWalk(adj, p, a, b) && a in s
    requires forall v :: v in s ==> Expanded(adj, v, s)
    ensures b in s
    decreases |p|
  {
    if |p| > 1 {
      var q := p[..|p| - 1];
      assert IsWalk(adj, q, a, q[|q| - 1]);
      ClosedHoldsWalk(adj, s, q, a, q[|q| - 1]);
      assert b in adj[q[|q| - 1]];
    }
  }

  // ---------- The invariant ----------

  ghost predicate Holds(items: seq<Item>, sp: Space, v: nat) {
    v < |sp.dist| && Item(v, sp.dist[v]) in items
  }

  ghost predicate Faithful(sp: Space, items: seq<Item>) {
    forall x :: x in items ==> x.id < |sp.dist| && x.dist == sp.dist[x.id]
  }

  /** The kept results: distinct nodes met, with their distances, of which `worst` is a
      farthest one. */
  ghost predicate ResultsOk(sp: Space, s: Search) {
    && s.Ok(|sp.dist|)
    && Faithful(sp, s.res)
    && (forall i, j :: 0 <= i < j < |s.res| ==> s.res[i] != s.res[j])
    && (forall x :: x in s.res ==> x.id in s.seen)
    && (forall i :: 0 <= i < |s.res| ==> s.res[i].dist <= s.res[s.worst].dist)
  }

  ghost predicate CandsOk(sp: Space, s: Search) {
    && Faithful(sp, s.cands)
    && IsHeap(s.cands)
    && (forall x :: x in s.cands ==> x.id in s.seen)
  }

  /** A node met is kept, or ten no farther ones are. */
  ghost predicate BestOfSeen(sp: Space, s: Search)
    requires s.Ok(|sp.dist|)
  {
    forall v :: v in s.seen ==>
      Holds(s.res, sp, v) || (|s.res| == EF && sp.dist[v] >= s.res[s.worst].dist)
  }

  /** A kept node is pending, or all its neighbours have been met; `busy` is the node
      whose neighbours are being gone through. */
  ghost predicate KeptExpanded(sp: Space, s: Search, busy: set<nat>) {
    forall v :: Holds(s.res, sp, v) ==> Holds(s.cands, sp, v) || v in busy || Expanded(sp.adj, v, s.seen)
  }

  ghost predicate SeenReachable(sp: Space, entry: nat, s: Search) {
    forall v :: v in s.seen ==> Reachable(sp.adj, entry, v)
  }

  /** As long as fewer than ten results are held, everything met is kept, and pending or
      expanded. */
  ghost predicate Inv(sp: Space, entry: nat, s: Search, busy: set<nat>) {
    && SpaceOk(sp) && entry in s.seen
    && ResultsOk(sp, s) && CandsOk(sp, s) && BestOfSeen(sp, s)
    && KeptExpanded(sp, s, busy) && SeenReachable(sp, entry, s)
  }

  /** A closer node takes the place of the worst result. */
  lemma ReplaceKeepsResults(sp: Space, s: Search, x: Item, r: Search)
    requires SpaceOk(sp) && ResultsOk(sp, s) && BestOfSeen(sp, s) && r == Admit(s, x) && r.Ok(|sp.dist|)
    requires x.id < |sp.dist| && x.dist == sp.dist[x.id] && x.id !in s.seen
    requires |s.res| == EF && x.dist < s.res[s.worst].dist
    ensures ResultsOk(sp, r) && BestOfSeen(sp, r)
  {
    assert x !in s.res;
    assert r.res == s.res[s.worst := x] && r.seen == s.seen + {x.id};
    assert forall i :: 0 <= i < |r.res| ==> r.res[i].dist <= r.res[r.worst].dist;
    hide Admit;
    forall v | v in r.seen ensures Holds(r.res, sp, v) || sp.dist[v] >= r.res[r.worst].dist {
      if v == x.id {
        assert r.res[s.worst] == x;
      } else if Holds(s.res, sp, v) {
        var k :| 0 <= k < |s.res| && s.res[k] == Item(v, sp.dist[v]);
        if k != s.worst {
          assert r.res[k] == s.res[k];
        }
      }
    }
  }

  lemma AdmitKeepsResults(sp: Space, s: Search, x: Item)
    requires SpaceOk(sp) && ResultsOk(sp, s) && BestOfSeen(sp, s)
    requires x.id < |sp.dist| && x.dist == sp.dist[x.id] && x.id !in s.seen
    requires Admit(s, x).Ok(|sp.dist|)
    ensures ResultsOk(sp, Admit(s, x)) && BestOfSeen(sp, Admit(s, x))
  {
    assert x !in s.res;
    if |s.res| == EF && x.dist < s.res[s.worst].dist {
      ReplaceKeepsResults(sp, s, x, Admit(s, x));
    }
  }

  /** A node met for the first time is kept exactly when fewer than ten are held or it is
      strictly closer than one of them; then the first of the farthest makes room. */
  lemma AdmitIsStrict(sp: Space, s: Search, x: Item)
    requires ResultsOk(sp, s) && x.id !in s.seen
    ensures x in Admit(s, x).res <==> |s.res| < EF || exists k :: 0 <= k < |s.res| && x.dist < s.res[k].dist
    ensures |s.res| == EF && x in Admit(s, x).res && FirstWorst(s.res, s.worst) ==>
              Admit(s, x).res == s.res[s.worst := x] && FirstWorst(Admit(s, x).res, Admit(s, x).worst)
    ensures |s.res| < EF ==> Admit(s, x).res == s.res + [x]
    ensures |s.res| < EF && FirstWorst(s.res, s.worst) ==> FirstWorst(Admit(s, x).res, Admit(s, x).worst)
  {
    assert x !in s.res;
    if |s.res| == EF && x.dist < s.res[s.worst].dist {
      assert s.res[s.worst := x][s.worst] == x;
      WorstFromIsFirst(s.res[s.worst := x], 1, 0);
    }
  }

  /** Only an admitted node is newly held, and it is pending. */
  lemma AdmitHolds(sp: Space, s: Search, x: Item, v: nat)
    requires 0 < |s.res| <= EF && s.worst < |s.res| && Holds(Admit(s, x).res, sp, v)
    ensures Holds(s.res, sp, v) || (v == x.id && Admit(s, x).cands == PushMin(s.cands, x))
  {
  }

  lemma AdmitKeepsCands(sp: Space, s: Search, x: Item)
    requires CandsOk(sp, s) && s.Ok(|sp.dist|)
    requires x.id < |sp.dist| && x.dist == sp.dist[x.id]
    ensures CandsOk(sp, Admit(s, x))
    ensures forall y :: y in s.cands ==> y in Admit(s, x).cands
    ensures Admit(s, x).cands == PushMin(s.cands, x) ==> x in Admit(s, x).cands
  {
    PushMinKeepsHeap(s.cands, x);
    forall y ensures y in PushMin(s.cands, x) <==> y in s.cands || y == x {
      PushMinMembers(s.cands, x, y);
    }
  }

  lemma VisitKeepsInv(sp: Space, entry: nat, nb: int, s: Search, busy: set<nat>)
    requires Inv(sp, entry, s, busy) && nb < |sp.dist|
    requires nb >= 0 ==> Reachable(sp.adj, entry, nb)
    ensures Inv(sp, entry, Visit(sp, nb, s), busy)
    ensures nb >= 0 ==> nb in Visit(sp, nb, s).seen
  {
    if nb >= 0 && nb !in s.seen {
      var x := Item(nb, sp.dist[nb]);
      assert Visit(sp, nb, s) == Admit(s, x);
      AdmitKeepsResults(sp, s, x);
      AdmitKeepsCands(sp, s, x);
      forall v: nat | Holds(Admit(s, x).res, sp, v)
        ensures Holds(s.res, sp, v) || (v == x.id && Admit(s, x).cands == PushMin(s.cands, x))
      {
        AdmitHolds(sp, s, x, v);
      }
    }
  }

  lemma {:induction false} ExpandKeepsInv(sp: Space, entry: nat, nbs: seq<int>, s: Search, busy: set<nat>)
    requires Inv(sp, entry, s, busy) && RowOk(nbs, |sp.dist|)
    requires forall j :: 0 <= j < |nbs| && nbs[j] >= 0 ==> Reachable(sp.adj, entry, nbs[j])
    ensures Inv(sp, entry, Expand(sp, nbs, s), busy)
    ensures forall j :: 0 <= j < |nbs| && nbs[j] >= 0 ==> nbs[j] in Expand(sp, nbs, s).seen
    decreases |nbs|
  {
    if nbs != [] {
      VisitKeepsInv(sp, entry, nbs[0], s, busy);
      ExpandKeepsInv(sp, entry, nbs[1..], Visit(sp, nbs[0], s), busy);
    }
  }

  lemma PopKeepsInv(sp: Space, entry: nat, s: Search)
    requires Inv(sp, entry, s, {}) && s.cands != []
    ensures Inv(sp, entry, Popped(s), {s.cands[0].id})
    ensures forall x :: x in s.cands ==> s.cands[0].dist <= x.dist
  {
    PoppedOk(s, |sp.dist|);
    PopMinKeepsHeap(s.cands);
    forall y ensures y in s.cands <==> y in PopMin(s.cands) || y == s.cands[0] {
      PopMinMembers(s.cands, y);
    }
  }

  /** The outcome: the invariant with nothing pending among the kept nodes. */
  ghost predicate Certified(sp: Space, entry: nat, s: Search) {
    && Inv(sp, entry, s, {})
    && (forall v :: Holds(s.res, sp, v) ==> Expanded(sp.adj, v, s.seen))
  }

  lemma IterationKeepsInv(sp: Space, entry: nat, s: Search)
    requires Inv(sp, entry, s, {}) && s.cands != []
    ensures Popped(s).Ok(|sp.dist|) && s.cands[0].id < |sp.dist|
    ensures Inv(sp, entry, Expand(sp, sp.adj[s.cands[0].id], Popped(s)), {})
  {
    var c := s.cands[0].id;
    PopKeepsInv(sp, entry, s);
    assert s.cands[0] in s.cands;
    var row := sp.adj[c];
    forall j | 0 <= j < |row| && row[j] >= 0 ensures Reachable(sp.adj, entry, row[j]) {
      ReachableStep(sp.adj, entry, c, j);
    }
    ExpandKeepsInv(sp, entry, row, Popped(s), {c});
    var s' := Expand(sp, row, Popped(s));
    assert Expanded(sp.adj, c, s'.seen);
    assert KeptExpanded(sp, s', {});
  }

  lemma {:induction false} RunCertified(sp: Space, entry: nat, s: Search)
    requires Inv(sp, entry, s, {})
    ensures Certified(sp, entry, Run(sp, s))
    decreases |Ids(|sp.dist|) - s.seen|, |s.cands|
  {
    if s.cands != [] {
      if s.cands[0].dist > s.res[s.worst].dist {
        StopIsSafe(sp, entry, s);
      } else {
        RunProgress(sp, s);
        IterationKeepsInv(sp, entry, s);
        RunCertified(sp, entry, Expand(sp, sp.adj[s.cands[0].id], Popped(s)));
      }
    }
  }

  /** Each iteration meets a new node or shortens the heap. */
  lemma RunProgress(sp: Space, s: Search)
    requires SpaceOk(sp) && s.Ok(|sp.dist|) && s.cands != []
    ensures s.cands[0].id < |sp.dist| && Popped(s).Ok(|sp.dist|)
    ensures var n := |sp.dist|;
            var s' := Expand(sp, sp.adj[s.cands[0].id], Popped(s));
            && |Ids(n) - s'.seen| <= |Ids(n) - s.seen|
            && (|Ids(n) - s'.seen| < |Ids(n) - s.seen| || |s'.cands| < |s.cands|)
  {
    PoppedOk(s, |sp.dist|);
    assert s.cands[0] in s.cands;
    var all := Ids(|sp.dist|);
    var s' := Expand(sp, sp.adj[s.cands[0].id], Popped(s));
    CardinalityMonotone(all - s'.seen, all - s.seen);
    if |all - s'.seen| == |all - s.seen| {
      assert s'.seen == all - (all - s'.seen) && s.seen == all - (all - s.seen);
    }
  }

  /** When the closest candidate is farther than the worst kept result, no kept node is
      pending. */
  lemma StopIsSafe(sp: Space, entry: nat, s: Search)
    requires Inv(sp, entry, s, {}) && s.cands != []
    requires s.cands[0].dist > s.res[s.worst].dist
    ensures Certified(sp, entry, Popped(s))
  {
    PopKeepsInv(sp, entry, s);
    forall v: nat | Holds(s.res, sp, v) ensures Expanded(sp.adj, v, s.seen) {
      assert Item(v, sp.dist[v]) !in s.cands;
    }
  }

  lemma StartInv(sp: Space, entry: nat)
    requires SpaceOk(sp) && entry < |sp.dist|
    ensures Inv(sp, entry, Start(sp, entry), {})
  {
    var x := Item(entry, sp.dist[entry]);
    assert PushMin([], x) == [x];
    assert Reachable(sp.adj, entry, entry) by {
      assert IsWalk(sp.adj, [entry], entry, entry);
    }
    hide PushMin, Reachable, AdjOk, Expanded;
    assert Start(sp, entry) == Search({entry}, [x], [x], 0);
  }

  // ---------- Main results ----------

  /** Local-optimality certificate: the results are distinct reachable nodes with their
      distances, at most ten; whatever else was met is no closer than any of them; and
      every out-neighbour of a result is a result or no closer than the worst one. */
  lemma SearchIsLocallyOptimal(sp: Space, entry: nat)
    requires SpaceOk(sp) && entry < |sp.dist|
    ensures var s := SearchFrom(sp, entry);
            && Certified(sp, entry, s)
            && 1 <= |s.res| <= EF
            && (forall i, j :: 0 <= i < j < |s.res| ==> s.res[i].id != s.res[j].id)
            && (forall i :: 0 <= i < |s.res| ==>
                  && s.res[i].id < |sp.dist| && s.res[i].dist == sp.dist[s.res[i].id]
                  && Reachable(sp.adj, entry, s.res[i].id))
            && (forall i, v :: 0 <= i < |s.res| && v in s.seen && !Holds(s.res, sp, v) ==>
                  |s.res| == EF && v < |sp.dist| && s.res[i].dist <= sp.dist[v])
            && (forall i, nb :: 0 <= i < |s.res| && nb in sp.adj[s.res[i].id] && nb >= 0 ==>
                  Holds(s.res, sp, nb) || (|s.res| == EF && nb < |sp.dist| && sp.dist[nb] >= s.res[s.worst].dist))
  {
    StartInv(sp, entry);
    RunCertified(sp, entry, Start(sp, entry));
    var s := SearchFrom(sp, entry);
    forall i, j | 0 <= i < j < |s.res| ensures s.res[i].id != s.res[j].id {
      assert s.res[i] in s.res && s.res[j] in s.res;
    }
    forall i, nb | 0 <= i < |s.res| && nb in sp.adj[s.res[i].id] && nb >= 0
      ensures Holds(s.res, sp, nb) || (|s.res| == EF && nb < |sp.dist| && sp.dist[nb] >= s.res[s.worst].dist)
    {
      var v := s.res[i].id;
      assert Holds(s.res, sp, v);
      assert Expanded(sp.adj, v, s.seen);
      assert nb in s.seen;
    }
  }
}
