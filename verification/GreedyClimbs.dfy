/** What greedy hill climbing does (greedyDescendUpper in internal/hnsw/query.go and
    greedyDescend in internal/hnsw/hnsw.go), told by the nodes it passes: each the first of
    the nearest neighbours of the one before, and strictly closer, until there is none. */
module GreedyClimbs {
  import opened LayerSearch

  /** No neighbour of r is strictly closer to the query. */
  ghost predicate LocalMinimum(sp: Space, r: nat)
    requires SpaceOk(sp)
  {
    r < |sp.adj| && forall j :: 0 <= j < |sp.adj[r]| && sp.adj[r][j] >= 0 ==> sp.dist[sp.adj[r][j]] >= sp.dist[r]
  }

  /** Slot i of the row is the first of those nearest to the query. */
  ghost predicate FirstNearest(sp: Space, row: seq<int>, i: nat)
    requires SpaceOk(sp) && RowOk(row, |sp.dist|)
  {
    && i < |row| && row[i] >= 0
    && forall j :: 0 <= j < |row| && row[j] >= 0 ==>
         if j < i then sp.dist[row[i]] < sp.dist[row[j]] else sp.dist[row[i]] <= sp.dist[row[j]]
  }

  /** From cur one moves to the first of its nearest neighbours, which is closer. */
  ghost predicate ClimbStep(sp: Space, cur: nat, next: nat)
    requires SpaceOk(sp)
  {
    && cur < |sp.dist| && next < |sp.dist| && sp.dist[next] < sp.dist[cur]
    && exists i: nat :: FirstNearest(sp, sp.adj[cur], i) && sp.adj[cur][i] == next
  }

  /** The nodes passed on the way from a to b, where no neighbour is closer. */
  ghost predicate GreedyPath(sp: Space, path: seq<nat>, a: nat, b: nat)
    requires SpaceOk(sp)
  {
    && |path| > 0 && path[0] == a && path[|path| - 1] == b && LocalMinimum(sp, b)
    && forall i :: 0 <= i < |path| - 1 ==> ClimbStep(sp, path[i], path[i + 1])
  }

  ghost predicate ClimbsTo(sp: Space, a: nat, b: nat)
    requires SpaceOk(sp)
  {
    exists path :: GreedyPath(sp, path, a, b)
  }

  // ---------- One layer ----------

  /** Where a pass over a row ends when it improves. */
  lemma {:induction false} ScanIsFirstNearest(sp: Space, nbs: seq<int>, cur: nat) returns (i: nat)
    requires SpaceOk(sp) && cur < |sp.dist| && RowOk(nbs, |sp.dist|) && sp.dist[Scan(sp, nbs, cur)] < sp.dist[cur]
    ensures FirstNearest(sp, nbs, i) && nbs[i] == Scan(sp, nbs, cur)
    decreases |nbs|
  {
    var moves := nbs[0] >= 0 && sp.dist[nbs[0]] < sp.dist[cur];
    var next := if moves then nbs[0] else cur;
    assert RowOk(nbs[1..], |sp.dist|);
    var r := Scan(sp, nbs[1..], next);
    assert r == Scan(sp, nbs, cur);
    hide Scan;
    if sp.dist[r] < sp.dist[next] {
      i := ScanIsFirstNearest(sp, nbs[1..], next);
      FirstNearestOn(sp, nbs, i);
      i := i + 1;
    } else {
      i := 0;
      assert forall j :: 1 <= j < |nbs| ==> nbs[j] == nbs[1..][j - 1];
    }
  }

  /** The first of the nearest in the tail, when the head is empty or farther. */
  lemma FirstNearestOn(sp: Space, nbs: seq<int>, i: nat)
    requires SpaceOk(sp) && RowOk(nbs, |sp.dist|) && |nbs| > 0 && RowOk(nbs[1..], |sp.dist|)
    requires FirstNearest(sp, nbs[1..], i) && (nbs[0] >= 0 ==> sp.dist[nbs[1..][i]] < sp.dist[nbs[0]])
    ensures FirstNearest(sp, nbs, i + 1) && nbs[i + 1] == nbs[1..][i]
  {
    assert forall j :: 1 <= j < |nbs| ==> nbs[j] == nbs[1..][j - 1];
  }

  /** Hill climbing follows a greedy path. */
  lemma {:induction false} DescendClimbs(sp: Space, cur: nat) returns (path: seq<nat>)
    requires SpaceOk(sp) && cur < |sp.dist|
    ensures GreedyPath(sp, path, cur, Descend(sp, cur))
    decreases |Closer(sp, cur)|
  {
    var next := Scan(sp, sp.adj[cur], cur);
    if sp.dist[next] < sp.dist[cur] {
      var i := ScanIsFirstNearest(sp, sp.adj[cur], cur);
      CloserShrinks(sp, cur, next);
      var rest := DescendClimbs(sp, next);
      path := [cur] + rest;
      assert ClimbStep(sp, cur, next);
      assert forall k :: 0 < k < |path| ==> path[k] == rest[k - 1];
    } else {
      path := [cur];
    }
  }

  lemma StepIsUnique(sp: Space, cur: nat, a: nat, b: nat)
    requires SpaceOk(sp) && ClimbStep(sp, cur, a) && ClimbStep(sp, cur, b)
    ensures a == b
  {
    var row := sp.adj[cur];
    var i: nat :| FirstNearest(sp, row, i) && row[i] == a;
    var k: nat :| FirstNearest(sp, row, k) && row[k] == b;
    assert i == k;
  }

  lemma NoStepFromMinimum(sp: Space, cur: nat, next: nat)
    requires SpaceOk(sp) && LocalMinimum(sp, cur)
    ensures !ClimbStep(sp, cur, next)
  {
  }

  /** Two greedy paths from one node end at the same node. */
  lemma {:induction false} PathIsUnique(sp: Space, p: seq<nat>, q: seq<nat>, a: nat, b: nat, c: nat)
    requires SpaceOk(sp) && GreedyPath(sp, p, a, b) && GreedyPath(sp, q, a, c)
    ensures b == c
    decreases |p|
  {
    if |p| > 1 && |q| > 1 {
      assert ClimbStep(sp, p[0], p[1]) && ClimbStep(sp, q[0], q[1]);
      StepIsUnique(sp, a, p[1], q[1]);
      PathIsUnique(sp, p[1..], q[1..], p[1], b, c);
    } else if |p| > 1 {
      NoStepFromMinimum(sp, a, p[1]);
    } else if |q| > 1 {
      NoStepFromMinimum(sp, a, q[1]);
    }
  }

  /** Hill climbing from cur ends at r exactly when a greedy path leads from cur to r. */
  lemma DescendIsClimb(sp: Space, cur: nat, r: nat)
    requires SpaceOk(sp) && cur < |sp.dist|
    ensures Descend(sp, cur) == r <==> ClimbsTo(sp, cur, r)
  {
    var p := DescendClimbs(sp, cur);
    if ClimbsTo(sp, cur, r) {
      var q :| GreedyPath(sp, q, cur, r);
      PathIsUnique(sp, p, q, cur, Descend(sp, cur), r);
    }
  }

  /** A greedy path never gets farther from the query. */
  lemma {:induction false} PathGetsCloser(sp: Space, p: seq<nat>, a: nat, b: nat)
    requires SpaceOk(sp) && GreedyPath(sp, p, a, b)
    ensures a < |sp.dist| && b < |sp.dist| && sp.dist[b] <= sp.dist[a] && LocalMinimum(sp, b)
    decreases |p|
  {
    if |p| > 1 {
      assert ClimbStep(sp, p[0], p[1]);
      PathGetsCloser(sp, p[1..], p[1], b);
    }
  }

  // ---------- Layer after layer ----------

  ghost predicate LayersOk(adj: seq<seq<seq<int>>>, n: nat) {
    forall L :: 0 <= L < |adj| ==> |adj[L]| == n && AdjOk(adj[L])
  }

  /** The descent through layer top - i leads from its i-th stop to the next. */
  ghost predicate ClimbedOn(adj: seq<seq<seq<int>>>, dist: seq<int>, top: nat, stops: seq<nat>, i: nat)
    requires LayersOk(adj, |dist|) && i <= top < |adj| && i + 1 < |stops|
  {
    ClimbsTo(Space(adj[top - i], dist), stops[i], stops[i + 1])
  }

  /** The nodes where the descent through layers top, top - 1, ..., stop + 1 starts and
      where it leaves each of them. */
  ghost predicate Descent(adj: seq<seq<seq<int>>>, dist: seq<int>, top: nat, stop: nat, stops: seq<nat>) {
    && LayersOk(adj, |dist|) && stop <= top < |adj| && |stops| == top - stop + 1
    && forall i :: 0 <= i < top - stop ==> ClimbedOn(adj, dist, top, stops, i)
  }

  /** The descent leaves layer top - i at a node without a closer neighbour there, no
      farther than where it came in. */
  ghost predicate LeavesAtMinimum(adj: seq<seq<seq<int>>>, dist: seq<int>, top: nat, stops: seq<nat>, i: nat)
    requires LayersOk(adj, |dist|) && i <= top < |adj| && i + 1 < |stops|
  {
    && stops[i] < |dist| && stops[i + 1] < |dist| && dist[stops[i + 1]] <= dist[stops[i]]
    && LocalMinimum(Space(adj[top - i], dist), stops[i + 1])
  }

  lemma DescentIsClimbing(adj: seq<seq<seq<int>>>, dist: seq<int>, top: nat, stop: nat, stops: seq<nat>, i: nat)
    requires Descent(adj, dist, top, stop, stops) && i < top - stop
    ensures LeavesAtMinimum(adj, dist, top, stops, i)
  {
    var sp := Space(adj[top - i], dist);
    assert ClimbedOn(adj, dist, top, stops, i);
    var path :| GreedyPath(sp, path, stops[i], stops[i + 1]);
    PathGetsCloser(sp, path, stops[i], stops[i + 1]);
  }

  /** The descent is determined by where it starts. */
  lemma {:induction false} DescentIsUnique(adj: seq<seq<seq<int>>>, dist: seq<int>, top: nat, stop: nat,
                                           x: seq<nat>, y: seq<nat>, i: nat)
    requires Descent(adj, dist, top, stop, x) && Descent(adj, dist, top, stop, y) && x[0] == y[0] && i <= top - stop
    ensures x[i] == y[i]
    decreases i
  {
    if i > 0 {
      DescentIsUnique(adj, dist, top, stop, x, y, i - 1);
      var sp := Space(adj[top - (i - 1)], dist);
      assert ClimbedOn(adj, dist, top, x, i - 1) && ClimbedOn(adj, dist, top, y, i - 1);
      var p :| GreedyPath(sp, p, x[i - 1], x[i]);
      var q :| GreedyPath(sp, q, y[i - 1], y[i]);
      PathIsUnique(sp, p, q, x[i - 1], x[i], y[i]);
    }
  }
}
