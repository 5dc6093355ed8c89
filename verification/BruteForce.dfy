/** The exact five nearest nodes by a linear scan, and the recall measurement that
    compares them with the index (internal/buildindex/buildindex.go). */
module BruteForce {
  import opened Distance
  import opened CandidateHeap
  import opened LayerSearch
  import opened TopFive
  import opened Network
  import opened GraphIndex
  import opened QueryEngine

  /** Found: distinct nodes below n with their distances; the others below n are no closer
      than any of them. */
  ghost predicate Nearest(found: seq<Item>, dist: seq<int>, n: nat) {
    && n <= |dist|
    && (forall k :: 0 <= k < |found| ==> found[k].id < n && found[k].dist == dist[found[k].id])
    && (forall j, k :: 0 <= j < k < |found| ==> found[j].id != found[k].id)
    && (forall k, v :: 0 <= k < |found| && 0 <= v < n && !Has(found, v) ==> found[k].dist <= dist[v])
  }

  ghost predicate Has(found: seq<Item>, v: nat) {
    exists k :: 0 <= k < |found| && found[k].id == v
  }

  lemma NearestAppend(found: seq<Item>, dist: seq<int>, n: nat)
    requires Nearest(found, dist, n) && n < |dist| && |found| == n
    ensures Nearest(found + [Item(n, dist[n])], dist, n + 1)
  {
    var more := found + [Item(n, dist[n])];
    forall v | 0 <= v < n ensures Has(more, v) {
      AllBelow(found, v, n);
      var k :| 0 <= k < |found| && found[k].id == v;
      assert more[k].id == v;
    }
    assert more[n].id == n;
  }

  /** n distinct ids below n are all of them. */
  lemma AllBelow(found: seq<Item>, v: nat, n: nat)
    requires v < n == |found|
    requires forall k :: 0 <= k < |found| ==> found[k].id < n
    requires forall j, k :: 0 <= j < k < |found| ==> found[j].id != found[k].id
    ensures Has(found, v)
  {
    KeptIdsSize(found);
    assert KeptIds(found) <= Ids(n);
    CardinalityMonotone(KeptIds(found), Ids(n));
    assert v in KeptIds(found);
    var x :| x in found && x.id == v;
  }

  lemma NearestReplace(found: seq<Item>, dist: seq<int>, n: nat, worst: nat)
    requires Nearest(found, dist, n) && n < |dist| && worst < |found|
    requires forall k :: 0 <= k < |found| ==> found[k].dist <= found[worst].dist
    requires dist[n] < found[worst].dist
    ensures Nearest(found[worst := Item(n, dist[n])], dist, n + 1)
  {
    var next := found[worst := Item(n, dist[n])];
    assert next[worst].id == n;
    forall j | 0 <= j < |found| && j != worst ensures Has(next, found[j].id) {
      assert next[j].id == found[j].id;
    }
    forall v: nat | v < n + 1 && !Has(next, v) ensures dist[v] >= found[worst].dist {
    }
  }

  lemma NearestSkip(found: seq<Item>, dist: seq<int>, n: nat, worst: nat)
    requires Nearest(found, dist, n) && n < |dist| && worst < |found|
    requires forall k :: 0 <= k < |found| ==> found[k].dist <= found[worst].dist
    requires dist[n] >= found[worst].dist
    ensures Nearest(found, dist, n + 1)
  {
  }

  lemma NearestSwap(found: seq<Item>, dist: seq<int>, n: nat, i: nat, j: nat)
    requires Nearest(found, dist, n) && i < |found| && j < |found|
    ensures Nearest(Swap(found, i, j), dist, n)
  {
    var s := Swap(found, i, j);
    forall v: nat | Has(found, v) ensures Has(s, v) {
      var k :| 0 <= k < |found| && found[k].id == v;
      assert s[if k == i then j else if k == j then i else k].id == v;
    }
    assert s[i] == found[j] && s[j] == found[i] && forall k :: 0 <= k < |s| && k != i && k != j ==> s[k] == found[k];
    hide Swap, Has;
  }

  /** A node not held is no closer than any item held. */
  lemma HeldIsNoFarther(found: seq<Item>, dist: seq<int>, k: nat, v: nat)
    requires Nearest(found, dist, |dist|) && k < |found| && v < |dist| && !Has(found, v)
    ensures found[k].dist <= dist[v]
  {
  }

  lemma NotHeld(found: seq<Item>, ids: seq<nat>, v: nat)
    requires |ids| == |found| && forall k :: 0 <= k < |found| ==> ids[k] == found[k].id
    requires v !in ids
    ensures !Has(found, v)
  {
  }

  lemma SortedNearestIsClosest(found: seq<Item>, dist: seq<int>, ids: seq<nat>)
    requires Nearest(found, dist, |dist|) && |ids| == |found|
    requires forall k :: 0 <= k < |found| ==> ids[k] == found[k].id
    requires forall j, k :: 0 <= j < k < |found| ==> found[j].dist <= found[k].dist
    ensures IsClosest(ids, dist, Ids(|dist|))
  {
    assert forall i :: 0 <= i < |ids| ==> ids[i] < |dist| && dist[ids[i]] == found[i].dist;
    assert forall i, j :: 0 <= i < j < |ids| ==> ids[i] != ids[j];
    hide Nearest, Has;
    forall i, v | 0 <= i < |ids| && v in Ids(|dist|) && v !in ids ensures dist[ids[i]] <= dist[v] {
      NotHeld(found, ids, v);
      HeldIsNoFarther(found, dist, i, v);
    }
  }

  // ---------- The scan ----------

  /** One node scanned: it displaces the first of the farthest five, and only if it is
      strictly closer. */
  ghost function ScanOne(found: seq<Item>, x: Item): (r: seq<Item>)
    ensures |r| == if |found| < 5 then |found| + 1 else |found|
  {
    if |found| < 5 then found + [x]
    else
      var w := WorstFrom(found, 1, 0);
      if x.dist < found[w].dist then found[w := x] else found
  }

  /** The items held after the nodes below n. */
  ghost function Scanned(dist: seq<int>, n: nat): (found: seq<Item>)
    requires n <= |dist|
    ensures |found| == if n < 5 then n else 5
  {
    if n == 0 then [] else ScanOne(Scanned(dist, n - 1), Item(n - 1, dist[n - 1]))
  }

  lemma ScanOneKeepsNearest(found: seq<Item>, dist: seq<int>, n: nat)
    requires Nearest(found, dist, n) && n < |dist| && |found| == if n < 5 then n else 5
    ensures Nearest(ScanOne(found, Item(n, dist[n])), dist, n + 1)
  {
    hide Nearest;
    if |found| < 5 {
      NearestAppend(found, dist, n);
    } else {
      var w := WorstFrom(found, 1, 0);
      if dist[n] < found[w].dist {
        NearestReplace(found, dist, n, w);
      } else {
        NearestSkip(found, dist, n, w);
      }
    }
  }

  lemma {:induction false} ScannedIsNearest(dist: seq<int>, n: nat)
    requires n <= |dist|
    ensures Nearest(Scanned(dist, n), dist, n)
  {
    if n > 0 {
      ScannedIsNearest(dist, n - 1);
      hide Nearest, ScanOne;
      ScanOneKeepsNearest(Scanned(dist, n - 1), dist, n - 1);
    }
  }

  /** The first cnt cells are what the scan below n holds; worstI is the first farthest. */
  ghost predicate Tracked(ids: seq<nat>, dists: seq<int>, cnt: nat, worstD: int, worstI: nat, dist: seq<int>, n: nat) {
    && |ids| == |dists| == 5 && cnt == (if n < 5 then n else 5) && n <= |dist|
    && Pairs(ids, dists, cnt) == Scanned(dist, n)
    && (cnt > 0 ==> worstI < cnt && worstD == dists[worstI] && FirstWorst(Scanned(dist, n), worstI))
    && (n < 5 ==> forall k :: 0 <= k < 5 ==> ids[k] == if k < n then k else 0)
  }

  lemma ScanStep(dist: seq<int>, n: nat, w: nat)
    requires n < |dist| && (n > 0 ==> FirstWorst(Scanned(dist, n), w))
    ensures var found, x := Scanned(dist, n), Item(n, dist[n]);
            && (n < 5 ==> Scanned(dist, n + 1) == found + [x])
            && (n < 5 ==> FirstWorst(found + [x], if n == 0 || x.dist > found[w].dist then n else w))
            && (n >= 5 ==> Scanned(dist, n + 1) == if x.dist < found[w].dist then found[w := x] else found)
  {
    if n >= 5 {
      WorstFromIsFirst(Scanned(dist, n), 1, 0);
    }
  }

  lemma AppendTracked(ids: seq<nat>, dists: seq<int>, cnt: nat, worstD: int, worstI: nat, dist: seq<int>, i: nat)
    requires Tracked(ids, dists, cnt, worstD, worstI, dist, i) && i < |dist| && cnt < 5
    ensures var farther := cnt == 0 || dist[i] > worstD;
            Tracked(ids[cnt := i], dists[cnt := dist[i]], cnt + 1, if farther then dist[i] else worstD,
                    if farther then cnt else worstI, dist, i + 1)
  {
    ScanStep(dist, i, worstI);
    hide FirstWorst, Scanned;
    assert Pairs(ids[cnt := i], dists[cnt := dist[i]], cnt + 1) == Pairs(ids, dists, cnt) + [Item(i, dist[i])];
  }

  lemma ReplaceTracked(ids: seq<nat>, dists: seq<int>, worstD: int, worstI: nat, dist: seq<int>, i: nat, w: nat)
    requires Tracked(ids, dists, 5, worstD, worstI, dist, i) && i < |dist| && dist[i] < worstD
    requires FirstWorst(Pairs(ids[worstI := i], dists[worstI := dist[i]], 5), w)
    ensures Tracked(ids[worstI := i], dists[worstI := dist[i]], 5, dists[worstI := dist[i]][w], w, dist, i + 1)
  {
    ScanStep(dist, i, worstI);
    assert w < 5;
    hide FirstWorst, Scanned;
    assert Pairs(ids[worstI := i], dists[worstI := dist[i]], 5)
           == Pairs(ids, dists, 5)[worstI := Item(i, dist[i])];
  }

  lemma SkipTracked(ids: seq<nat>, dists: seq<int>, worstD: int, worstI: nat, dist: seq<int>, i: nat)
    requires Tracked(ids, dists, 5, worstD, worstI, dist, i) && i < |dist| && dist[i] >= worstD
    ensures Tracked(ids, dists, 5, worstD, worstI, dist, i + 1)
  {
    ScanStep(dist, i, worstI);
    hide FirstWorst, Scanned;
  }

  /** One step of the scan: node i at distance d. */
  method Consider(i: nat, d: int, ids: array<nat>, dists: array<int>, cnt: nat, worstD: int, worstI: nat,
                  ghost dist: seq<int>)
      returns (cnt': nat, worstD': int, worstI': nat)
    requires i < |dist| && d == dist[i] && Tracked(ids[..], dists[..], cnt, worstD, worstI, dist, i)
    modifies ids, dists
    ensures Tracked(ids[..], dists[..], cnt', worstD', worstI', dist, i + 1)
  {
    ghost var ids0, dists0 := ids[..], dists[..];
    assert |ids0| == |dists0| == 5 && cnt <= 5 && (cnt > 0 ==> worstI < cnt);
    cnt', worstD', worstI' := cnt, worstD, worstI;
    hide Tracked;
    if cnt < 5 {
      AppendTracked(ids0, dists0, cnt, worstD, worstI, dist, i);
      ids[cnt] := i;
      dists[cnt] := d;
      assert ids[..] == ids0[cnt := i] && dists[..] == dists0[cnt := d];
      if cnt == 0 || d > worstD {
        worstD' := d;
        worstI' := cnt;
      }
      cnt' := cnt + 1;
    } else if d < worstD {
      ids[worstI] := i;
      dists[worstI] := d;
      assert ids[..] == ids0[worstI := i] && dists[..] == dists0[worstI := d];
      worstD', worstI' := WorstOf5(ids, dists);
      ReplaceTracked(ids0, dists0, worstD, worstI, dist, i, worstI');
    } else {
      SkipTracked(ids0, dists0, worstD, worstI, dist, i);
    }
  }

  /** The first of the farthest five cells. */
  method WorstOf5(ghost ids: array<nat>, dists: array<int>) returns (worstD: int, worstI: nat)
    requires ids.Length == dists.Length == 5
    ensures worstI < 5 && worstD == dists[worstI] && FirstWorst(Pairs(ids[..], dists[..], 5), worstI)
  {
    worstD := dists[0];
    worstI := 0;
    for k := 1 to 5
      invariant worstI < k && worstD == dists[worstI]
      invariant forall j :: 0 <= j < k ==> dists[j] <= worstD
      invariant forall j :: 0 <= j < worstI ==> dists[j] < worstD
    {
      if dists[k] > worstD {
        worstD := dists[k];
        worstI := k;
      }
    }
  }

  /** Rearranging the five cells: ids conserved, nearest-ness kept. */
  ghost predicate Rearranged(ids0: seq<nat>, dists0: seq<int>, ids: seq<nat>, dists: seq<int>, dist: seq<int>, n: nat) {
    && |ids0| == |dists0| == |ids| == |dists| == 5
    && multiset(ids) == multiset(ids0)
    && (Nearest(Pairs(ids0, dists0, 5), dist, n) ==> Nearest(Pairs(ids, dists, 5), dist, n))
  }

  lemma RearrangedSwap(ids0: seq<nat>, dists0: seq<int>, ids: seq<nat>, dists: seq<int>, dist: seq<int>, n: nat, j: nat)
    requires Rearranged(ids0, dists0, ids, dists, dist, n) && 0 < j < 5
    ensures Rearranged(ids0, dists0, ids[j - 1 := ids[j]][j := ids[j - 1]],
                       dists[j - 1 := dists[j]][j := dists[j - 1]], dist, n)
  {
    var found := Pairs(ids, dists, 5);
    assert Pairs(ids[j - 1 := ids[j]][j := ids[j - 1]], dists[j - 1 := dists[j]][j := dists[j - 1]], 5)
           == Swap(found, j - 1, j);
    if Nearest(found, dist, n) {
      NearestSwap(found, dist, n, j - 1, j);
    }
  }

  /** Sorted up to i, except that cell j may be too small. */
  ghost predicate SortedBut(dists: seq<int>, i: int, j: int) {
    && 0 <= j <= i < |dists|
    && forall a, b :: 0 <= a < b <= i && b != j ==> dists[a] <= dists[b]
  }

  lemma SortedButSwap(dists: seq<int>, i: int, j: int)
    requires SortedBut(dists, i, j) && j > 0 && dists[j - 1] > dists[j]
    ensures SortedBut(dists[j - 1 := dists[j]][j := dists[j - 1]], i, j - 1)
  {
  }

  ghost predicate SortedBelow(dists: seq<int>, i: int) {
    i <= |dists| && forall a, b :: 0 <= a < b < i ==> dists[a] <= dists[b]
  }

  lemma SortedButStart(dists: seq<int>, i: nat)
    requires SortedBelow(dists, i) && i < |dists|
    ensures SortedBut(dists, i, i)
  {
  }

  lemma SortedButDone(dists: seq<int>, i: int, j: int)
    requires SortedBut(dists, i, j) && (j == 0 || dists[j - 1] <= dists[j])
    ensures SortedBelow(dists, i + 1)
  {
    forall a, b | 0 <= a < b <= i ensures dists[a] <= dists[b] {
      if b == j && a < j - 1 {
        assert dists[a] <= dists[j - 1];
      }
    }
  }

  method SwapCells(ids: array<nat>, dists: array<int>, j: nat)
    requires ids.Length == 5 && dists.Length == 5 && ids as object != dists as object && 0 < j < 5
    modifies ids, dists
    ensures ids[..] == old(ids[..])[j - 1 := old(ids[j])][j := old(ids[j - 1])]
    ensures dists[..] == old(dists[..])[j - 1 := old(dists[j])][j := old(dists[j - 1])]
  {
    dists[j - 1], dists[j] := dists[j], dists[j - 1];
    ids[j - 1], ids[j] := ids[j], ids[j - 1];
  }

  /** Insertion sort of the five cells by distance, ids moving along. */
  method SortFive(ids: array<nat>, dists: array<int>, ghost dist: seq<int>, ghost n: nat)
    requires ids.Length == 5 && dists.Length == 5 && ids as object != dists as object
    modifies ids, dists
    ensures Rearranged(old(ids[..]), old(dists[..]), ids[..], dists[..], dist, n)
    ensures SortedBelow(dists[..], 5)
  {
    ghost var ids0, dists0 := ids[..], dists[..];
    assert Rearranged(ids0, dists0, ids0, dists0, dist, n) && SortedBelow(dists0, 1);
    hide Rearranged, SortedBelow, SortedBut;
    for i := 1 to 5
      invariant Rearranged(ids0, dists0, ids[..], dists[..], dist, n)
      invariant SortedBelow(dists[..], i)
    {
      var j := i;
      SortedButStart(dists[..], i);
      while j > 0 && dists[j - 1] > dists[j]
        invariant Rearranged(ids0, dists0, ids[..], dists[..], dist, n)
        invariant 0 <= j <= i && SortedBut(dists[..], i, j)
      {
        RearrangedSwap(ids0, dists0, ids[..], dists[..], dist, n, j);
        SortedButSwap(dists[..], i, j);
        SwapCells(ids, dists, j);
        j := j - 1;
      }
      SortedButDone(dists[..], i, j);
    }
  }

  /** The ids below n < 5, padded with id 0. */
  ghost function Padded(n: nat): (r: seq<nat>)
    ensures |r| == 5 && forall k :: 0 <= k < 5 ==> r[k] == if k < n then k else 0
  {
    seq(5, k requires 0 <= k < 5 => if k < n then k else 0)
  }

  /** The ids the scan over all nodes holds, padded with id 0. */
  ghost function ScannedIds(dist: seq<int>): (r: seq<nat>)
    ensures |r| == 5
  {
    var found := Scanned(dist, |dist|);
    seq(5, k requires 0 <= k < 5 => if k < |found| then found[k].id else 0)
  }

  /** The exact five nearest nodes.  With fewer than five nodes, all of them and padding
      with id 0. */
  method BruteTop5(g: Index, q: seq<int>) returns (ids: array<nat>)
    requires g.WellFormed() && |q| == DIM
    ensures fresh(ids) && ids.Length == 5
    ensures g.n >= 5 ==> IsClosest(ids[..], g.Distances(q), Ids(g.n))
    ensures g.n < 5 ==> multiset(ids[..]) == multiset(Padded(g.n))
    ensures multiset(ids[..]) == multiset(ScannedIds(g.Distances(q)))
  {
    ghost var dist := g.Distances(q);
    ids := new nat[5](_ => 0);
    var dists := new int[5](_ => 0);
    var cnt, worstD, worstI := 0, 0, 0;
    for i := 0 to g.n
      invariant Tracked(ids[..], dists[..], cnt, worstD, worstI, dist, i)
    {
      cnt, worstD, worstI := Consider(i, Dist(q, g.VectorAt(i)), ids, dists, cnt, worstD, worstI, dist);
    }
    TrackedIds(ids[..], dists[..], cnt, worstD, worstI, dist);
    hide Tracked, Nearest, Scanned, ScannedIds;
    SortFive(ids, dists, dist, g.n);
    if g.n >= 5 {
      SortedNearestIsClosest(Pairs(ids[..], dists[..], 5), dist, ids[..]);
    }
  }

  lemma TrackedIds(ids: seq<nat>, dists: seq<int>, cnt: nat, worstD: int, worstI: nat, dist: seq<int>)
    requires Tracked(ids, dists, cnt, worstD, worstI, dist, |dist|)
    ensures ids == ScannedIds(dist) && (|dist| < 5 ==> ids == Padded(|dist|))
    ensures |dist| >= 5 ==> Nearest(Pairs(ids, dists, 5), dist, |dist|)
  {
    ScannedIsNearest(dist, |dist|);
    assert forall k :: 0 <= k < cnt ==> Scanned(dist, |dist|)[k] == Pairs(ids, dists, cnt)[k];
    if |dist| < 5 {
      assert forall k :: 0 <= k < |dist| ==> ScannedIds(dist)[k] == ids[k];
    }
  }

  // ---------- A stored vector in its own truth ----------

  /** The earlier nodes at distance 0. */
  ghost function ZerosBefore(dist: seq<int>, v: nat): set<nat>
    requires v <= |dist|
  {
    set u: nat | u < v && dist[u] == 0
  }

  /** Five held items at distance 0 are five earlier nodes. */
  lemma HeldZeros(found: seq<Item>, dist: seq<int>, v: nat)
    requires Nearest(found, dist, v) && forall k :: 0 <= k < |found| ==> found[k].dist == 0
    ensures |ZerosBefore(dist, v)| >= |found|
  {
    KeptIdsSize(found);
    CardinalityMonotone(KeptIds(found), ZerosBefore(dist, v));
  }

  /** While an item farther away is held all earlier nodes at distance 0 are. */
  lemma ZerosAreHeld(found: seq<Item>, dist: seq<int>, v: nat, k: nat)
    requires Nearest(found, dist, v) && k < |found| && found[k].dist > 0
    ensures |ZerosBefore(dist, v)| < |found|
  {
    var zeros := ZerosBefore(dist, v);
    KeptIdsSize(found);
    forall u | u in zeros ensures u in KeptIds(found) - {found[k].id} {
      assert Has(found, u);
      var j :| 0 <= j < |found| && found[j].id == u;
      assert found[j] in found;
    }
    assert found[k] in found;
    CardinalityMonotone(zeros, KeptIds(found) - {found[k].id});
  }

  /** When node v at distance 0 is scanned, all five items held are at distance 0 exactly
      when five earlier nodes are. */
  lemma FiveZeros(dist: seq<int>, v: nat)
    requires v <= |dist| && forall u :: 0 <= u < |dist| ==> dist[u] >= 0
    ensures |Scanned(dist, v)| == 5 && (forall k :: 0 <= k < 5 ==> Scanned(dist, v)[k].dist == 0)
            <==> |ZerosBefore(dist, v)| >= 5
  {
    var found, zeros := Scanned(dist, v), ZerosBefore(dist, v);
    ScannedIsNearest(dist, v);
    CardinalityMonotone(zeros, Ids(v));
    hide Scanned, ZerosBefore;
    if k :| 0 <= k < |found| && found[k].dist != 0 {
      ZerosAreHeld(found, dist, v, k);
    } else {
      HeldZeros(found, dist, v);
    }
  }

  lemma ZeroArrives(dist: seq<int>, v: nat)
    requires v < |dist| && dist[v] == 0 && forall u :: 0 <= u < |dist| ==> dist[u] >= 0
    ensures Has(Scanned(dist, v + 1), v) <==> |ZerosBefore(dist, v)| < 5
  {
    var found, next := Scanned(dist, v), Scanned(dist, v + 1);
    ScannedIsNearest(dist, v);
    FiveZeros(dist, v);
    assert forall k :: 0 <= k < |found| ==> found[k].id != v && found[k].dist >= 0;
    hide Nearest, ZerosBefore;
    if |found| < 5 {
      assert next[v].id == v;
    } else {
      var w := WorstFrom(found, 1, 0);
      if found[w].dist > 0 {
        assert next[w].id == v;
      }
    }
  }

  /** Scanning another node neither drops a node at distance 0 nor brings one back. */
  lemma ZeroStays(found: seq<Item>, dist: seq<int>, n: nat, v: nat)
    requires Nearest(found, dist, n) && v < n < |dist| && dist[v] == 0 && dist[n] >= 0
    ensures Has(ScanOne(found, Item(n, dist[n])), v) <==> Has(found, v)
  {
    var next := ScanOne(found, Item(n, dist[n]));
    if k :| 0 <= k < |found| && found[k].id == v {
      assert next[k].id == v;
    }
    if k :| 0 <= k < |next| && next[k].id == v {
      assert found[k].id == v;
    }
  }

  /** A node at distance 0 is held from when it is scanned on, unless five earlier nodes
      were at distance 0 too. */
  lemma {:induction false} ZeroIsHeld(dist: seq<int>, n: nat, v: nat)
    requires v < n <= |dist| && dist[v] == 0 && forall u :: 0 <= u < |dist| ==> dist[u] >= 0
    ensures Has(Scanned(dist, n), v) <==> |ZerosBefore(dist, v)| < 5
    decreases n
  {
    if n - 1 == v {
      ZeroArrives(dist, v);
    } else {
      ZeroIsHeld(dist, n - 1, v);
      ScannedIsNearest(dist, n - 1);
      hide Has, ScanOne, Nearest, ZerosBefore;
      ZeroStays(Scanned(dist, n - 1), dist, n - 1, v);
    }
  }

  /** The earlier nodes with the same vector. */
  ghost function TwinsBefore(g: Index, v: nat): set<nat>
    requires g.WellFormed() && v < g.n
  {
    set u: nat | u < v && g.VectorAt(u) == g.VectorAt(v)
  }

  /** A stored vector is in its own truth set exactly when fewer than five earlier nodes
      hold the same vector. */
  lemma StoredIsInOwnTruth(g: Index, v: nat)
    requires g.WellFormed() && v < g.n
    ensures v in ScannedIds(g.Distances(AsInts(g.VectorAt(v)))) <==> |TwinsBefore(g, v)| < 5
  {
    var dist := g.Distances(AsInts(g.VectorAt(v)));
    forall u | 0 <= u < g.n ensures dist[u] >= 0 && (dist[u] == 0 <==> g.VectorAt(u) == g.VectorAt(v)) {
      DistanceBound(g.VectorAt(v), g.VectorAt(u));
      ZeroDistance(g.VectorAt(v), g.VectorAt(u));
    }
    assert TwinsBefore(g, v) == ZerosBefore(dist, v);
    ZeroIsHeld(dist, g.n, v);
    IdsOfScan(dist, v);
  }

  lemma IdsOfScan(dist: seq<int>, v: nat)
    requires v < |dist|
    ensures v in ScannedIds(dist) <==> Has(Scanned(dist, |dist|), v)
  {
    var found, ids := Scanned(dist, |dist|), ScannedIds(dist);
    ScannedIsNearest(dist, |dist|);
    hide Scanned;
    if k :| 0 <= k < |found| && found[k].id == v {
      assert ids[k] == v;
    }
    if |dist| < 5 {
      AllBelow(found, v, |dist|);
    } else if k :| 0 <= k < 5 && ids[k] == v {
      assert found[k].id == v;
    }
  }
}
