/** Selection of the five closest results (top5FromResults in internal/hnsw/query.go) and
    the meaning it has: the closest nodes of a pool, by non-decreasing distance. */
module TopFive {
  import opened CandidateHeap
  import opened LayerSearch

  /** Index of the first closest result not taken, from index i on, where `best` is the
      one found before i, or -1. */
  ghost function BestFrom(res: seq<Item>, taken: set<nat>, i: nat, best: int): (b: int)
    requires i <= |res| && best < i
    decreases |res| - i
  {
    if i == |res| then best
    else
      BestFrom(res, taken, i + 1,
               if i !in taken && (best < 0 || res[i].dist < res[best].dist) then i else best)
  }

  ghost function Best(res: seq<Item>, taken: set<nat>): int {
    BestFrom(res, taken, 0, -1)
  }

  /** Indices picked by up to k rounds of selection. */
  ghost function Order(res: seq<Item>, taken: set<nat>, k: nat): (r: seq<nat>)
    ensures |r| <= k
    ensures forall i :: 0 <= i < |r| ==> r[i] < |res|
    decreases k
  {
    if k == 0 || Best(res, taken) < 0 then []
    else
      BestIsClosest(res, taken);
      [Best(res, taken)] + Order(res, taken + {Best(res, taken)}, k - 1)
  }

  /** The five outputs; positions without a result hold id 0. */
  ghost function Top5(res: seq<Item>): (out: seq<nat>)
    ensures |out| == 5
  {
    var order := Order(res, {}, 5);
    seq(5, i requires 0 <= i < 5 => if i < |order| then res[order[i]].id else 0)
  }

  // ---------- Meaning of one round ----------

  /** Result i comes before result k: closer, or as close and in an earlier cell. */
  ghost predicate Before(res: seq<Item>, i: nat, k: nat)
    requires i < |res| && k < |res|
  {
    res[i].dist < res[k].dist || (res[i].dist == res[k].dist && i < k)
  }

  ghost predicate IsBest(res: seq<Item>, taken: set<nat>, upTo: nat, b: int)
    requires upTo <= |res|
  {
    if b < 0 then
      b == -1 && forall i :: 0 <= i < upTo ==> i in taken
    else
      b < upTo && b !in taken && forall i :: 0 <= i < upTo && i !in taken && i != b ==> Before(res, b, i)
  }

  lemma {:induction false} BestFromIsClosest(res: seq<Item>, taken: set<nat>, i: nat, best: int)
    requires i <= |res| && best < i && IsBest(res, taken, i, best)
    ensures IsBest(res, taken, |res|, BestFrom(res, taken, i, best))
    decreases |res| - i
  {
    if i < |res| {
      var b := if i !in taken && (best < 0 || res[i].dist < res[best].dist) then i else best;
      assert IsBest(res, taken, i + 1, b);
      BestFromIsClosest(res, taken, i + 1, b);
    }
  }

  lemma BestIsClosest(res: seq<Item>, taken: set<nat>)
    ensures IsBest(res, taken, |res|, Best(res, taken))
  {
    BestFromIsClosest(res, taken, 0, -1);
  }

  /** Distinct untaken indices by distance, equally close ones by cell, and before all
      untaken indices left out. */
  ghost predicate Selection(res: seq<Item>, taken: set<nat>, r: seq<nat>) {
    && (forall i :: 0 <= i < |r| ==> r[i] < |res| && r[i] !in taken)
    && (forall i, j :: 0 <= i < j < |r| ==> r[i] != r[j])
    && (forall i, j :: 0 <= i < j < |r| ==> Before(res, r[i], r[j]))
    && (forall i, v :: 0 <= i < |r| && 0 <= v < |res| && v !in taken && v !in r ==> Before(res, r[i], v))
  }

  lemma SelectionPrepend(res: seq<Item>, taken: set<nat>, b: nat, rest: seq<nat>)
    requires IsBest(res, taken, |res|, b) && Selection(res, taken + {b}, rest)
    ensures Selection(res, taken, [b] + rest)
  {
    var r := [b] + rest;
    forall i, v | 0 <= i < |r| && 0 <= v < |res| && v !in taken && v !in r
      ensures Before(res, r[i], v)
    {
      assert v !in rest && v != b by {
        assert r[0] == b && forall x :: x in rest ==> x in r;
      }
    }
  }

  /** The rounds of selection pick a closest result each time, and end early only when
      every result has been taken. */
  lemma {:induction false} OrderIsSelection(res: seq<Item>, taken: set<nat>, k: nat)
    requires forall t :: t in taken ==> t < |res|
    ensures Selection(res, taken, Order(res, taken, k))
    ensures |Order(res, taken, k)| == if |res| - |taken| < k then |res| - |taken| else k
    decreases k
  {
    var b := Best(res, taken);
    BestIsClosest(res, taken);
    CardinalityMonotone(taken, Ids(|res|));
    if b < 0 {
      assert taken == Ids(|res|);
      assert Order(res, taken, k) == [] && Selection(res, taken, []);
    } else if k > 0 {
      assert b < |res| && b !in taken;
      assert |taken + {b}| == |taken| + 1;
      assert Order(res, taken, k) == [b as nat] + Order(res, taken + {b}, k - 1);
      hide Selection, IsBest, Best, Order;
      OrderIsSelection(res, taken + {b}, k - 1);
      SelectionPrepend(res, taken, b, Order(res, taken + {b}, k - 1));
    }
  }

  // ---------- The closest nodes of a pool ----------

  /** ids are |ids| distinct nodes of the pool by non-decreasing distance, and no other
      node of the pool is closer than any of them. */
  ghost predicate IsClosest(ids: seq<nat>, dist: seq<int>, pool: set<nat>) {
    && (forall v :: v in pool ==> v < |dist|)
    && (forall i :: 0 <= i < |ids| ==> ids[i] in pool)
    && (forall i, j :: 0 <= i < j < |ids| ==> ids[i] != ids[j])
    && (forall i, j :: 0 <= i < j < |ids| ==> dist[ids[i]] <= dist[ids[j]])
    && (forall i, v :: 0 <= i < |ids| && v in pool && v !in ids ==> dist[ids[i]] <= dist[v])
  }

  ghost function Prefix(ids: seq<nat>, k: nat): (r: set<nat>)
    requires k <= |ids|
    ensures forall v :: v in r <==> exists i :: 0 <= i < k && ids[i] == v
  {
    set i | 0 <= i < k :: ids[i]
  }

  lemma {:induction false} PrefixSize(ids: seq<nat>, k: nat)
    requires k <= |ids|
    ensures |Prefix(ids, k)| <= k
    ensures (forall i, j :: 0 <= i < j < k ==> ids[i] != ids[j]) ==> |Prefix(ids, k)| == k
    decreases k
  {
    if k > 0 {
      PrefixSize(ids, k - 1);
      assert Prefix(ids, k) == Prefix(ids, k - 1) + {ids[k - 1]};
    } else {
      assert Prefix(ids, 0) == {};
    }
  }

  lemma CloserComesEarlier(a: seq<nat>, dist: seq<int>, pool: set<nat>, k: nat, v: nat)
    requires IsClosest(a, dist, pool) && k < |a| && v in pool && dist[v] < dist[a[k]]
    ensures v in Prefix(a, k)
  {
    var j :| 0 <= j < |a| && a[j] == v;
    assert j < k;
  }

  lemma ClosestNoFarther(a: seq<nat>, b: seq<nat>, dist: seq<int>, pool: set<nat>, k: nat)
    requires IsClosest(a, dist, pool) && IsClosest(b, dist, pool) && |a| == |b| && k < |a|
    ensures dist[a[k]] <= dist[b[k]]
  {
    if dist[b[k]] < dist[a[k]] {
      // the k+1 nodes b[..k+1] would all be among the k nodes a[..k]
      forall v | v in Prefix(b, k + 1) ensures v in Prefix(a, k) {
        var i :| 0 <= i < k + 1 && b[i] == v;
        CloserComesEarlier(a, dist, pool, k, v);
      }
      PrefixSize(b, k + 1);
      PrefixSize(a, k);
      CardinalityMonotone(Prefix(b, k + 1), Prefix(a, k));
      assert false;
    }
  }

  /** Two selections of the closest nodes of the same pool have the same distances. */
  lemma ClosestDistancesUnique(a: seq<nat>, b: seq<nat>, dist: seq<int>, pool: set<nat>)
    requires IsClosest(a, dist, pool) && IsClosest(b, dist, pool) && |a| == |b|
    ensures forall k :: 0 <= k < |a| ==> dist[a[k]] == dist[b[k]]
  {
    forall k | 0 <= k < |a| ensures dist[a[k]] == dist[b[k]] {
      ClosestNoFarther(a, b, dist, pool, k);
      ClosestNoFarther(b, a, dist, pool, k);
    }
  }
}
