/** The heuristic neighbour selection of the builder (selectNeighborsHeuristic in
    internal/hnsw/hnsw.go), which writes its choice over the head of its input. */
module NeighborSelection {
  import opened Distance
  import opened CandidateHeap
  import opened GraphIndex

  /** Distance between two stored vectors. */
  function NodeDist(g: Index, a: nat, b: nat): int
    requires |g.vectors| == g.n * DIM && a < g.n && b < g.n
  {
    Dist(g.VectorAt(a), g.VectorAt(b))
  }

  ghost predicate Usable(g: Index, s: seq<Item>) {
    |g.vectors| == g.n * DIM && forall i :: 0 <= i < |s| ==> s[i].id < g.n
  }

  /** Candidate c is no closer to item k than to the query. */
  predicate Clears(g: Index, c: Item, k: Item)
    requires |g.vectors| == g.n * DIM && c.id < g.n && k.id < g.n
  {
    NodeDist(g, c.id, k.id) >= c.dist
  }

  /** Candidate i clears every candidate kept so far. */
  ghost predicate Admitted(g: Index, s: seq<Item>, kept: seq<nat>, i: nat)
    requires Usable(g, s) && i < |s| && forall k :: 0 <= k < |kept| ==> kept[k] < |s|
  {
    forall k :: 0 <= k < |kept| ==> Clears(g, s[i], s[kept[k]])
  }

  /** Positions kept when candidates i, i+1, ... are considered in turn. */
  ghost function KeepFrom(g: Index, s: seq<Item>, i: nat, m: nat, kept: seq<nat>): (r: seq<nat>)
    requires Usable(g, s) && i <= |s| && forall k :: 0 <= k < |kept| ==> kept[k] < i
    ensures forall k :: 0 <= k < |r| ==> r[k] < |s|
    decreases |s| - i
  {
    if i == |s| || |kept| >= m then kept
    else KeepFrom(g, s, i + 1, m, if Admitted(g, s, kept, i) then kept + [i] else kept)
  }

  ghost function Picks(s: seq<Item>, idx: seq<nat>): (r: seq<Item>)
    requires forall k :: 0 <= k < |idx| ==> idx[k] < |s|
    ensures |r| == |idx| && forall k :: 0 <= k < |idx| ==> r[k] == s[idx[k]]
  {
    seq(|idx|, k requires 0 <= k < |idx| => s[idx[k]])
  }

  /** The selection from candidates sorted by distance: all of them when they fit. */
  ghost function Select(g: Index, s: seq<Item>, m: nat): (r: seq<Item>)
    requires Usable(g, s)
  {
    if |s| <= m then s else Picks(s, KeepFrom(g, s, 0, m, []))
  }

  // ---------- What the selection is ----------

  ghost predicate Increasing(idx: seq<nat>) {
    forall j, k :: 0 <= j < k < |idx| ==> idx[j] < idx[k]
  }

  /** Position i was passed over for a reason: an earlier kept item is closer to it than
      the query is, or m items had been kept before it. */
  ghost predicate Excused(g: Index, s: seq<Item>, m: nat, idx: seq<nat>, i: nat)
    requires Usable(g, s) && i < |s| && forall k :: 0 <= k < |idx| ==> idx[k] < |s|
  {
    || (exists k :: 0 <= k < |idx| && idx[k] < i && !Clears(g, s[i], s[idx[k]]))
    || (|idx| == m && forall k :: 0 <= k < |idx| ==> idx[k] < i)
  }

  /** The positions kept among the first upTo candidates. */
  ghost predicate Diverse(g: Index, s: seq<Item>, m: nat, idx: seq<nat>, upTo: nat)
    requires Usable(g, s) && upTo <= |s|
  {
    && |idx| <= m && Increasing(idx) && (forall k :: 0 <= k < |idx| ==> idx[k] < upTo)
    && (m > 0 && upTo > 0 ==> |idx| > 0 && idx[0] == 0)
    && (forall j, k :: 0 <= j < k < |idx| ==> Clears(g, s[idx[k]], s[idx[j]]))
    && (forall i :: 0 <= i < upTo && i !in idx ==> Excused(g, s, m, idx, i))
  }

  lemma ExcusedStays(g: Index, s: seq<Item>, m: nat, idx: seq<nat>, i: nat, x: nat)
    requires Usable(g, s) && i < |s| && x < |s| && (forall k :: 0 <= k < |idx| ==> idx[k] < |s|)
    requires Excused(g, s, m, idx, x) && |idx| < m
    ensures Excused(g, s, m, idx + [i], x)
  {
    var k :| 0 <= k < |idx| && idx[k] < x && !Clears(g, s[x], s[idx[k]]);
    assert (idx + [i])[k] == idx[k];
  }

  lemma ConsiderAdmitted(g: Index, s: seq<Item>, m: nat, idx: seq<nat>, i: nat)
    requires Usable(g, s) && i < |s| && Diverse(g, s, m, idx, i) && |idx| < m && Admitted(g, s, idx, i)
    ensures Diverse(g, s, m, idx + [i], i + 1)
  {
    var more := idx + [i];
    forall x | 0 <= x < i + 1 && x !in more ensures Excused(g, s, m, more, x) {
      assert more[|idx|] == i && forall y :: y in idx ==> y in more;
      ExcusedStays(g, s, m, idx, i, x);
    }
    forall j, k | 0 <= j < k < |more| ensures Clears(g, s[more[k]], s[more[j]]) {
      assert more[j] == idx[j];
    }
  }

  lemma ConsiderRejected(g: Index, s: seq<Item>, m: nat, idx: seq<nat>, i: nat)
    requires Usable(g, s) && i < |s| && Diverse(g, s, m, idx, i) && |idx| < m && !Admitted(g, s, idx, i)
    ensures Diverse(g, s, m, idx, i + 1)
  {
    hide Clears, Increasing;
    var k :| 0 <= k < |idx| && !Clears(g, s[i], s[idx[k]]);
    forall x | 0 <= x < i + 1 && x !in idx ensures Excused(g, s, m, idx, x) {
      if x < i {
        assert Excused(g, s, m, idx, x);
      }
    }
  }

  lemma ConsiderOne(g: Index, s: seq<Item>, m: nat, idx: seq<nat>, i: nat)
    requires Usable(g, s) && i < |s| && Diverse(g, s, m, idx, i) && |idx| < m
    ensures forall k :: 0 <= k < |idx| ==> idx[k] < i
    ensures Diverse(g, s, m, if Admitted(g, s, idx, i) then idx + [i] else idx, i + 1)
  {
    assert forall k :: 0 <= k < |idx| ==> idx[k] < i;
    hide Diverse, Admitted;
    if Admitted(g, s, idx, i) {
      ConsiderAdmitted(g, s, m, idx, i);
    } else {
      ConsiderRejected(g, s, m, idx, i);
    }
  }

  lemma PassRest(g: Index, s: seq<Item>, m: nat, idx: seq<nat>, i: nat)
    requires Usable(g, s) && i <= |s| && Diverse(g, s, m, idx, i) && |idx| >= m
    ensures Diverse(g, s, m, idx, |s|)
  {
  }

  lemma {:induction false} KeepIsDiverse(g: Index, s: seq<Item>, i: nat, m: nat, kept: seq<nat>)
    requires Usable(g, s) && i <= |s| && Diverse(g, s, m, kept, i)
    ensures Diverse(g, s, m, KeepFrom(g, s, i, m, kept), |s|)
    decreases |s| - i
  {
    if i < |s| && |kept| < m {
      ConsiderOne(g, s, m, kept, i);
      KeepIsDiverse(g, s, i + 1, m, if Admitted(g, s, kept, i) then kept + [i] else kept);
    } else if i < |s| {
      PassRest(g, s, m, kept, i);
    }
  }

  /** The selection is a sub-list of the sorted candidates, of at most m of them, led by a
      closest one; among more than m candidates each later one kept is at least as far from
      every earlier one kept as from the query, and each one dropped has its reason. */
  lemma SelectionIsDiverse(g: Index, s: seq<Item>, m: nat) returns (idx: seq<nat>)
    requires Usable(g, s)
    ensures (forall k :: 0 <= k < |idx| ==> idx[k] < |s|) && Increasing(idx)
    ensures Select(g, s, m) == Picks(s, idx) && |idx| <= m
    ensures |s| > 0 && m > 0 ==> |idx| > 0 && idx[0] == 0
    ensures |s| > m ==> Diverse(g, s, m, idx, |s|)
    ensures |s| <= m ==> Select(g, s, m) == s
  {
    if |s| <= m {
      idx := seq(|s|, k requires 0 <= k < |s| => k);
    } else {
      idx := KeepFrom(g, s, 0, m, []);
      KeepIsDiverse(g, s, 0, m, []);
    }
  }

  // ---------- Which candidates are kept ----------

  /** The positions kept among the first p candidates. */
  ghost function KeptOf(g: Index, s: seq<Item>, m: nat, p: nat): (r: seq<nat>)
    requires Usable(g, s) && p <= |s|
    ensures forall k :: 0 <= k < |r| ==> r[k] < p
  {
    if p == 0 then []
    else
      var before := KeptOf(g, s, m, p - 1);
      if Keeps(g, s, m, before, p - 1) then before + [p - 1] else before
  }

  /** There is room for candidate i and it clears all those kept before it. */
  ghost predicate Keeps(g: Index, s: seq<Item>, m: nat, before: seq<nat>, i: nat)
    requires Usable(g, s) && i < |s| && forall k :: 0 <= k < |before| ==> before[k] < |s|
  {
    |before| < m && Admitted(g, s, before, i)
  }

  lemma KeptStep(g: Index, s: seq<Item>, m: nat, p: nat, before: seq<nat>)
    requires Usable(g, s) && p < |s| && KeptOf(g, s, m, p) == before
    ensures KeptOf(g, s, m, p + 1) == if Keeps(g, s, m, before, p) then before + [p] else before
  {
  }

  lemma KeepStep(g: Index, s: seq<Item>, i: nat, m: nat, kept: seq<nat>)
    requires Usable(g, s) && i <= |s| && forall k :: 0 <= k < |kept| ==> kept[k] < i
    ensures KeepFrom(g, s, i, m, kept) ==
              if i == |s| || |kept| >= m then kept
              else KeepFrom(g, s, i + 1, m, if Admitted(g, s, kept, i) then kept + [i] else kept)
  {
  }

  lemma {:induction false} KeepFromKept(g: Index, s: seq<Item>, m: nat, i: nat)
    requires Usable(g, s) && i <= |s|
    ensures KeepFrom(g, s, i, m, KeptOf(g, s, m, i)) == KeptOf(g, s, m, |s|)
    decreases |s| - i
  {
    hide KeepFrom, KeptOf, Admitted;
    var before := KeptOf(g, s, m, i);
    KeepStep(g, s, i, m, before);
    if i < |s| {
      KeptStep(g, s, m, i, before);
      if |before| >= m {
        NoMoreKept(g, s, m, i, |s|);
      } else {
        KeepFromKept(g, s, m, i + 1);
      }
    }
  }

  lemma SelectIsKept(g: Index, s: seq<Item>, m: nat)
    requires Usable(g, s) && m < |s|
    ensures Select(g, s, m) == Picks(s, KeptOf(g, s, m, |s|))
  {
    KeepFromKept(g, s, m, 0);
  }

  lemma {:induction false} NoMoreKept(g: Index, s: seq<Item>, m: nat, i: nat, p: nat)
    requires Usable(g, s) && i <= p <= |s| && |KeptOf(g, s, m, i)| >= m
    ensures KeptOf(g, s, m, p) == KeptOf(g, s, m, i)
    decreases p
  {
    if i < p {
      NoMoreKept(g, s, m, i, p - 1);
    }
  }

  /** Position p is kept exactly when fewer than m of the earlier candidates were kept and
      it clears all of those. */
  lemma {:induction false} KeptExactlyWhen(g: Index, s: seq<Item>, m: nat, p: nat, n: nat)
    requires Usable(g, s) && p < n <= |s|
    ensures p in KeptOf(g, s, m, n) <==> Keeps(g, s, m, KeptOf(g, s, m, p), p)
    decreases n
  {
    hide Keeps;
    if p < n - 1 {
      KeptExactlyWhen(g, s, m, p, n - 1);
    }
  }

  /** All candidates but j clear each other, and j is the last one or is not clear of some
      earlier one. */
  ghost predicate OneOut(g: Index, s: seq<Item>, j: nat)
    requires Usable(g, s)
  {
    && j < |s|
    && (forall a, b :: 0 <= a < b < |s| && a != j && b != j ==> Clears(g, s[b], s[a]))
    && (j == |s| - 1 || exists k :: 0 <= k < j && !Clears(g, s[j], s[k]))
  }

  /** The positions below p except j. */
  ghost function AllBut(j: nat, p: nat): (r: seq<nat>)
    ensures |r| == (if p <= j then p else p - 1) && forall k :: 0 <= k < |r| ==> r[k] == if k < j then k else k + 1
  {
    seq(if p <= j then p else p - 1, k requires k >= 0 => if k < j then k else k + 1)
  }

  lemma {:induction false} KeptAllBut(g: Index, s: seq<Item>, m: nat, j: nat, p: nat)
    requires Usable(g, s) && |s| == m + 1 && p <= |s| && OneOut(g, s, j)
    ensures KeptOf(g, s, m, p) == AllBut(j, p)
    decreases p
  {
    hide Clears;
    if p > 0 {
      KeptAllBut(g, s, m, j, p - 1);
      var before := AllBut(j, p - 1);
      if p - 1 == j {
        assert j < m ==> !Admitted(g, s, before, j) by {
          if j < m {
            var k :| 0 <= k < j && !Clears(g, s[j], s[k]);
            assert before[k] == k;
          }
        }
        assert AllBut(j, p) == before;
      } else {
        assert Admitted(g, s, before, p - 1);
        assert AllBut(j, p) == before + [p - 1];
      }
    }
  }

  /** m increasing positions below m + 1 leave out exactly one. */
  lemma {:induction false} LeavesOneOut(idx: seq<nat>, m: nat) returns (j: nat)
    requires Increasing(idx) && |idx| == m && forall k :: 0 <= k < m ==> idx[k] <= m
    ensures j <= m && forall k :: 0 <= k < m ==> idx[k] == if k < j then k else k + 1
    decreases m
  {
    if m == 0 || idx[m - 1] == m - 1 {
      j := m;
      forall k | 0 <= k < m ensures idx[k] == k {
        AtLeastItsPlace(idx, k);
        AtMostItsPlace(idx, k, m - 1);
      }
    } else {
      AtLeastItsPlace(idx, m - 1);
      var front := idx[..m - 1];
      assert forall k :: 0 <= k < m - 1 ==> front[k] < idx[m - 1];
      j := LeavesOneOut(front, m - 1);
    }
  }

  lemma {:induction false} AtLeastItsPlace(idx: seq<nat>, k: nat)
    requires Increasing(idx) && k < |idx|
    ensures idx[k] >= k
  {
    if k > 0 {
      AtLeastItsPlace(idx, k - 1);
    }
  }

  lemma {:induction false} AtMostItsPlace(idx: seq<nat>, k: nat, last: nat)
    requires Increasing(idx) && k <= last < |idx| && idx[last] == last
    ensures idx[k] <= k
    decreases last - k
  {
    if k < last {
      AtMostItsPlace(idx, k + 1, last);
    }
  }

  lemma FullLeavesOneOut(g: Index, s: seq<Item>, m: nat) returns (j: nat)
    requires Usable(g, s) && |s| == m + 1 && m >= 1 && |Select(g, s, m)| == m
    ensures OneOut(g, s, j)
  {
    hide Clears, Select;
    var idx := SelectionIsDiverse(g, s, m);
    j := LeavesOneOut(idx, m);
    forall a, b | 0 <= a < b < |s| && a != j && b != j ensures Clears(g, s[b], s[a]) {
      var x, y := if a < j then a else a - 1, if b < j then b else b - 1;
      assert idx[x] == a && idx[y] == b;
    }
    if j < m {
      assert idx[m - 1] == m && Excused(g, s, m, idx, j);
    }
  }

  /** Of m + 1 candidates the selection keeps m exactly when all but one clear each other,
      and that one comes last or is not clear of an earlier one. */
  lemma FullSelection(g: Index, s: seq<Item>, m: nat)
    requires Usable(g, s) && |s| == m + 1 && m >= 1
    ensures |Select(g, s, m)| == m <==> exists j :: OneOut(g, s, j)
  {
    hide OneOut;
    if |Select(g, s, m)| == m {
      var j := FullLeavesOneOut(g, s, m);
    }
    if j :| OneOut(g, s, j) {
      OneOutInRange(g, s, j);
      KeptAllBut(g, s, m, j, |s|);
      SelectIsKept(g, s, m);
    }
  }

  lemma OneOutInRange(g: Index, s: seq<Item>, j: nat)
    requires Usable(g, s) && OneOut(g, s, j)
    ensures j < |s|
  {
  }

  /** The item at position p is among more than m candidates' selection exactly when fewer
      than m of the earlier ones were kept and it clears all of those. */
  lemma PositionKept(g: Index, s: seq<Item>, m: nat, x: Item)
    requires Usable(g, s) && m < |s|
    ensures x in Select(g, s, m) <==> exists p :: 0 <= p < |s| && s[p] == x && Keeps(g, s, m, KeptOf(g, s, m, p), p)
  {
    hide Keeps;
    SelectIsKept(g, s, m);
    var idx := KeptOf(g, s, m, |s|);
    if x in Select(g, s, m) {
      var k :| 0 <= k < |idx| && Select(g, s, m)[k] == x;
      assert idx[k] in idx;
      KeptExactlyWhen(g, s, m, idx[k], |s|);
    }
    if p :| 0 <= p < |s| && s[p] == x && Keeps(g, s, m, KeptOf(g, s, m, p), p) {
      KeptExactlyWhen(g, s, m, p, |s|);
      var k :| 0 <= k < |idx| && idx[k] == p;
      assert Select(g, s, m)[k] == x;
    }
  }

  /** Of more than m >= 2 candidates only the closest is kept exactly when every other one
      is closer to it than to the query: a full row can shrink to one neighbour. */
  lemma LoneSurvivor(g: Index, s: seq<Item>, m: nat)
    requires Usable(g, s) && 2 <= m < |s|
    ensures Select(g, s, m) == [s[0]] <==> forall i :: 1 <= i < |s| ==> NodeDist(g, s[i].id, s[0].id) < s[i].dist
  {
    hide Select;
    var idx := SelectionIsDiverse(g, s, m);
    assert |idx| > 1 ==> idx[0] < idx[1];
    hide Increasing;
    if |idx| == 1 {
      forall i | 1 <= i < |s| ensures NodeDist(g, s[i].id, s[0].id) < s[i].dist {
        assert i !in idx && Excused(g, s, m, idx, i);
      }
    } else {
      assert Clears(g, s[idx[1]], s[idx[0]]);
    }
  }

  // ---------- In place ----------

  ghost predicate ByDistance(s: seq<Item>) {
    forall i, j :: 0 <= i < j < |s| ==> s[i].dist <= s[j].dist
  }

  /** Sorted up to i, except that cell j may be too close. */
  ghost predicate ByDistanceBut(s: seq<Item>, i: int, j: int) {
    0 <= j <= i < |s| && forall x, y :: 0 <= x < y <= i && y != j ==> s[x].dist <= s[y].dist
  }

  method SwapItems(a: array<Item>, j: nat)
    requires 0 < j < a.Length
    modifies a
    ensures a[..] == Swap(old(a[..]), j - 1, j)
    ensures multiset(a[..]) == multiset(old(a[..]))
  {
    a[j - 1], a[j] := a[j], a[j - 1];
  }

  /** Stands for sort.Slice on distances: some sorted permutation, the order of equal
      distances being unspecified. */
  method SortByDistance(a: array<Item>)
    modifies a
    ensures multiset(a[..]) == multiset(old(a[..])) && ByDistance(a[..])
  {
    for i := 0 to a.Length
      invariant multiset(a[..]) == multiset(old(a[..]))
      invariant ByDistance(a[..i])
    {
      var j := i;
      while j > 0 && a[j - 1].dist > a[j].dist
        invariant ByDistanceBut(a[..], i, j) && multiset(a[..]) == multiset(old(a[..]))
      {
        SwapItems(a, j);
        j := j - 1;
      }
    }
    assert a[..a.Length] == a[..];
  }

  /** The array's head holds the items kept, its tail the candidates not read yet. */
  ghost predicate Overlaid(s: seq<Item>, a: seq<Item>, idx: seq<nat>, i: nat) {
    && i <= |s| == |a| && |idx| <= i && (forall k :: 0 <= k < |idx| ==> idx[k] < |s|)
    && a[..|idx|] == Picks(s, idx) && a[i..] == s[i..]
    && (forall k :: 0 <= k < |a| ==> a[k] in s)
  }

  lemma OverlaidStep(s: seq<Item>, a: seq<Item>, idx: seq<nat>, i: nat)
    requires Overlaid(s, a, idx, i) && i < |s|
    ensures a[i] == s[i]
    ensures Overlaid(s, a[|idx| := s[i]], idx + [i], i + 1)
    ensures Overlaid(s, a, idx, i + 1)
  {
    assert a[i..][0] == s[i..][0];
    assert a[i + 1..] == a[i..][1..] && s[i + 1..] == s[i..][1..];
    var b := a[|idx| := s[i]];
    assert b[..|idx| + 1] == Picks(s, idx) + [s[i]];
    assert b[i + 1..] == a[i + 1..];
  }

  /** The loop of the selection. */
  ghost predicate Selecting(g: Index, s: seq<Item>, m: nat, a: seq<Item>, idx: seq<nat>, i: nat)
    requires Usable(g, s)
  {
    && Overlaid(s, a, idx, i) && Diverse(g, s, m, idx, i)
    && KeepFrom(g, s, i, m, idx) == KeepFrom(g, s, 0, m, [])
  }

  lemma SelectingStart(g: Index, s: seq<Item>, m: nat)
    requires Usable(g, s)
    ensures Selecting(g, s, m, s, [], 0)
  {
  }

  lemma SelectingParts(g: Index, s: seq<Item>, m: nat, a: seq<Item>, idx: seq<nat>, i: nat)
    requires Usable(g, s) && Selecting(g, s, m, a, idx, i)
    ensures i <= |s| == |a| && |idx| <= i && (forall k :: 0 <= k < |idx| ==> idx[k] < |s|)
    ensures a[..|idx|] == Picks(s, idx)
    ensures i < |s| ==> a[i] == s[i]
  {
    if i < |s| {
      assert a[i..][0] == s[i..][0];
    }
  }

  /** When the loop ends, at the end or with m kept, the head is the selection. */
  lemma SelectingEnd(g: Index, s: seq<Item>, m: nat, a: seq<Item>, idx: seq<nat>, i: nat)
    requires Usable(g, s) && Selecting(g, s, m, a, idx, i) && m < |s| && (i == |s| || |idx| >= m)
    ensures |idx| <= |a| && a[..|idx|] == Select(g, s, m)
    ensures m > 0 ==> a[0] == s[0]
    ensures forall k :: 0 <= k < |a| ==> a[k] in s
  {
    assert m > 0 ==> a[..|idx|][0] == s[idx[0]];
  }

  lemma SelectingStep(g: Index, s: seq<Item>, m: nat, a: seq<Item>, idx: seq<nat>, i: nat)
    requires Usable(g, s) && Selecting(g, s, m, a, idx, i) && i < |s| && |idx| < m
    ensures a[i] == s[i]
    ensures Admitted(g, s, idx, i) ==> Selecting(g, s, m, a[|idx| := s[i]], idx + [i], i + 1)
    ensures !Admitted(g, s, idx, i) ==> Selecting(g, s, m, a, idx, i + 1)
  {
    ConsiderOne(g, s, m, idx, i);
    OverlaidStep(s, a, idx, i);
  }

  /** Sorts the candidates and writes the chosen ones over the head of the same array,
      while still reading candidates from it: `sorted` is what the array held in between. */
  method SelectNeighborsHeuristic(g: Index, cands: array<Item>, m: nat) returns (count: nat, ghost sorted: seq<Item>)
    requires Usable(g, cands[..])
    modifies cands
    ensures multiset(sorted) == multiset(old(cands[..])) && ByDistance(sorted) && Usable(g, sorted)
    ensures count <= cands.Length && cands[..count] == Select(g, sorted, m)
    ensures cands.Length > 0 && (m > 0 || count == cands.Length) ==> cands[0] == sorted[0]
    ensures forall i :: 0 <= i < cands.Length ==> cands[i] in sorted
  {
    SortByDistance(cands);
    sorted := cands[..];
    StillUsable(g, old(cands[..]), sorted);
    if cands.Length <= m {
      assert cands[..cands.Length] == cands[..];
      return cands.Length, sorted;
    }
    count := KeepInPlace(g, cands, m, sorted);
  }

  lemma StillUsable(g: Index, a: seq<Item>, b: seq<Item>)
    requires Usable(g, a) && multiset(a) == multiset(b)
    ensures Usable(g, b)
  {
    forall i | 0 <= i < |b| ensures b[i].id < g.n {
      assert b[i] in multiset(b);
      assert b[i] in a;
    }
  }

  method KeepInPlace(g: Index, cands: array<Item>, m: nat, ghost s: seq<Item>) returns (count: nat)
    requires s == cands[..] && Usable(g, s) && m < |s|
    modifies cands
    ensures count <= cands.Length && cands[..count] == Select(g, s, m)
    ensures m > 0 ==> cands[0] == s[0]
    ensures forall i :: 0 <= i < cands.Length ==> cands[i] in s
  {
    hide Selecting, Select;
    count := 0;
    ghost var idx: seq<nat> := [];
    ghost var reached := 0;
    SelectingStart(g, s, m);
    for i := 0 to cands.Length
      invariant reached == i && count == |idx| && Selecting(g, s, m, cands[..], idx, i)
    {
      SelectingParts(g, s, m, cands[..], idx, i);
      if count >= m {
        break;
      }
      var c := cands[i];
      SelectingStep(g, s, m, cands[..], idx, i);
      var good := KeepsClear(g, cands, count, c, s, idx);
      assert good <==> Admitted(g, s, idx, i);
      if good {
        ghost var before := cands[..];
        cands[count] := c;
        assert cands[..] == before[count := s[i]];
        count := count + 1;
        idx := idx + [i];
      }
      reached := i + 1;
    }
    SelectingEnd(g, s, m, cands[..], idx, reached);
    assert cands[..][..count] == cands[..count];
  }

  /** The inner loop: no kept item is closer to c than the query is. */
  method KeepsClear(g: Index, cands: array<Item>, count: nat, c: Item, ghost s: seq<Item>, ghost idx: seq<nat>)
      returns (good: bool)
    requires Usable(g, s) && c.id < g.n && count == |idx| <= cands.Length
    requires forall k :: 0 <= k < |idx| ==> idx[k] < |s|
    requires cands[..count] == Picks(s, idx)
    ensures good <==> forall k :: 0 <= k < |idx| ==> Clears(g, c, s[idx[k]])
  {
    good := true;
    for k := 0 to count
      invariant forall j :: 0 <= j < k ==> Clears(g, c, s[idx[j]])
    {
      assert cands[k] == cands[..count][k] == s[idx[k]];
      if NodeDist(g, c.id, cands[k].id) < c.dist {
        return false;
      }
    }
  }
}
