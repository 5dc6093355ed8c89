/** Renaming and re-sorting the rows of the upper layers (internal/hnsw/reorder.go:108-171). */
module UpperRows {
  import opened Distance
  import opened Relabelling
  import opened GraphIndex

  /** The three parallel buffers of the upper layers. */
  datatype Rows = Rows(nodes: seq<int>, cnts: seq<Byte>, conns: seq<int>) {
    predicate Sized(m: nat) {
      |cnts| == |nodes| && |conns| == |nodes| * m
    }

    function Conn(m: nat, i: nat): (row: seq<int>)
      requires Sized(m) && i < |nodes|
      ensures |row| == m
    {
      RowFits(i, |nodes|, m);
      conns[i * m..i * m + m]
    }
  }

  /** Slot i of b holds what slot j of a holds. */
  ghost predicate SameSlot(m: nat, a: Rows, j: nat, b: Rows, i: nat)
    requires a.Sized(m) && b.Sized(m) && j < |a.nodes| && i < |b.nodes|
  {
    b.nodes[i] == a.nodes[j] && b.cnts[i] == a.cnts[j] && b.Conn(m, i) == a.Conn(m, j)
  }

  ghost predicate SlotIn(m: nat, a: Rows, j: nat, b: Rows, lo: nat, hi: nat)
    requires a.Sized(m) && b.Sized(m) && j < |a.nodes| && hi <= |b.nodes|
  {
    exists i: nat :: lo <= i < hi && SameSlot(m, a, j, b, i)
  }

  /** Slots lo..hi hold the same node rows in another order. */
  ghost predicate Shuffled(m: nat, a: Rows, b: Rows, lo: nat, hi: nat)
    requires a.Sized(m) && b.Sized(m) && hi <= |a.nodes| == |b.nodes|
  {
    && (forall j: nat :: lo <= j < hi ==> SlotIn(m, a, j, b, lo, hi))
    && (forall i: nat :: lo <= i < hi ==> SlotIn(m, b, i, a, lo, hi))
  }

  ghost predicate Unchanged(m: nat, a: Rows, b: Rows, lo: nat, hi: nat)
    requires a.Sized(m) && b.Sized(m) && hi <= |a.nodes| == |b.nodes|
  {
    forall i: nat :: lo <= i < hi ==> SameSlot(m, a, i, b, i)
  }

  // ---------- Sorting one layer ----------

  /** order lists start..end without repetition, by non-decreasing key. */
  ghost predicate SortedIndices(keys: seq<int>, order: seq<nat>, start: nat, end: nat) {
    && start <= end <= |keys| && |order| == end - start
    && (forall i :: 0 <= i < |order| ==> start <= order[i] < end)
    && (forall i, j :: 0 <= i < j < |order| ==> order[i] != order[j])
    && (forall i, j :: 0 <= i < j < |order| ==> keys[order[i]] <= keys[order[j]])
  }

  /** The next index goes where the larger keys begin. */
  lemma IndexInserted(keys: seq<int>, order: seq<nat>, start: nat, k: nat, p: nat)
    requires SortedIndices(keys, order, start, k) && k < |keys| && p <= |order|
    requires forall i :: 0 <= i < p ==> keys[order[i]] <= keys[k]
    requires p < |order| ==> keys[order[p]] > keys[k]
    ensures SortedIndices(keys, order[..p] + [k] + order[p..], start, k + 1)
  {
    var r := order[..p] + [k] + order[p..];
    assert forall i :: 0 <= i < |r| ==> r[i] == if i < p then order[i] else if i == p then k else order[i - 1];
    forall i, j | 0 <= i < j < |r| ensures r[i] != r[j] && keys[r[i]] <= keys[r[j]] {
    }
  }

  /** Stands for sort.Slice: callers know only that the result is sorted; the order of
      equal keys is not fixed by this contract. */
  method SortIndices(keys: seq<int>, start: nat, end: nat) returns (order: seq<nat>)
    requires start <= end <= |keys|
    ensures SortedIndices(keys, order, start, end)
  {
    order := [];
    for k := start to end
      invariant SortedIndices(keys, order, start, k)
    {
      var p := 0;
      while p < |order| && keys[order[p]] <= keys[k]
        invariant 0 <= p <= |order|
        invariant forall i :: 0 <= i < p ==> keys[order[i]] <= keys[k]
      {
        p := p + 1;
      }
      IndexInserted(keys, order, start, k, p);
      order := order[..p] + [k] + order[p..];
    }
  }

  /** |order| distinct indices in a range of that size are the whole range. */
  lemma OrderHits(order: seq<nat>, start: nat, end: nat, j: nat) returns (i: nat)
    requires start <= j < end && |order| == end - start
    requires forall i :: 0 <= i < |order| ==> start <= order[i] < end
    requires forall i, k :: 0 <= i < k < |order| ==> order[i] != order[k]
    ensures i < |order| && order[i] == j
  {
    var shifted := seq(|order|, i requires 0 <= i < |order| => order[i] - start);
    i := PermHits(shifted, j - start);
  }

  /** The rows picked by order, one after another. */
  ghost function Gather(m: nat, t: Rows, order: seq<nat>): (r: seq<int>)
    requires t.Sized(m) && forall i :: 0 <= i < |order| ==> order[i] < |t.nodes|
    ensures |r| == |order| * m
  {
    if order == [] then []
    else Gather(m, t, order[..|order| - 1]) + t.Conn(m, order[|order| - 1])
  }

  lemma {:induction false} GatherRow(m: nat, t: Rows, order: seq<nat>, i: nat)
    requires t.Sized(m) && i < |order| && forall i :: 0 <= i < |order| ==> order[i] < |t.nodes|
    ensures i * m + m <= |order| * m && Gather(m, t, order)[i * m..i * m + m] == t.Conn(m, order[i])
    decreases |order|
  {
    var front := order[..|order| - 1];
    var a, b := Gather(m, t, front), t.Conn(m, order[|order| - 1]);
    RowFits(i, |order|, m);
    assert Gather(m, t, order) == a + b;
    hide Gather;
    if i < |front| {
      GatherRow(m, t, front, i);
      SliceOfPrefix(a, b, i * m, i * m + m);
    } else {
      assert i * m == |a|;
      assert (a + b)[|a|..|a| + |b|] == b;
    }
  }

  /** The rows named by order, one after another. */
  method PickRows(m: nat, t: Rows, order: seq<nat>) returns (nodes: seq<int>, cnts: seq<Byte>, conns: seq<int>)
    requires t.Sized(m) && forall i :: 0 <= i < |order| ==> order[i] < |t.nodes|
    ensures |nodes| == |cnts| == |order| && conns == Gather(m, t, order)
    ensures forall k :: 0 <= k < |order| ==> nodes[k] == t.nodes[order[k]] && cnts[k] == t.cnts[order[k]]
  {
    nodes, cnts, conns := [], [], [];
    for i := 0 to |order|
      invariant |nodes| == |cnts| == i
      invariant forall k :: 0 <= k < i ==> nodes[k] == t.nodes[order[k]] && cnts[k] == t.cnts[order[k]]
      invariant conns == Gather(m, t, order[..i])
    {
      var oldSlot := order[i];
      nodes, cnts := nodes + [t.nodes[oldSlot]], cnts + [t.cnts[oldSlot]];
      assert order[..i + 1][..i] == order[..i];
      conns := conns + t.Conn(m, oldSlot);
    }
    assert order[..|order|] == order;
  }

  /** sortUpperLayer: the rows start..end sorted by node, moved in lockstep. */
  method SortUpperLayer(m: nat, t: Rows, start: nat, end: nat) returns (r: Rows)
    requires t.Sized(m) && start <= end <= |t.nodes|
    requires forall i, j :: start <= i < j < end ==> t.nodes[i] != t.nodes[j]
    ensures r.Sized(m) && |r.nodes| == |t.nodes|
    ensures Shuffled(m, t, r, start, end) && Ascending(r.nodes[start..end])
    ensures Unchanged(m, t, r, 0, start) && Unchanged(m, t, r, end, |t.nodes|)
  {
    if end - start <= 1 {
      AllUnchanged(m, t, start, end);
      return t;
    }
    var order := SortIndices(t.nodes, start, end);
    var nodes, cnts, conns := PickRows(m, t, order);
    r := PasteRows(m, t, start, end, nodes, cnts, conns);
    Moved(m, t, r, start, end, order);
  }

  lemma AllUnchanged(m: nat, t: Rows, start: nat, end: nat)
    requires t.Sized(m) && start <= end <= |t.nodes|
    ensures Unchanged(m, t, t, 0, start) && Unchanged(m, t, t, end, |t.nodes|) && Shuffled(m, t, t, start, end)
  {
    forall j: nat | start <= j < end ensures SlotIn(m, t, j, t, start, end) {
      assert SameSlot(m, t, j, t, j);
    }
  }

  lemma Products(start: nat, end: nat, n: nat, m: nat)
    requires start <= end <= n
    ensures 0 <= start * m <= end * m <= n * m && end * m - start * m == (end - start) * m
  {
    assert end * m == start * m + (end - start) * m;
    assert n * m == end * m + (n - end) * m;
  }

  /** Slices of a sequence whose cells a..b were replaced by x. */
  lemma PastedSlices(s: seq<int>, a: nat, x: seq<int>, b: nat, i: nat, w: nat)
    requires a <= b <= |s| && |x| == b - a
    ensures var r := s[..a] + x + s[b..];
            && (i + w <= a ==> r[i..i + w] == s[i..i + w])
            && (b <= i && i + w <= |s| ==> r[i..i + w] == s[i..i + w])
            && (i + w <= |x| ==> r[a + i..a + i + w] == x[i..i + w])
  {
    var r := s[..a] + x + s[b..];
    assert forall k :: 0 <= k < a ==> r[k] == s[k];
    assert forall k :: b <= k < |s| ==> r[k] == s[k];
    assert forall k :: 0 <= k < |x| ==> r[a + k] == x[k];
  }

  /** The three copies back into the shared buffers. */
  method PasteRows(m: nat, t: Rows, start: nat, end: nat, nodes: seq<int>, cnts: seq<Byte>, conns: seq<int>)
      returns (r: Rows)
    requires t.Sized(m) && start <= end <= |t.nodes|
    requires |nodes| == |cnts| == end - start && |conns| == (end - start) * m
    ensures r.Sized(m) && |r.nodes| == |t.nodes|
    ensures Unchanged(m, t, r, 0, start) && Unchanged(m, t, r, end, |t.nodes|)
    ensures forall k: nat :: k < end - start ==> r.nodes[start + k] == nodes[k] && r.cnts[start + k] == cnts[k]
    ensures forall k: nat :: k < end - start ==> k * m + m <= |conns| && r.Conn(m, start + k) == conns[k * m..k * m + m]
  {
    Products(start, end, |t.nodes|, m);
    r := Rows(t.nodes[..start] + nodes + t.nodes[end..],
              t.cnts[..start] + cnts + t.cnts[end..],
              t.conns[..start * m] + conns + t.conns[end * m..]);
    forall i: nat | i < start || end <= i < |t.nodes| ensures r.Conn(m, i) == t.Conn(m, i) {
      PastedOutside(m, t, r, start, end, conns, i);
    }
    forall k: nat | k < end - start ensures k * m + m <= |conns| && r.Conn(m, start + k) == conns[k * m..k * m + m] {
      PastedInside(m, t, r, start, end, conns, k);
    }
  }

  lemma PastedOutside(m: nat, t: Rows, r: Rows, start: nat, end: nat, conns: seq<int>, i: nat)
    requires t.Sized(m) && r.Sized(m) && start <= end <= |t.nodes| == |r.nodes| && i < |t.nodes|
    requires i < start || end <= i
    requires start * m <= end * m <= |t.conns| && |conns| == end * m - start * m
    requires r.conns == t.conns[..start * m] + conns + t.conns[end * m..]
    ensures r.Conn(m, i) == t.Conn(m, i)
  {
    RowFits(i, |t.nodes|, m);
    if i < start {
      RowFits(i, start, m);
    } else {
      Products(end, i, |t.nodes|, m);
    }
    PastedSlices(t.conns, start * m, conns, end * m, i * m, m);
  }

  lemma PastedInside(m: nat, t: Rows, r: Rows, start: nat, end: nat, conns: seq<int>, k: nat)
    requires t.Sized(m) && r.Sized(m) && start <= end <= |t.nodes| == |r.nodes| && k < end - start
    requires start * m <= end * m <= |t.conns| && |conns| == end * m - start * m == (end - start) * m
    requires r.conns == t.conns[..start * m] + conns + t.conns[end * m..]
    ensures k * m + m <= |conns| && r.Conn(m, start + k) == conns[k * m..k * m + m]
  {
    RowFits(k, end - start, m);
    RowFits(start + k, |t.nodes|, m);
    assert (start + k) * m == start * m + k * m;
    PastedSlices(t.conns, start * m, conns, end * m, k * m, m);
  }

  /** Slot start + k now holds what slot order[k] held. */
  ghost predicate MovedTo(m: nat, t: Rows, r: Rows, start: nat, order: seq<nat>)
    requires t.Sized(m) && r.Sized(m)
  {
    && start + |order| <= |r.nodes|
    && (forall k :: 0 <= k < |order| ==> order[k] < |t.nodes|)
    && forall k :: 0 <= k < |order| ==> SameSlot(m, t, order[k], r, start + k)
  }

  lemma MovedShuffles(m: nat, t: Rows, r: Rows, start: nat, end: nat, order: seq<nat>)
    requires t.Sized(m) && r.Sized(m) && end <= |r.nodes| == |t.nodes|
    requires SortedIndices(t.nodes, order, start, end) && MovedTo(m, t, r, start, order)
    ensures Shuffled(m, t, r, start, end)
  {
    forall j: nat | start <= j < end ensures SlotIn(m, t, j, r, start, end) {
      var i := OrderHits(order, start, end, j);
      assert SameSlot(m, t, j, r, start + i);
    }
    forall i: nat | start <= i < end ensures SlotIn(m, r, i, t, start, end) {
      var k: nat := i - start;
      assert SameSlot(m, t, order[k], r, start + k);
      assert SameSlot(m, r, i, t, order[k]);
    }
  }

  lemma MovedAscends(m: nat, t: Rows, r: Rows, start: nat, end: nat, order: seq<nat>)
    requires t.Sized(m) && r.Sized(m) && end <= |r.nodes| == |t.nodes|
    requires SortedIndices(t.nodes, order, start, end) && MovedTo(m, t, r, start, order)
    requires forall i, j :: start <= i < j < end ==> t.nodes[i] != t.nodes[j]
    ensures Ascending(r.nodes[start..end])
  {
    var layer := r.nodes[start..end];
    forall k | 0 <= k < |layer| ensures layer[k] == t.nodes[order[k]] {
      assert SameSlot(m, t, order[k], r, start + k);
    }
  }

  lemma Moved(m: nat, t: Rows, r: Rows, start: nat, end: nat, order: seq<nat>)
    requires t.Sized(m) && r.Sized(m) && end <= |r.nodes| == |t.nodes|
    requires SortedIndices(t.nodes, order, start, end)
    requires forall i, j :: start <= i < j < end ==> t.nodes[i] != t.nodes[j]
    requires forall k: nat :: k < end - start ==>
              r.nodes[start + k] == t.nodes[order[k]] && r.cnts[start + k] == t.cnts[order[k]]
    requires forall k: nat :: k < end - start ==>
               k * m + m <= |Gather(m, t, order)| && r.Conn(m, start + k) == Gather(m, t, order)[k * m..k * m + m]
    ensures Shuffled(m, t, r, start, end) && Ascending(r.nodes[start..end])
  {
    forall k: nat | k < |order| ensures SameSlot(m, t, order[k], r, start + k) {
      GatherRow(m, t, order, k);
    }
    MovedShuffles(m, t, r, start, end, order);
    MovedAscends(m, t, r, start, end, order);
  }
}
