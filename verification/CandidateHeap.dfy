/** Candidates and the hand-written binary min-heap of the query engine
    (internal/hnsw/query.go).  `PushMin` and `PopMin` are the sift-up and sift-down
    of the source on sequences; `Heap` runs them in place on a growable buffer. */
module CandidateHeap {

  /** A node id with its distance to the query. */
  datatype Item = Item(id: nat, dist: int)

  function Swap(h: seq<Item>, i: nat, j: nat): (r: seq<Item>)
    requires i < |h| && j < |h|
    ensures |r| == |h|
  {
    h[i := h[j]][j := h[i]]
  }

  function SiftUp(h: seq<Item>, i: nat): (r: seq<Item>)
    requires i < |h|
    ensures |r| == |h|
    decreases i
  {
    if i == 0 then h
    else
      var parent := (i - 1) / 2;
      if h[parent].dist <= h[i].dist then h else SiftUp(Swap(h, parent, i), parent)
  }

  function PushMin(h: seq<Item>, x: Item): (r: seq<Item>)
    ensures |r| == |h| + 1
  {
    SiftUp(h + [x], |h|)
  }

  /** The child the source compares with: the right one only when strictly smaller. */
  function SmallestChild(h: seq<Item>, i: nat): (c: nat)
    requires 2 * i + 1 < |h|
    ensures c < |h| && (c - 1) / 2 == i && i < c
    ensures h[c].dist <= h[2 * i + 1].dist && (2 * i + 2 < |h| ==> h[c].dist <= h[2 * i + 2].dist)
  {
    var l := 2 * i + 1;
    var r := l + 1;
    if r < |h| && h[r].dist < h[l].dist then r else l
  }

  function SiftDown(h: seq<Item>, i: nat): (r: seq<Item>)
    requires i < |h|
    ensures |r| == |h|
    decreases |h| - i
  {
    if 2 * i + 1 >= |h| then h
    else
      var c := SmallestChild(h, i);
      if h[i].dist <= h[c].dist then h else SiftDown(Swap(h, i, c), c)
  }

  /** The heap left when the root is discarded: its last element moves to the root. */
  function PopMin(h: seq<Item>): (r: seq<Item>)
    ensures |r| == if |h| == 0 then 0 else |h| - 1
  {
    if |h| <= 1 then [] else SiftDown(h[0 := h[|h| - 1]][..|h| - 1], 0)
  }

  lemma {:induction false} SiftUpPermutes(h: seq<Item>, i: nat)
    requires i < |h|
    ensures multiset(SiftUp(h, i)) == multiset(h)
    decreases i
  {
    if i > 0 && h[(i - 1) / 2].dist > h[i].dist {
      SiftUpPermutes(Swap(h, (i - 1) / 2, i), (i - 1) / 2);
    }
  }

  lemma {:induction false} SiftDownPermutes(h: seq<Item>, i: nat)
    requires i < |h|
    ensures multiset(SiftDown(h, i)) == multiset(h)
    decreases |h| - i
  {
    if 2 * i + 1 < |h| && h[i].dist > h[SmallestChild(h, i)].dist {
      SiftDownPermutes(Swap(h, i, SmallestChild(h, i)), SmallestChild(h, i));
    }
  }

  // ---------- Heap order ----------

  function Parent(k: nat): nat
    requires k > 0
  {
    (k - 1) / 2
  }

  /** Position k is no closer than its parent. */
  ghost predicate Ordered(h: seq<Item>, k: int)
    requires 0 < k < |h|
  {
    h[Parent(k)].dist <= h[k].dist
  }

  ghost predicate IsHeap(h: seq<Item>) {
    forall k :: 0 < k < |h| ==> Ordered(h, k)
  }

  /** The children of i are no closer than the parent of i. */
  ghost predicate Bridged(h: seq<Item>, i: nat)
    requires i < |h|
  {
    i > 0 ==> forall k {:trigger Ordered(h, k)} ::
      0 < k < |h| && Parent(k) == i ==> h[Parent(i)].dist <= h[k].dist
  }

  lemma {:induction false} RootIsLeast(h: seq<Item>, k: nat)
    requires IsHeap(h) && k < |h|
    ensures h[0].dist <= h[k].dist
    decreases k
  {
    if k > 0 {
      assert Ordered(h, k);
      RootIsLeast(h, Parent(k));
    }
  }

  lemma {:induction false} SiftUpRestoresOrder(h: seq<Item>, i: nat)
    requires i < |h|
    requires forall k :: 0 < k < |h| && k != i ==> Ordered(h, k)
    requires Bridged(h, i)
    ensures IsHeap(SiftUp(h, i))
    decreases i
  {
    if i > 0 && h[Parent(i)].dist <= h[i].dist {
      assert Ordered(h, i);
    } else if i > 0 {
      var p := Parent(i);
      var s := Swap(h, p, i);
      forall k | 0 < k < |s| && k != p ensures Ordered(s, k) {
        if k != i {
          assert Ordered(h, k);
        }
      }
      if p > 0 {
        assert Ordered(h, p);
        forall k | 0 < k < |s| && Parent(k) == p ensures s[Parent(p)].dist <= s[k].dist {
          if k != i {
            assert Ordered(h, k);
          }
        }
      }
      SiftUpRestoresOrder(s, p);
    }
  }

  lemma {:induction false} SiftDownRestoresOrder(h: seq<Item>, i: nat)
    requires i < |h|
    requires forall k :: 0 < k < |h| && Parent(k) != i ==> Ordered(h, k)
    requires Bridged(h, i)
    ensures IsHeap(SiftDown(h, i))
    decreases |h| - i
  {
    if 2 * i + 1 >= |h| {
    } else {
      var c := SmallestChild(h, i);
      if h[i].dist <= h[c].dist {
        forall k | 0 < k < |h| && Parent(k) == i ensures Ordered(h, k) {
        }
      } else {
        var s := Swap(h, i, c);
        forall k | 0 < k < |s| && Parent(k) != c ensures Ordered(s, k) {
          if Parent(k) != i {
            assert Ordered(h, k);
          }
          if k == i && i > 0 {
            var _ := Ordered(h, c);
          }
        }
        forall k | 0 < k < |s| && Parent(k) == c ensures s[i].dist <= s[k].dist {
          assert Ordered(h, k);
        }
        SiftDownRestoresOrder(s, c);
      }
    }
  }

  /** Pushing keeps the heap order and adds exactly the new item. */
  lemma PushMinKeepsHeap(h: seq<Item>, x: Item)
    requires IsHeap(h)
    ensures IsHeap(PushMin(h, x))
    ensures multiset(PushMin(h, x)) == multiset(h) + multiset{x}
  {
    var grown := h + [x];
    forall k | 0 < k < |grown| && k != |h| ensures Ordered(grown, k) {
      assert Ordered(h, k);
    }
    assert forall k | 0 < k < |grown| :: Ordered(grown, k) ==> Parent(k) < |h| || |h| == 0;
    SiftUpRestoresOrder(grown, |h|);
    SiftUpPermutes(grown, |h|);
  }

  /** Popping removes exactly one closest item and keeps the heap order. */
  lemma PopMinKeepsHeap(h: seq<Item>)
    requires IsHeap(h) && |h| > 0
    ensures IsHeap(PopMin(h))
    ensures multiset(PopMin(h)) + multiset{h[0]} == multiset(h)
    ensures forall x :: x in h ==> h[0].dist <= x.dist
  {
    forall k | 0 <= k < |h| ensures h[0].dist <= h[k].dist {
      RootIsLeast(h, k);
    }
    assert |h| == 1 ==> h == [h[0]];
    if |h| > 1 {
      var top := h[0 := h[|h| - 1]][..|h| - 1];
      assert h == [h[0]] + h[1..|h| - 1] + [h[|h| - 1]];
      assert top == [h[|h| - 1]] + h[1..|h| - 1];
      SiftDownPermutes(top, 0);
      forall k | 0 < k < |top| && Parent(k) != 0 ensures Ordered(top, k) {
        assert Ordered(h, k);
      }
      SiftDownRestoresOrder(top, 0);
    }
  }

  lemma PushMinMembers(h: seq<Item>, x: Item, y: Item)
    ensures y in PushMin(h, x) <==> y in h || y == x
  {
    SiftUpPermutes(h + [x], |h|);
    assert y in PushMin(h, x) <==> y in multiset(PushMin(h, x));
    assert y in multiset(h + [x]) <==> y in h + [x];
  }

  lemma PopMinMembers(h: seq<Item>, y: Item)
    requires IsHeap(h) && |h| > 0
    ensures y in h <==> y in PopMin(h) || y == h[0]
  {
    PopMinKeepsHeap(h);
    assert y in PopMin(h) <==> y in multiset(PopMin(h));
    assert y in h <==> y in multiset(h);
  }

  // ---------- In-place form ----------

  /** A Go slice of candidates: a backing array, of which the first `len` cells are in
      use; `append` moves to a larger array when the capacity is used up. */
  class Heap {
    var items: array<Item>
    var len: nat

    ghost predicate Valid()
      reads this
    {
      len <= items.Length
    }

    ghost function Contents(): (s: seq<Item>)
      requires Valid()
      reads this, items
    {
      items[..len]
    }

    constructor (capacity: nat)
      ensures Valid() && fresh(items)
      ensures Contents() == []
    {
      items := new Item[capacity](_ => Item(0, 0));
      len := 0;
    }

    method Clear()
      requires Valid()
      modifies this`len
      ensures Valid() && Contents() == []
    {
      len := 0;
    }

    method Append(x: Item)
      requires Valid()
      modifies this, items
      ensures Valid()
      ensures items == old(items) || fresh(items)
      ensures Contents() == old(Contents()) + [x]
    {
      if len == items.Length {
        var grown := new Item[2 * len + 1](_ => x);
        forall k | 0 <= k < len {
          grown[k] := items[k];
        }
        items := grown;
      }
      items[len] := x;
      len := len + 1;
    }

    method Push(x: Item)
      requires Valid()
      modifies this, items
      ensures Valid()
      ensures items == old(items) || fresh(items)
      ensures Contents() == PushMin(old(Contents()), x)
    {
      Append(x);
      ghost var target := SiftUp(Contents(), len - 1);
      var i: nat := len - 1;
      while i > 0
        invariant Valid() && i < len == old(len) + 1
        invariant items == old(items) || fresh(items)
        invariant SiftUp(Contents(), i) == target
      {
        var parent := (i - 1) / 2;
        if items[parent].dist <= items[i].dist {
          assert SiftUp(Contents(), i) == Contents();
          return;
        }
        ghost var before := Contents();
        items[parent], items[i] := items[i], items[parent];
        assert Contents() == Swap(before, parent, i);
        i := parent;
      }
      assert SiftUp(Contents(), 0) == Contents();
    }

    method Pop()
      requires Valid()
      modifies this`len, items
      ensures Valid()
      ensures Contents() == PopMin(old(Contents()))
    {
      if len <= 1 {
        len := 0;
        return;
      }
      items[0] := items[len - 1];
      len := len - 1;
      assert Contents() == old(Contents())[0 := old(Contents())[len]][..len];
      Sink();
    }

    /** The sift-down loop of `Pop`. */
    method Sink()
      requires Valid() && len > 0
      modifies items
      ensures Contents() == SiftDown(old(Contents()), 0)
    {
      var i: nat := 0;
      while 2 * i + 1 < len
        invariant i < len
        invariant SiftDown(Contents(), i) == SiftDown(old(Contents()), 0)
        decreases len - i
      {
        var smallest := 2 * i + 1;
        var r := smallest + 1;
        if r < len && items[r].dist < items[smallest].dist {
          smallest := r;
        }
        assert smallest == SmallestChild(Contents(), i);
        if items[i].dist <= items[smallest].dist {
          assert SiftDown(Contents(), i) == Contents();
          return;
        }
        ghost var before := Contents();
        items[i], items[smallest] := items[smallest], items[i];
        assert Contents() == Swap(before, i, smallest);
        i := smallest;
      }
      assert SiftDown(Contents(), i) == Contents();
    }
  }

  // ---------- Which items move ----------

  /** r is h with the item at path[0] moved along the path to its end and each item on the
      way moved one step back. */
  ghost predicate Shifted(h: seq<Item>, r: seq<Item>, path: seq<nat>) {
    && |r| == |h| && |path| > 0 && (forall j :: 0 <= j < |path| ==> path[j] < |h|)
    && r[path[|path| - 1]] == h[path[0]]
    && (forall j :: 0 <= j < |path| - 1 ==> r[path[j]] == h[path[j + 1]])
    && (forall k :: 0 <= k < |h| && k !in path ==> r[k] == h[k])
  }

  lemma ShiftedBySwap(h: seq<Item>, i: nat, next: nat, r: seq<Item>, rest: seq<nat>)
    requires i < |h| && next < |h| && i != next && Shifted(Swap(h, i, next), r, rest) && rest[0] == next
    requires (forall j :: 0 <= j < |rest| ==> rest[j] != i) && forall j :: 0 < j < |rest| ==> rest[j] != next
    ensures Shifted(h, r, [i] + rest)
  {
    var s, path := Swap(h, i, next), [i] + rest;
    assert forall k :: 0 <= k < |h| && k != i && k != next ==> s[k] == h[k];
    assert forall k :: 0 <= k < |h| && k !in path ==> k !in rest && k != next;
    forall j | 0 <= j < |path| - 1 ensures r[path[j]] == h[path[j + 1]] {
      if j == 0 {
        assert i !in rest && r[i] == s[i];
      } else {
        assert r[rest[j - 1]] == s[rest[j]];
      }
    }
  }

  /** From position a an item at distance d rises past its parent b, which is strictly
      farther. */
  ghost predicate Rises(h: seq<Item>, d: int, a: nat, b: nat) {
    0 < a < |h| && b == Parent(a) && h[b].dist > d
  }

  /** The positions an item at distance d rises through from i; it stops below a parent that
      is not farther. */
  ghost predicate UpPath(h: seq<Item>, d: int, i: nat, path: seq<nat>) {
    && |path| > 0 && path[0] == i && i < |h|
    && (forall j :: 0 <= j < |path| - 1 ==> Rises(h, d, path[j], path[j + 1]))
    && (forall j :: 0 < j < |path| ==> path[j] < i)
    && var p := path[|path| - 1];
       0 < p < |h| ==> h[Parent(p)].dist <= d
  }

  lemma UpPathOn(h: seq<Item>, s: seq<Item>, d: int, i: nat, rest: seq<nat>)
    requires i > 0 && Rises(h, d, i, Parent(i)) && |s| == |h| && UpPath(s, d, Parent(i), rest)
    requires forall k :: 0 <= k < Parent(i) ==> s[k] == h[k]
    ensures UpPath(h, d, i, [i] + rest)
  {
    var path := [i] + rest;
    forall j | 0 <= j < |path| - 1 ensures Rises(h, d, path[j], path[j + 1]) {
      if j > 0 {
        assert Rises(s, d, rest[j - 1], rest[j]);
      }
    }
    assert forall j :: 0 < j < |path| ==> path[j] == rest[j - 1];
  }

  /** The item at i rises past strictly farther parents only, each moving down one step. */
  lemma {:induction false} SiftUpPath(h: seq<Item>, i: nat) returns (path: seq<nat>)
    requires i < |h|
    ensures UpPath(h, h[i].dist, i, path) && Shifted(h, SiftUp(h, i), path)
    decreases i
  {
    if i == 0 || h[Parent(i)].dist <= h[i].dist {
      path := [i];
    } else {
      var s := Swap(h, i, Parent(i));
      assert s == Swap(h, Parent(i), i);
      var rest := SiftUpPath(s, Parent(i));
      UpPathOn(h, s, h[i].dist, i, rest);
      assert SiftUp(h, i) == SiftUp(s, Parent(i));
      ShiftedBySwap(h, i, Parent(i), SiftUp(h, i), rest);
      path := [i] + rest;
    }
  }

  /** Child c of k is the closer one, the left one when both are as close. */
  ghost predicate IsCloserChild(h: seq<Item>, k: nat, c: nat) {
    && k < c < |h| && (c == 2 * k + 1 || c == 2 * k + 2)
    && (c == 2 * k + 1 && c + 1 < |h| ==> h[c].dist <= h[c + 1].dist)
    && (c == 2 * k + 2 ==> h[c].dist < h[c - 1].dist)
  }

  /** From position a an item at distance d sinks past its closer child b, which is strictly
      closer. */
  ghost predicate Sinks(h: seq<Item>, d: int, a: nat, b: nat) {
    IsCloserChild(h, a, b) && h[b].dist < d
  }

  /** The positions an item at distance d sinks through from i; it stops above children that
      are not closer. */
  ghost predicate DownPath(h: seq<Item>, d: int, i: nat, path: seq<nat>) {
    && |path| > 0 && path[0] == i && i < |h|
    && (forall j :: 0 <= j < |path| - 1 ==> Sinks(h, d, path[j], path[j + 1]))
    && (forall j :: 0 < j < |path| ==> path[j] > i)
    && forall c :: path[|path| - 1] < c < |h| && Parent(c) == path[|path| - 1] ==> d <= h[c].dist
  }

  lemma DownPathOn(h: seq<Item>, s: seq<Item>, d: int, i: nat, c: nat, rest: seq<nat>)
    requires Sinks(h, d, i, c) && |s| == |h| && DownPath(s, d, c, rest)
    requires forall k :: c < k < |h| ==> s[k] == h[k]
    ensures DownPath(h, d, i, [i] + rest)
  {
    var path := [i] + rest;
    forall j | 0 <= j < |path| - 1 ensures Sinks(h, d, path[j], path[j + 1]) {
      if j > 0 {
        assert Sinks(s, d, rest[j - 1], rest[j]);
      }
    }
    assert forall j :: 0 < j < |path| ==> path[j] == rest[j - 1];
  }

  /** The item at i sinks past strictly closer children only, each time the closer one, and
      those move up one step. */
  lemma {:induction false} SiftDownPath(h: seq<Item>, i: nat) returns (path: seq<nat>)
    requires i < |h|
    ensures DownPath(h, h[i].dist, i, path) && Shifted(h, SiftDown(h, i), path)
    decreases |h| - i
  {
    if 2 * i + 1 >= |h| || h[i].dist <= h[SmallestChild(h, i)].dist {
      path := [i];
    } else {
      var c := SmallestChild(h, i);
      var s := Swap(h, i, c);
      var rest := SiftDownPath(s, c);
      DownPathOn(h, s, h[i].dist, i, c, rest);
      ShiftedBySwap(h, i, c, SiftDown(h, i), rest);
      path := [i] + rest;
    }
  }
}
