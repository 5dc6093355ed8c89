/** The breadth-first numbering of Reorder (internal/hnsw/reorder.go:29-69): nodes found
    from the entry point over layer 0 first, the others after them. */
module BreadthFirst {
  import opened LayerSearch
  import opened SearchCertificate
  import opened TopFive
  import opened Relabelling
  import opened GraphIndex

  // ---------- The order, as a function ----------

  /** The queue after one neighbour slot: a node not yet queued joins it. */
  ghost function AddSlot(queue: seq<nat>, nb: int): (r: seq<nat>)
    ensures queue <= r
  {
    if nb < 0 || nb in queue then queue else queue + [nb]
  }

  /** The queue after a list of slots. */
  ghost function AddRow(queue: seq<nat>, row: seq<int>): (r: seq<nat>)
    ensures queue <= r
    decreases |row|
  {
    if row == [] then queue else AddRow(AddSlot(queue, row[0]), row[1..])
  }

  lemma AddRowEnds(queue: seq<nat>, row: seq<int>)
    ensures AddRow(queue, row[0..]) == AddRow(queue, row) && AddRow(queue, row[|row|..]) == queue
  {
    assert row[0..] == row;
  }

  lemma AddRowStep(queue: seq<nat>, row: seq<int>, i: nat)
    requires i < |row|
    ensures AddRow(queue, row[i..]) == AddRow(AddSlot(queue, row[i]), row[i + 1..])
  {
    assert row[i..][1..] == row[i + 1..];
  }

  /** The queue when the traversal that has come to position head ends. */
  ghost function Bfs(adj: seq<seq<int>>, queue: seq<nat>, head: nat): (r: seq<nat>)
    ensures queue <= r
    decreases |adj| - head
  {
    if head < |queue| && head < |adj| && queue[head] < |adj| then Bfs(adj, AddRow(queue, adj[queue[head]]), head + 1)
    else queue
  }

  lemma BfsStep(adj: seq<seq<int>>, queue: seq<nat>, head: nat)
    ensures head < |queue| && head < |adj| && queue[head] < |adj| ==>
              Bfs(adj, queue, head) == Bfs(adj, AddRow(queue, adj[queue[head]]), head + 1)
    ensures head >= |queue| || head >= |adj| ==> Bfs(adj, queue, head) == queue
  {
  }

  ghost function AllIds(n: nat): (r: seq<int>)
    ensures |r| == n && forall i :: 0 <= i < n ==> r[i] == i
  {
    seq(n, i => i)
  }

  /** The old nodes in their new order: as the traversal queues them, then the others. */
  ghost function NewOrder(adj: seq<seq<int>>, entry: nat): seq<nat> {
    AddRow(Bfs(adj, [entry], 0), AllIds(|adj|))
  }

  // ---------- Numberings ----------

  /** names lists the nodes numbered so far, in order. */
  ghost predicate Names(num: seq<int>, names: seq<nat>) {
    && (forall k :: 0 <= k < |names| ==> names[k] < |num| && num[names[k]] == k)
    && (forall v :: 0 <= v < |num| ==> num[v] == -1 || (0 <= num[v] < |names| && names[num[v]] == v))
  }

  /** Named nodes are distinct. */
  lemma NamesFit(num: seq<int>, names: seq<nat>)
    requires Names(num, names)
    ensures |names| <= |num|
  {
    PrefixSize(names, |names|);
    CardinalityMonotone(Prefix(names, |names|), Ids(|num|));
  }

  lemma NamedIsIn(num: seq<int>, names: seq<nat>, v: nat)
    requires Names(num, names) && v < |num|
    ensures num[v] >= -1 && (num[v] == -1 <==> v !in names)
  {
  }

  /** Numbering in progress.  queue lists the nodes numbered so far, in order; walks[k] is
      a walk from the entry to the k-th. */
  ghost predicate Numbered(adj: seq<seq<int>>, entry: nat, num: seq<int>, queue: seq<nat>, walks: seq<seq<nat>>) {
    && |num| == |adj| && |walks| == |queue| && Names(num, queue)
    && 0 < |queue| && queue[0] == entry && |walks[0]| == 1
    && (forall k :: 0 <= k < |queue| ==> IsWalk(adj, walks[k], entry, queue[k]))
    && (forall j, k :: 0 <= j < k < |queue| ==> |walks[j]| <= |walks[k]|)
  }

  /** v is numbered, by a walk of at most len nodes. */
  ghost predicate FoundWithin(num: seq<int>, walks: seq<seq<nat>>, v: int, len: nat) {
    0 <= v < |num| && 0 <= num[v] < |walks| && |walks[num[v]]| <= len
  }

  /** The slots of a row are empty or numbered within len. */
  ghost predicate RowFound(num: seq<int>, walks: seq<seq<nat>>, row: seq<int>, len: nat) {
    forall j :: 0 <= j < |row| && row[j] >= 0 ==> FoundWithin(num, walks, row[j], len)
  }

  /** The neighbours of the first head nodes are numbered, at most one step deeper. */
  ghost predicate Processed(adj: seq<seq<int>>, num: seq<int>, queue: seq<nat>, walks: seq<seq<nat>>, head: nat) {
    head <= |queue| == |walks| &&
    forall k :: 0 <= k < head ==> queue[k] < |adj| && RowFound(num, walks, adj[queue[k]], |walks[k]| + 1)
  }

  /** No walk is longer than len. */
  ghost predicate Within(walks: seq<seq<nat>>, len: nat) {
    forall k :: 0 <= k < |walks| ==> |walks[k]| <= len
  }

  /** New numbers follow breadth-first order: a node numbered before b is no more steps
      away than b; so reachable nodes come first, by non-decreasing depth. */
  ghost predicate BreadthFirstOrder(adj: seq<seq<int>>, entry: nat, pi: seq<nat>) {
    forall a, b, p :: 0 <= a < |pi| && 0 <= b < |pi| && pi[a] < pi[b] && IsWalk(adj, p, entry, b) ==>
      exists q :: IsWalk(adj, q, entry, a) && |q| <= |p|
  }

  /** In the middle of the head's row: its first i slots have been gone through. */
  ghost predicate InRow(adj: seq<seq<int>>, entry: nat, num: seq<int>, queue: seq<nat>, walks: seq<seq<nat>>,
                        head: nat, i: nat) {
    && Numbered(adj, entry, num, queue, walks) && Processed(adj, num, queue, walks, head)
    && head < |queue| && Within(walks, |walks[head]| + 1)
    && i <= |adj[queue[head]]| && RowFound(num, walks, adj[queue[head]][..i], |walks[head]| + 1)
  }

  lemma NumberNext(adj: seq<seq<int>>, entry: nat, num: seq<int>, queue: seq<nat>, walks: seq<seq<nat>>,
                   head: nat, i: nat, nb: nat)
    requires AdjOk(adj) && InRow(adj, entry, num, queue, walks, head, i)
    requires i < |adj[queue[head]]| && nb == adj[queue[head]][i] && nb < |num| && num[nb] == -1
    ensures InRow(adj, entry, num[nb := |queue|], queue + [nb], walks + [walks[head] + [nb]], head, i + 1)
  {
    var num', queue', walks' := num[nb := |queue|], queue + [nb], walks + [walks[head] + [nb]];
    StaysFound(num, walks, nb, walks[head] + [nb]);
    assert IsWalk(adj, walks[head] + [nb], entry, nb);
    forall k | 0 <= k < head ensures RowFound(num', walks', adj[queue'[k]], |walks'[k]| + 1) {
      assert RowFound(num, walks, adj[queue[k]], |walks[k]| + 1);
    }
    forall k | 0 <= k < |queue'| ensures IsWalk(adj, walks'[k], entry, queue'[k]) {
    }
  }

  lemma SkipSlot(adj: seq<seq<int>>, entry: nat, num: seq<int>, queue: seq<nat>, walks: seq<seq<nat>>,
                 head: nat, i: nat)
    requires InRow(adj, entry, num, queue, walks, head, i) && i < |adj[queue[head]]|
    requires adj[queue[head]][i] < 0 || (adj[queue[head]][i] < |num| && num[adj[queue[head]][i]] != -1)
    ensures InRow(adj, entry, num, queue, walks, head, i + 1)
  {
  }

  lemma RowDone(adj: seq<seq<int>>, entry: nat, num: seq<int>, queue: seq<nat>, walks: seq<seq<nat>>, head: nat)
    requires AdjOk(adj) && head < |queue| && queue[head] < |adj|
    requires InRow(adj, entry, num, queue, walks, head, |adj[queue[head]]|)
    ensures Numbered(adj, entry, num, queue, walks) && Processed(adj, num, queue, walks, head + 1)
    ensures head + 1 < |queue| ==> Within(walks, |walks[head + 1]| + 1)
  {
    var row := adj[queue[head]];
    assert row[..|row|] == row;
  }

  /** Numbering one more node keeps what was found. */
  lemma StaysFound(num: seq<int>, walks: seq<seq<nat>>, nb: nat, w: seq<nat>)
    requires nb < |num| && num[nb] == -1
    ensures forall v, len: nat :: FoundWithin(num, walks, v, len) ==>
              FoundWithin(num[nb := |walks|], walks + [w], v, len)
  {
  }

  /** When everything queued has been processed, a walk from the entry ends at a node
      numbered with a walk no longer. */
  lemma {:induction false} ShortestWalks(adj: seq<seq<int>>, entry: nat, num: seq<int>, queue: seq<nat>,
                                         walks: seq<seq<nat>>, p: seq<nat>, b: nat)
    requires Numbered(adj, entry, num, queue, walks) && Processed(adj, num, queue, walks, |queue|)
    requires IsWalk(adj, p, entry, b)
    ensures FoundWithin(num, walks, b, |p|)
    decreases |p|
  {
    if |p| > 1 {
      var q := p[..|p| - 1];
      var u := q[|q| - 1];
      assert IsWalk(adj, q, entry, u);
      ShortestWalks(adj, entry, num, queue, walks, q, u);
      var k := num[u];
      assert RowFound(num, walks, adj[queue[k]], |walks[k]| + 1);
      assert b in adj[u];
    } else {
      assert num[queue[0]] == 0;
    }
  }

  /** The traversal: numbers the nodes reached from the entry in breadth-first order. */
  method Traverse(g: Index, num: array<int>) returns (queue: seq<nat>, next: nat, ghost walks: seq<seq<nat>>)
    requires g.WellFormed() && num.Length == g.n
    requires forall v :: 0 <= v < g.n ==> num[v] == -1
    modifies num
    ensures next == |queue| && queue == Bfs(g.Layer(0), [g.entryPoint], 0)
    ensures var adj := g.Layer(0);
            Numbered(adj, g.entryPoint, num[..], queue, walks) && Processed(adj, num[..], queue, walks, |queue|)
  {
    ghost var adj := g.Layer(0);
    g.NetIsOk();
    assert AdjOk(g.Layered().layers[0]);
    queue := [g.entryPoint];
    num[g.entryPoint] := 0;
    next := 1;
    walks := [[g.entryPoint]];
    var head := 0;
    assert IsWalk(adj, walks[0], g.entryPoint, g.entryPoint);
    while head < |queue|
      invariant head <= |queue| == next
      invariant Numbered(adj, g.entryPoint, num[..], queue, walks) && Processed(adj, num[..], queue, walks, head)
      invariant head < |queue| ==> Within(walks, |walks[head]| + 1)
      invariant Bfs(adj, queue, head) == Bfs(adj, [g.entryPoint], 0)
      decreases g.n - head
    {
      NamesFit(num[..], queue);
      queue, next, walks := NumberRow(g, num, queue, next, walks, head);
      head := head + 1;
    }
  }

  /** The loop over the neighbours of the queue's head. */
  method NumberRow(g: Index, num: array<int>, queue0: seq<nat>, next0: nat, ghost walks0: seq<seq<nat>>, head: nat)
      returns (queue: seq<nat>, next: nat, ghost walks: seq<seq<nat>>)
    requires g.WellFormed() && num.Length == g.n && AdjOk(g.Layer(0))
    requires Numbered(g.Layer(0), g.entryPoint, num[..], queue0, walks0)
    requires Processed(g.Layer(0), num[..], queue0, walks0, head)
    requires head < |queue0| == next0 && Within(walks0, |walks0[head]| + 1)
    modifies num
    ensures next == |queue| && queue == AddRow(queue0, g.Layer(0)[queue0[head]])
    ensures Numbered(g.Layer(0), g.entryPoint, num[..], queue, walks)
    ensures Processed(g.Layer(0), num[..], queue, walks, head + 1)
    ensures head + 1 < |queue| ==> Within(walks, |walks[head + 1]| + 1)
  {
    ghost var adj := g.Layer(0);
    queue, next, walks := queue0, next0, walks0;
    var nbs := g.Layer0Neighbors(queue[head]);
    RowStarts(adj, g.entryPoint, num[..], queue, walks, head);
    assert nbs == adj[queue[head]] && RowOk(nbs, g.n);
    AddRowEnds(queue, nbs);
    hide InRow, Numbered, Processed, Within, Index.WellFormed, AdjOk, AddSlot, AddRow;
    for i := 0 to |nbs|
      invariant next == |queue| && head < |queue| && queue[head] == queue0[head]
      invariant InRow(adj, g.entryPoint, num[..], queue, walks, head, i)
      invariant AddRow(queue, nbs[i..]) == AddRow(queue0, nbs)
    {
      AddRowStep(queue, nbs, i);
      queue, next, walks := NumberSlot(adj, g.entryPoint, num, queue, next, walks, head, i, nbs[i]);
    }
    AddRowEnds(queue, nbs);
    RowDone(adj, g.entryPoint, num[..], queue, walks, head);
  }

  lemma RowStarts(adj: seq<seq<int>>, entry: nat, num: seq<int>, queue: seq<nat>, walks: seq<seq<nat>>, head: nat)
    requires Numbered(adj, entry, num, queue, walks) && Processed(adj, num, queue, walks, head)
    requires head < |queue| && Within(walks, |walks[head]| + 1)
    ensures InRow(adj, entry, num, queue, walks, head, 0)
  {
  }

  /** One neighbour of the head: numbered and queued unless it has a number. */
  method NumberSlot(ghost adj: seq<seq<int>>, ghost entry: nat, num: array<int>, queue0: seq<nat>, next0: nat,
                    ghost walks0: seq<seq<nat>>, ghost head: nat, ghost i: nat, nb: int)
      returns (queue: seq<nat>, next: nat, ghost walks: seq<seq<nat>>)
    requires AdjOk(adj) && InRow(adj, entry, num[..], queue0, walks0, head, i)
    requires i < |adj[queue0[head]]| && nb == adj[queue0[head]][i] < num.Length && next0 == |queue0|
    modifies num
    ensures InRow(adj, entry, num[..], queue, walks, head, i + 1)
    ensures queue == AddSlot(queue0, nb) && next == |queue|
  {
    queue, next, walks := queue0, next0, walks0;
    if nb >= 0 {
      NamedIsIn(num[..], queue, nb);
    }
    hide InRow, AdjOk;
    if nb < 0 || num[nb] != -1 {
      SkipSlot(adj, entry, num[..], queue, walks, head, i);
      return;
    }
    NumberNext(adj, entry, num[..], queue, walks, head, i, nb);
    ghost var before := num[..];
    num[nb] := next;
    assert num[..] == before[nb := |queue|];
    next := next + 1;
    queue, walks := queue + [nb], walks + [walks[head] + [nb]];
  }

  // ---------- The complete numbering ----------

  ghost function AsPerm(num: seq<int>): (pi: seq<nat>)
    requires forall v :: 0 <= v < |num| ==> num[v] >= 0
    ensures |pi| == |num| && forall v :: 0 <= v < |num| ==> pi[v] == num[v]
  {
    seq(|num|, v requires 0 <= v < |num| => num[v] as nat)
  }

  lemma OrderIsBreadthFirst(adj: seq<seq<int>>, entry: nat, num0: seq<int>, queue: seq<nat>, walks: seq<seq<nat>>,
                            num: seq<int>, names: seq<nat>)
    requires Numbered(adj, entry, num0, queue, walks) && Processed(adj, num0, queue, walks, |queue|)
    requires Names(num, names) && |num| == |num0| && queue <= names
    requires forall v :: 0 <= v < |num| ==> num[v] >= 0
    ensures BreadthFirstOrder(adj, entry, AsPerm(num))
  {
    var pi := AsPerm(num);
    forall a, b, p | 0 <= a < |pi| && 0 <= b < |pi| && pi[a] < pi[b] && IsWalk(adj, p, entry, b)
      ensures exists q :: IsWalk(adj, q, entry, a) && |q| <= |p|
    {
      ShortestWalks(adj, entry, num0, queue, walks, p, b);
      assert names[num0[b]] == queue[num0[b]] == b;
      assert names[pi[a]] == queue[pi[a]] == a;
      assert IsWalk(adj, walks[pi[a]], entry, a);
    }
  }

  /** Of the first v nodes, those without a number before come after all older ones. */
  ghost predicate LateInOrder(num0: seq<int>, num: seq<int>, v: nat) {
    && |num0| == |num| && v <= |num|
    && forall t, u :: 0 <= t < u < v && num0[u] == -1 ==> num[t] < num[u]
  }

  lemma LateStep(num0: seq<int>, num: seq<int>, names: seq<nat>, v: nat)
    requires LateInOrder(num0, num, v) && v < |num| && Names(num, names) && num[v] == num0[v]
    requires forall u :: 0 <= u < v ==> num[u] >= 0
    ensures num[v] != -1 ==> LateInOrder(num0, num, v + 1)
    ensures num[v] == -1 ==> LateInOrder(num0, num[v := |names|], v + 1) && Names(num[v := |names|], names + [v])
  {
  }

  /** Going on from node v completes the queue to the same order. */
  ghost predicate GoesOn(n: nat, queue: seq<nat>, names: seq<nat>, v: nat) {
    v <= n && AddRow(names, AllIds(n)[v..]) == AddRow(queue, AllIds(n))
  }

  lemma GoesOnStep(n: nat, queue: seq<nat>, names: seq<nat>, v: nat)
    requires GoesOn(n, queue, names, v) && v < n
    ensures GoesOn(n, queue, if v in names then names else names + [v], v + 1)
  {
    AddRowStep(names, AllIds(n), v);
  }

  /** The first v nodes have been looked at: those without a number have got one. */
  ghost predicate RestDone(num0: seq<int>, num: seq<int>, names: seq<nat>, v: nat) {
    && Names(num, names) && LateInOrder(num0, num, v)
    && (forall u :: 0 <= u < v ==> num[u] >= 0)
    && (forall u :: 0 <= u < |num| && (num0[u] >= 0 || v <= u) ==> num[u] == num0[u])
  }

  /** A node with a number is passed over; any other gets the next one. */
  lemma RestStep(num0: seq<int>, num: seq<int>, names: seq<nat>, v: nat)
    requires RestDone(num0, num, names, v) && v < |num|
    ensures num[v] == -1 <==> v !in names
    ensures num[v] != -1 ==> RestDone(num0, num, names, v + 1)
    ensures num[v] == -1 ==> RestDone(num0, num[v := |names|], names + [v], v + 1)
  {
    NamedIsIn(num, names, v);
    LateStep(num0, num, names, v);
    hide Names, LateInOrder;
  }

  /** Nodes not reached are numbered last, in their old order. */
  method NumberRest(num: array<int>, next0: nat, ghost queue: seq<nat>) returns (ghost names: seq<nat>)
    requires next0 == |queue| && Names(num[..], queue)
    modifies num
    ensures Names(num[..], names) && names == AddRow(queue, AllIds(num.Length))
    ensures forall v :: 0 <= v < num.Length ==> num[v] >= 0
    ensures forall v :: 0 <= v < num.Length && old(num[v]) >= 0 ==> num[v] == old(num[v])
    ensures LateInOrder(old(num[..]), num[..], num.Length)
  {
    var next := next0;
    names := queue;
    ghost var num0, ids := num[..], AllIds(num.Length);
    AddRowEnds(queue, ids);
    hide AllIds, AddRow;
    for v := 0 to num.Length
      invariant next == |names| && RestDone(num0, num[..], names, v) && GoesOn(num.Length, queue, names, v)
    {
      ghost var before := num[..];
      RestStep(num0, before, names, v);
      GoesOnStep(num.Length, queue, names, v);
      hide RestDone, GoesOn;
      if num[v] == -1 {
        num[v] := next;
        assert num[..] == before[v := |names|];
        next := next + 1;
        names := names + [v];
      }
    }
    AddRowEnds(names, ids);
  }

  lemma NamesArePerm(num: seq<int>, names: seq<nat>)
    requires Names(num, names) && forall v :: 0 <= v < |num| ==> num[v] >= 0
    ensures IsPerm(AsPerm(num)) && |names| == |num| && forall v :: 0 <= v < |num| ==> num[v] < |num|
  {
    NamesFit(num, names);
    var pi := AsPerm(num);
    PrefixSize(pi, |pi|);
    CardinalityMonotone(Prefix(pi, |pi|), Ids(|names|));
  }

  /** oldToNew of Reorder: the nodes are numbered in NewOrder, so the entry is 0, and the
      order is breadth first, unreachable nodes last. */
  method Number(g: Index) returns (num: array<int>)
    requires g.WellFormed()
    ensures fresh(num) && num.Length == g.n
    ensures forall v :: 0 <= v < g.n ==> 0 <= num[v] < g.n
    ensures IsPerm(AsPerm(num[..])) && num[g.entryPoint] == 0
    ensures Names(num[..], NewOrder(g.Layer(0), g.entryPoint))
    ensures BreadthFirstOrder(g.Layer(0), g.entryPoint, AsPerm(num[..]))
  {
    num := new int[g.n](_ => -1);
    var queue, next, walks := Traverse(g, num);
    ghost var num0 := num[..];
    assert num0[queue[0]] == 0;
    var names := NumberRest(num, next, queue);
    NamesArePerm(num[..], names);
    OrderIsBreadthFirst(g.Layer(0), g.entryPoint, num0, queue, walks, num[..], names);
  }
}
