/** The order in which Reorder numbers nodes (internal/hnsw/reorder.go:35-63), told without
    the traversal: every node but the entry is numbered where it first occurs in the rows of
    the nodes numbered before it, row after row and slot after slot; the nodes that occur in
    no row come last, by increasing id. */
module DiscoveryOrder {
  import opened LayerSearch
  import opened TopFive
  import opened BreadthFirst

  /** A slot of a row: the row's place in the queue and the slot's place in the row. */
  datatype Place = Place(row: nat, slot: nat)

  ghost predicate Earlier(a: Place, b: Place) {
    a.row < b.row || (a.row == b.row && a.slot < b.slot)
  }

  /** The place exists, and node v is there. */
  ghost predicate Occurs(adj: seq<seq<int>>, queue: seq<nat>, v: nat, p: Place) {
    p.row < |queue| && queue[p.row] < |adj| && p.slot < |adj[queue[p.row]]| && adj[queue[p.row]][p.slot] == v
  }

  /** p is where v occurs first. */
  ghost predicate FirstAt(adj: seq<seq<int>>, queue: seq<nat>, v: nat, p: Place) {
    Occurs(adj, queue, v, p) && forall q :: Occurs(adj, queue, v, q) ==> q == p || Earlier(p, q)
  }

  /** The queue lists the entry, then the nodes by where they occur first, in earlier rows;
      whatever occurs in a row is listed. */
  ghost predicate InOrder(adj: seq<seq<int>>, entry: nat, queue: seq<nat>) {
    && |queue| > 0 && queue[0] == entry && (forall j, k :: 0 <= j < k < |queue| ==> queue[j] != queue[k])
    && (forall v, p :: Occurs(adj, queue, v, p) ==> v in queue)
    && (forall k :: 0 < k < |queue| ==> FoundEarlier(adj, queue, k))
    && (forall j, k :: 0 < j < k < |queue| ==> FoundBefore(adj, queue, j, k))
  }

  /** The k-th node occurs first in the row of an earlier one. */
  ghost predicate FoundEarlier(adj: seq<seq<int>>, queue: seq<nat>, k: nat)
    requires k < |queue|
  {
    exists p :: FirstAt(adj, queue, queue[k], p) && p.row < k
  }

  /** The j-th node occurs first before the k-th does. */
  ghost predicate FoundBefore(adj: seq<seq<int>>, queue: seq<nat>, j: nat, k: nat)
    requires j < |queue| && k < |queue|
  {
    forall p, q :: FirstAt(adj, queue, queue[j], p) && FirstAt(adj, queue, queue[k], q) ==> Earlier(p, q)
  }

  lemma FirstIsUnique(adj: seq<seq<int>>, queue: seq<nat>, v: nat, p: Place, q: Place)
    requires FirstAt(adj, queue, v, p) && FirstAt(adj, queue, v, q)
    ensures p == q
  {
  }

  // ---------- The traversal in progress ----------

  /** The k-th node listed occurs first at p, in the row of an earlier one. */
  ghost predicate MetAt(adj: seq<seq<int>>, queue: seq<nat>, k: nat, p: Place)
    requires k < |queue|
  {
    FirstAt(adj, queue, queue[k], p) && p.row < k
  }

  /** Whatever occurs before place h is listed. */
  ghost predicate ListedBefore(adj: seq<seq<int>>, queue: seq<nat>, h: Place) {
    forall v, p :: Occurs(adj, queue, v, p) && Earlier(p, h) ==> v in queue
  }

  /** All slots before place h have been gone through; at[k] is where the k-th node was
      met. */
  ghost predicate Through(adj: seq<seq<int>>, entry: nat, queue: seq<nat>, at: seq<Place>, h: Place) {
    && |queue| > 0 && queue[0] == entry && |at| == |queue|
    && (forall j, k :: 0 <= j < k < |queue| ==> queue[j] != queue[k])
    && ListedBefore(adj, queue, h)
    && (forall k :: 0 < k < |queue| ==> MetAt(adj, queue, k, at[k]) && Earlier(at[k], h))
    && (forall j, k :: 0 < j < k < |queue| ==> Earlier(at[j], at[k]))
  }

  lemma ThroughStart(adj: seq<seq<int>>, entry: nat)
    ensures Through(adj, entry, [entry], [Place(0, 0)], Place(0, 0))
  {
  }

  /** A slot that is empty or holds a listed node. */
  lemma ThroughSkip(adj: seq<seq<int>>, entry: nat, queue: seq<nat>, at: seq<Place>, h: Place)
    requires Through(adj, entry, queue, at, h) && h.row < |queue| && queue[h.row] < |adj|
    requires h.slot < |adj[queue[h.row]]|
    requires adj[queue[h.row]][h.slot] < 0 || adj[queue[h.row]][h.slot] in queue
    ensures Through(adj, entry, queue, at, h.(slot := h.slot + 1))
  {
    var next := h.(slot := h.slot + 1);
    assert ListedBefore(adj, queue, next) by {
      forall v, p | Occurs(adj, queue, v, p) && Earlier(p, next) ensures v in queue {
        assert Earlier(p, h) || p == h;
      }
    }
    hide MetAt, ListedBefore;
  }

  lemma OccursGrows(adj: seq<seq<int>>, queue: seq<nat>, v: nat, u: nat, p: Place)
    ensures Occurs(adj, queue + [v], u, p) <==>
              Occurs(adj, queue, u, p) || (p.row == |queue| && v < |adj| && p.slot < |adj[v]| && adj[v][p.slot] == u)
  {
  }

  lemma MetAtGrows(adj: seq<seq<int>>, queue: seq<nat>, v: nat, k: nat, p: Place)
    requires k < |queue| && MetAt(adj, queue, k, p)
    ensures MetAt(adj, queue + [v], k, p)
  {
    forall q ensures Occurs(adj, queue + [v], queue[k], q) ==> q == p || Earlier(p, q) {
      OccursGrows(adj, queue, v, queue[k], q);
    }
    OccursGrows(adj, queue, v, queue[k], p);
  }

  /** A node not listed yet is met where it is found. */
  lemma NewIsMetAt(adj: seq<seq<int>>, queue: seq<nat>, h: Place, v: nat)
    requires ListedBefore(adj, queue, h) && Occurs(adj, queue, v, h) && v !in queue
    ensures MetAt(adj, queue + [v], |queue|, h)
  {
    forall q ensures Occurs(adj, queue + [v], v, q) ==> q == h || Earlier(h, q) {
      OccursGrows(adj, queue, v, v, q);
    }
    OccursGrows(adj, queue, v, v, h);
  }

  lemma ListedGrows(adj: seq<seq<int>>, queue: seq<nat>, h: Place, v: nat)
    requires ListedBefore(adj, queue, h) && Occurs(adj, queue, v, h)
    ensures ListedBefore(adj, queue + [v], h.(slot := h.slot + 1))
  {
    forall u: nat, p | Occurs(adj, queue + [v], u, p) && Earlier(p, h.(slot := h.slot + 1)) ensures u in queue + [v] {
      OccursGrows(adj, queue, v, u, p);
      assert p == h || Earlier(p, h);
    }
  }

  /** A slot that holds a node not listed yet. */
  lemma ThroughAdd(adj: seq<seq<int>>, entry: nat, queue: seq<nat>, at: seq<Place>, h: Place, v: nat)
    requires Through(adj, entry, queue, at, h) && Occurs(adj, queue, v, h) && v !in queue
    ensures Through(adj, entry, queue + [v], at + [h], h.(slot := h.slot + 1))
  {
    var more, at', next := queue + [v], at + [h], h.(slot := h.slot + 1);
    ListedGrows(adj, queue, h, v);
    NewIsMetAt(adj, queue, h, v);
    hide MetAt, ListedBefore, Occurs;
    forall k | 0 < k < |more| ensures MetAt(adj, more, k, at'[k]) && Earlier(at'[k], next) {
      if k < |queue| {
        MetAtGrows(adj, queue, v, k, at[k]);
      }
    }
  }

  lemma ThroughRow(adj: seq<seq<int>>, entry: nat, queue: seq<nat>, at: seq<Place>, h: Place)
    requires Through(adj, entry, queue, at, h) && h.row < |queue| && queue[h.row] < |adj|
    requires h.slot == |adj[queue[h.row]]|
    ensures Through(adj, entry, queue, at, Place(h.row + 1, 0))
  {
    var next := Place(h.row + 1, 0);
    assert ListedBefore(adj, queue, next) by {
      forall v, p | Occurs(adj, queue, v, p) && Earlier(p, next) ensures v in queue {
        assert Earlier(p, h);
      }
    }
    hide MetAt, ListedBefore;
  }

  ghost predicate NodesIn(queue: seq<nat>, n: nat) {
    forall k :: 0 <= k < |queue| ==> queue[k] < n
  }

  lemma {:induction false} AddRowThrough(adj: seq<seq<int>>, entry: nat, queue: seq<nat>, at: seq<Place>, h: Place)
      returns (at': seq<Place>)
    requires Through(adj, entry, queue, at, h) && h.row < |queue| && queue[h.row] < |adj| && NodesIn(queue, |adj|)
    requires h.slot <= |adj[queue[h.row]]| && RowOk(adj[queue[h.row]], |adj|)
    ensures var row := adj[queue[h.row]];
            var all := AddRow(queue, row[h.slot..]);
            queue <= all && NodesIn(all, |adj|) && Through(adj, entry, all, at', Place(h.row + 1, 0))
    decreases |adj[queue[h.row]]| - h.slot
  {
    var row := adj[queue[h.row]];
    if h.slot == |row| {
      AddRowEnds(queue, row);
      ThroughRow(adj, entry, queue, at, h);
      at' := at;
    } else {
      AddRowStep(queue, row, h.slot);
      var next, nb := AddSlot(queue, row[h.slot]), row[h.slot];
      if nb < 0 || nb in queue {
        ThroughSkip(adj, entry, queue, at, h);
        hide Through, AddRow, AddSlot;
        at' := AddRowThrough(adj, entry, queue, at, h.(slot := h.slot + 1));
      } else {
        assert Occurs(adj, queue, nb, h);
        ThroughAdd(adj, entry, queue, at, h, nb);
        assert next == queue + [nb as nat] && next[h.row] == queue[h.row];
        hide Through, AddRow, AddSlot;
        at' := AddRowThrough(adj, entry, next, at + [h], h.(slot := h.slot + 1));
      }
    }
  }

  lemma ThroughFits(adj: seq<seq<int>>, entry: nat, queue: seq<nat>, at: seq<Place>, h: Place)
    requires Through(adj, entry, queue, at, h) && NodesIn(queue, |adj|)
    ensures |queue| <= |adj|
  {
    PrefixSize(queue, |queue|);
    CardinalityMonotone(Prefix(queue, |queue|), Ids(|adj|));
  }

  lemma NodeRow(adj: seq<seq<int>>, queue: seq<nat>, k: nat)
    requires AdjOk(adj) && NodesIn(queue, |adj|) && k < |queue|
    ensures queue[k] < |adj| && RowOk(adj[queue[k]], |adj|) && adj[queue[k]][0..] == adj[queue[k]]
  {
  }

  lemma {:induction false} BfsThrough(adj: seq<seq<int>>, entry: nat, queue: seq<nat>, at: seq<Place>, head: nat)
      returns (at': seq<Place>)
    requires AdjOk(adj) && Through(adj, entry, queue, at, Place(head, 0)) && NodesIn(queue, |adj|) && head <= |queue|
    ensures var all := Bfs(adj, queue, head);
            NodesIn(all, |adj|) && Through(adj, entry, all, at', Place(|all|, 0))
    decreases |adj| - head
  {
    hide *;
    ThroughFits(adj, entry, queue, at, Place(head, 0));
    BfsStep(adj, queue, head);
    if head == |queue| {
      at' := at;
    } else {
      NodeRow(adj, queue, head);
      var now := AddRowThrough(adj, entry, queue, at, Place(head, 0));
      at' := BfsThrough(adj, entry, AddRow(queue, adj[queue[head]]), now, head + 1);
    }
  }

  lemma AllListed(adj: seq<seq<int>>, queue: seq<nat>)
    requires ListedBefore(adj, queue, Place(|queue|, 0))
    ensures forall v, p :: Occurs(adj, queue, v, p) ==> v in queue
  {
    forall v, p | Occurs(adj, queue, v, p) ensures v in queue {
      assert Earlier(p, Place(|queue|, 0));
    }
  }

  lemma MetInOrder(adj: seq<seq<int>>, queue: seq<nat>, j: nat, k: nat, x: Place, y: Place)
    requires j < |queue| && k < |queue| && MetAt(adj, queue, j, x) && MetAt(adj, queue, k, y) && Earlier(x, y)
    ensures FoundEarlier(adj, queue, k) && FoundBefore(adj, queue, j, k)
  {
    forall p, q | FirstAt(adj, queue, queue[j], p) && FirstAt(adj, queue, queue[k], q) ensures Earlier(p, q) {
      FirstIsUnique(adj, queue, queue[j], p, x);
      FirstIsUnique(adj, queue, queue[k], q, y);
    }
  }

  lemma MetIsFound(adj: seq<seq<int>>, queue: seq<nat>, k: nat, p: Place)
    requires k < |queue| && MetAt(adj, queue, k, p)
    ensures FoundEarlier(adj, queue, k)
  {
  }

  lemma ThroughAll(adj: seq<seq<int>>, entry: nat, queue: seq<nat>, at: seq<Place>)
    requires Through(adj, entry, queue, at, Place(|queue|, 0))
    ensures InOrder(adj, entry, queue)
  {
    AllListed(adj, queue);
    hide MetAt, ListedBefore, Occurs, FoundEarlier, FoundBefore;
    forall k | 0 < k < |queue| ensures FoundEarlier(adj, queue, k) {
      MetIsFound(adj, queue, k, at[k]);
    }
    forall j, k | 0 < j < k < |queue| ensures FoundBefore(adj, queue, j, k) {
      MetInOrder(adj, queue, j, k, at[j], at[k]);
    }
  }

  /** The traversal lists the nodes by where they occur first. */
  lemma BfsInOrder(adj: seq<seq<int>>, entry: nat)
    requires AdjOk(adj) && entry < |adj|
    ensures InOrder(adj, entry, Bfs(adj, [entry], 0))
  {
    ThroughStart(adj, entry);
    var at := BfsThrough(adj, entry, [entry], [Place(0, 0)], 0);
    ThroughAll(adj, entry, Bfs(adj, [entry], 0), at);
  }

  // ---------- The others ----------

  /** rest are the ids from i to n that are not in the queue, in increasing order. */
  ghost predicate Others(queue: seq<nat>, n: nat, i: nat, rest: seq<nat>) {
    && (forall k :: 0 <= k < |rest| ==> i <= rest[k] < n && rest[k] !in queue)
    && (forall j, k :: 0 <= j < k < |rest| ==> rest[j] < rest[k])
    && (forall v: nat :: i <= v < n ==> v in queue || v in rest)
  }

  lemma OthersStep(queue: seq<nat>, n: nat, i: nat, more: seq<nat>)
    requires i < n
    ensures i in queue && Others(queue, n, i + 1, more) ==> Others(queue, n, i, more)
    ensures i !in queue && Others(queue + [i], n, i + 1, more) ==> Others(queue, n, i, [i] + more)
  {
    if i !in queue && Others(queue + [i], n, i + 1, more) {
      var rest := [i] + more;
      forall v: nat | i <= v < n ensures v in queue || v in rest {
        if v == i {
          assert rest[0] == v;
        } else {
          assert v in queue + [i] || v in more;
        }
      }
      forall k | 0 <= k < |rest| ensures i <= rest[k] < n && rest[k] !in queue {
        if k > 0 {
          assert more[k - 1] !in queue + [i];
        }
      }
    }
  }

  lemma NextId(queue: seq<nat>, n: nat, i: nat)
    requires i < n
    ensures AddRow(queue, AllIds(n)[i..]) == AddRow(if i in queue then queue else queue + [i], AllIds(n)[i + 1..])
  {
    AddRowStep(queue, AllIds(n), i);
  }

  lemma NoMoreIds(queue: seq<nat>, n: nat)
    ensures AddRow(queue, AllIds(n)[n..]) == queue && queue + [] == queue && Others(queue, n, n, [])
  {
    AddRowEnds(queue, AllIds(n));
  }

  lemma OneThenMore(queue: seq<nat>, i: nat, more: seq<nat>)
    ensures queue + [i] + more == queue + ([i] + more)
  {
  }

  /** The ids from i on that are not listed follow in increasing order. */
  lemma {:induction false} OthersAscend(queue: seq<nat>, n: nat, i: nat) returns (rest: seq<nat>)
    requires i <= n
    ensures AddRow(queue, AllIds(n)[i..]) == queue + rest && Others(queue, n, i, rest)
    decreases n - i
  {
    hide *;
    if i == n {
      NoMoreIds(queue, n);
      rest := [];
    } else {
      NextId(queue, n, i);
      if i in queue {
        rest := OthersAscend(queue, n, i + 1);
        OthersStep(queue, n, i, rest);
      } else {
        var more := OthersAscend(queue + [i], n, i + 1);
        OthersStep(queue, n, i, more);
        OneThenMore(queue, i, more);
        rest := [i] + more;
      }
    }
  }

  /** The whole order: the nodes that can be come upon from the entry by first occurrence,
      then all others by increasing id. */
  lemma NewOrderExplained(adj: seq<seq<int>>, entry: nat) returns (queue: seq<nat>, rest: seq<nat>)
    requires AdjOk(adj) && entry < |adj|
    ensures NewOrder(adj, entry) == queue + rest && InOrder(adj, entry, queue) && Others(queue, |adj|, 0, rest)
  {
    queue := Bfs(adj, [entry], 0);
    BfsInOrder(adj, entry);
    hide InOrder, Bfs, Others;
    AddRowEnds(queue, AllIds(|adj|));
    rest := OthersAscend(queue, |adj|, 0);
  }
}
