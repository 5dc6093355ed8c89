/** What one insertion does to the layered graph (Builder.Insert in internal/hnsw/hnsw.go),
    as a relation between the states before and after, and the invariant every insertion
    keeps whatever level is drawn. */
module BuildSteps {
  import opened Distance
  import opened CandidateHeap
  import opened LayerSearch
  import opened SearchCertificate
  import opened GreedyClimbs
  import opened Network
  import opened GraphIndex
  import opened NeighborSelection
  import opened BuilderSearch

  // ---------- Rows ----------

  ghost function IdsOf(items: seq<Item>): (r: seq<int>)
    ensures |r| == |items| && forall i :: 0 <= i < |items| ==> r[i] == items[i].id
  {
    seq(|items|, i requires 0 <= i < |items| => items[i].id)
  }

  ghost predicate RowIn(row: seq<int>, n: nat) {
    forall j :: 0 <= j < |row| ==> 0 <= row[j] < n
  }

  /** The neighbours of s with their distances from s. */
  ghost function RowItems(g: Index, s: nat, row: seq<int>): (r: seq<Item>)
    requires |g.vectors| == g.n * DIM && s < g.n && RowIn(row, g.n)
    ensures |r| == |row| && forall i :: 0 <= i < |row| ==> r[i] == Item(row[i], NodeDist(g, s, row[i]))
  {
    seq(|row|, i requires 0 <= i < |row| => Item(row[i], NodeDist(g, s, row[i])))
  }

  ghost predicate SortedFrom(items: seq<Item>, sorted: seq<Item>) {
    multiset(sorted) == multiset(items) && ByDistance(sorted)
  }

  /** row' is the heuristic's choice from row, which it considered in the order sorted. */
  ghost predicate ChosenFrom(g: Index, s: nat, row: seq<int>, cap: nat, row': seq<int>, sorted: seq<Item>) {
    && |g.vectors| == g.n * DIM && s < g.n && RowIn(row, g.n)
    && SortedFrom(RowItems(g, s, row), sorted) && Usable(g, sorted) && row' == IdsOf(Select(g, sorted, cap))
  }

  /** row' is the heuristic's choice of at most cap neighbours of s among those in row. */
  ghost predicate Relinked(g: Index, s: nat, row: seq<int>, cap: nat, row': seq<int>) {
    exists sorted :: ChosenFrom(g, s, row, cap, row', sorted)
  }

  /** Adding the edge s -> id: appended if there is room, else the choice among the old
      neighbours and id. */
  ghost predicate Linked(g: Index, s: nat, row: seq<int>, id: nat, cap: nat, row': seq<int>) {
    if |row| < cap then row' == row + [id] else Relinked(g, s, row + [id], cap, row')
  }

  // ---------- Layers ----------

  /** Distinct neighbours of v among the members, not v itself. */
  ghost predicate RowElems(row: seq<int>, v: nat, members: set<nat>) {
    && (forall j :: 0 <= j < |row| ==> row[j] >= 0 && row[j] in members && row[j] != v)
    && (forall i, j :: 0 <= i < j < |row| ==> row[i] != row[j])
  }

  /** Members have at most cap neighbours, all members; other nodes have none. */
  ghost predicate LayerFine(adj: seq<seq<int>>, members: set<nat>, cap: nat) {
    && (forall v :: v in members ==> v < |adj|)
    && forall v :: 0 <= v < |adj| ==>
         (if v in members then RowElems(adj[v], v, members) && |adj[v]| <= cap else adj[v] == [])
  }

  /** after is before with id linked both ways to the chosen nodes. */
  ghost predicate ConnectedTo(g: Index, before: seq<seq<int>>, after: seq<seq<int>>, id: nat, chosen: seq<int>,
                              cap: nat) {
    && |after| == |before| && id < |after| && after[id] == chosen
    && forall s :: 0 <= s < |before| && s != id ==>
         if s in chosen then Linked(g, s, before[s], id, cap, after[s]) else after[s] == before[s]
  }

  /** The search and selection an insertion did on one layer. */
  datatype Trail = Trail(entry: nat, found: seq<Item>, sorted: seq<Item>)

  /** The work of an insertion on one layer: a width-ef search from the entry, the
      heuristic's choice among the nodes found, and links both ways. */
  ghost predicate Worked(g: Index, dist: seq<int>, ef: nat, cap: nat, id: nat, t: Trail,
                         before: seq<seq<int>>, after: seq<seq<int>>) {
    && Outcome(Space(before, dist), t.entry, ef, t.found)
    && SortedFrom(t.found, t.sorted) && Usable(g, t.sorted)
    && ConnectedTo(g, before, after, id, IdsOf(Select(g, t.sorted, cap)), cap)
  }

  // ---------- The invariant of one layer ----------

  lemma SortedMembers(items: seq<Item>, sorted: seq<Item>)
    requires SortedFrom(items, sorted)
    ensures |sorted| == |items| && forall x :: x in sorted <==> x in items
    ensures Distinct(items) ==> Distinct(sorted)
  {
    assert |multiset(sorted)| == |sorted| && |multiset(items)| == |items|;
    forall x ensures x in sorted <==> x in items {
      assert x in sorted <==> x in multiset(sorted);
      assert x in items <==> x in multiset(items);
    }
    if Distinct(items) {
      forall x ensures multiset(sorted)[x] <= 1 {
        DistinctCounts(items, x);
      }
      CountsDistinct(sorted);
    }
  }

  /** A selection from distinct sorted candidates: a non-empty sub-list of them. */
  lemma SelectSubset(g: Index, sorted: seq<Item>, cap: nat)
    requires Usable(g, sorted) && cap >= 1
    ensures var r := Select(g, sorted, cap);
            && |r| <= cap && (|sorted| > 0 ==> |r| > 0 && r[0] == sorted[0])
            && (forall x :: x in r ==> x in sorted)
            && (Distinct(sorted) ==> Distinct(r))
  {
    var idx := SelectionIsDiverse(g, sorted, cap);
    var r := Picks(sorted, idx);
    if Distinct(sorted) {
      forall i, j | 0 <= i < j < |r| ensures r[i] != r[j] {
        assert idx[i] < idx[j];
      }
    }
  }

  lemma RelinkedSubset(g: Index, s: nat, row: seq<int>, cap: nat, row': seq<int>)
    requires Relinked(g, s, row, cap, row') && cap >= 1 && |row| > 0
    ensures 0 < |row'| <= cap && forall x :: x in row' ==> x in row
  {
    var items := RowItems(g, s, row);
    var sorted :| ChosenFrom(g, s, row, cap, row', sorted);
    SortedMembers(items, sorted);
    SelectSubset(g, sorted, cap);
    var r := Select(g, sorted, cap);
    forall j | 0 <= j < |row'| ensures row'[j] in row {
      assert r[j] in r;
      assert r[j] in items;
      var k :| 0 <= k < |items| && items[k] == r[j];
      assert row[k] == row'[j];
    }
  }

  lemma RelinkedDistinct(g: Index, s: nat, row: seq<int>, cap: nat, row': seq<int>)
    requires Relinked(g, s, row, cap, row') && cap >= 1
    requires forall i, j :: 0 <= i < j < |row| ==> row[i] != row[j]
    ensures forall i, j :: 0 <= i < j < |row'| ==> row'[i] != row'[j]
  {
    var items := RowItems(g, s, row);
    var sorted :| ChosenFrom(g, s, row, cap, row', sorted);
    SortedMembers(items, sorted);
    SelectSubset(g, sorted, cap);
    var r := Select(g, sorted, cap);
    forall i, j | 0 <= i < j < |row'| ensures row'[i] != row'[j] {
      assert r[i] in r && r[j] in r;
      assert r[i] in items && r[j] in items && r[i] != r[j];
    }
  }

  lemma RelinkedFine(g: Index, s: nat, row: seq<int>, cap: nat, row': seq<int>, members: set<nat>)
    requires Relinked(g, s, row, cap, row') && RowElems(row, s, members) && cap >= 1 && |row| > 0
    ensures RowElems(row', s, members) && 0 < |row'| <= cap
  {
    RelinkedSubset(g, s, row, cap, row');
    RelinkedDistinct(g, s, row, cap, row');
    forall j | 0 <= j < |row'| ensures row'[j] >= 0 && row'[j] in members && row'[j] != s {
      assert row'[j] in row;
    }
  }

  lemma LinkedFine(g: Index, s: nat, row: seq<int>, id: nat, cap: nat, row': seq<int>, members: set<nat>)
    requires Linked(g, s, row, id, cap, row') && RowElems(row, s, members) && |row| <= cap && cap >= 1
    requires id !in members && id != s
    ensures RowElems(row', s, members + {id}) && 0 < |row'| <= cap
  {
    var more := row + [id];
    assert RowElems(more, s, members + {id}) by {
      assert forall j :: 0 <= j < |row| ==> row[j] in members;
    }
    if |row| >= cap {
      RelinkedFine(g, s, more, cap, row', members + {id});
    }
  }

  /** Linking a new node to chosen members keeps the layer well formed, leaves no row
      empty that was not, and gives the new node its chosen neighbours. */
  lemma ConnectedFine(g: Index, before: seq<seq<int>>, after: seq<seq<int>>, id: nat, chosen: seq<int>, cap: nat,
                      members: set<nat>)
    requires LayerFine(before, members, cap) && id !in members && cap >= 1
    requires ConnectedTo(g, before, after, id, chosen, cap)
    requires RowElems(chosen, id, members) && |chosen| <= cap
    ensures LayerFine(after, members + {id}, cap)
    ensures forall v :: v in members && before[v] != [] ==> after[v] != []
    ensures forall v :: v in members && v in chosen ==> after[v] != []
  {
    forall v | 0 <= v < |after|
      ensures if v in members + {id} then RowElems(after[v], v, members + {id}) && |after[v]| <= cap else after[v] == []
      ensures v in members && (before[v] != [] || v in chosen) ==> after[v] != []
    {
      if v != id && v in chosen {
        assert v in members;
        LinkedFine(g, v, before[v], id, cap, after[v], members);
      }
    }
  }

  lemma ReachableMembers(adj: seq<seq<int>>, members: set<nat>, cap: nat, entry: nat, v: nat)
    requires LayerFine(adj, members, cap) && entry in members && Reachable(adj, entry, v)
    ensures v in members
  {
    forall u | u in members ensures Expanded(adj, u, members) {
      assert RowElems(adj[u], u, members);
    }
    var p :| IsWalk(adj, p, entry, v);
    ClosedHoldsWalk(adj, members, p, entry, v);
  }

  /** What was found from a member are members, and so is what was chosen. */
  lemma ChosenAreMembers(g: Index, dist: seq<int>, ef: nat, cap: nat, id: nat, t: Trail,
                         before: seq<seq<int>>, after: seq<seq<int>>, members: set<nat>)
    requires Worked(g, dist, ef, cap, id, t, before, after) && LayerFine(before, members, cap) && cap >= 1
    requires t.entry in members && id !in members
    ensures var chosen := IdsOf(Select(g, t.sorted, cap));
            RowElems(chosen, id, members) && 0 < |chosen| <= cap
    ensures |t.sorted| > 0 && t.sorted[0].id in members
  {
    ChosenElems(g, dist, ef, cap, id, t, before, members);
  }

  lemma ChosenElems(g: Index, dist: seq<int>, ef: nat, cap: nat, id: nat, t: Trail, before: seq<seq<int>>,
                    members: set<nat>)
    requires Outcome(Space(before, dist), t.entry, ef, t.found) && LayerFine(before, members, cap) && cap >= 1
    requires SortedFrom(t.found, t.sorted) && Usable(g, t.sorted)
    requires t.entry in members && id !in members
    ensures var chosen := IdsOf(Select(g, t.sorted, cap));
            RowElems(chosen, id, members) && 0 < |chosen| <= cap
    ensures |t.sorted| > 0 && t.sorted[0].id in members
  {
    OutcomeIsLocallyOptimal(Space(before, dist), t.entry, ef, t.found);
    SortedMembers(t.found, t.sorted);
    SelectSubset(g, t.sorted, cap);
    var r := Select(g, t.sorted, cap);
    forall x | x in t.sorted ensures x.id in members {
      ReachableMembers(before, members, cap, t.entry, x.id);
    }
    assert t.sorted[0] in t.sorted;
    assert Distinct(t.found);
    forall j | 0 <= j < |r| ensures r[j].id in members && r[j].id != id {
      assert r[j] in r;
    }
    forall i, j | 0 <= i < j < |r| ensures r[i].id != r[j].id {
      assert r[i] in r && r[j] in r;
      assert r[i] in t.found && r[j] in t.found && r[i] != r[j];
    }
  }

  // ---------- The whole state ----------

  /** The graph built so far: neighbour lists per layer, the level of every inserted node,
      the entry point.  Nodes are inserted in the order 0, 1, 2, ... */
  datatype Stage = Stage(adj: seq<seq<seq<int>>>, levels: seq<nat>, entry: nat)

  /** Fixed parameters: node capacity, degree caps above and at the base layer, width. */
  datatype Config = Config(n: nat, m: nat, m0: nat, ef: nat) {
    ghost predicate Ok() {
      m >= 1 && m0 >= 1 && ef >= 1
    }

    ghost function Cap(L: nat): nat {
      if L == 0 then m0 else m
    }
  }

  /** The inserted nodes of level at least L. */
  ghost function Members(levels: seq<nat>, L: nat): (s: set<nat>)
    ensures forall i: nat :: i in s <==> i < |levels| && levels[i] >= L
  {
    set i | 0 <= i < |levels| && levels[i] >= L
  }

  ghost predicate LayersSized(st: Stage, n: nat) {
    |st.adj| > 0 && forall L :: 0 <= L < |st.adj| ==> |st.adj[L]| == n
  }

  /** The builder invariant, for at least one inserted node. */
  ghost predicate StageFine(c: Config, st: Stage) {
    && 0 < |st.levels| <= c.n && LayersSized(st, c.n)
    && st.entry < |st.levels| && st.levels[st.entry] == |st.adj| - 1
    && (forall i :: 0 <= i < |st.levels| ==> st.levels[i] <= |st.adj| - 1)
    && (forall L :: 0 <= L < |st.adj| ==> LayerFine(st.adj[L], Members(st.levels, L), c.Cap(L)))
    && (|st.levels| >= 2 ==> forall v :: 0 <= v < |st.levels| ==> st.adj[0][v] != [])
  }

  ghost function NoRows(n: nat): (adj: seq<seq<int>>)
    ensures |adj| == n && forall i :: 0 <= i < n ==> adj[i] == []
  {
    seq(n, i requires 0 <= i < n => [])
  }

  /** The state after the first insertion. */
  ghost predicate First(c: Config, st: Stage) {
    && c.n >= 1 && |st.levels| == 1 && st.entry == 0 && |st.adj| == st.levels[0] + 1
    && forall L :: 0 <= L < |st.adj| ==> st.adj[L] == NoRows(c.n)
  }

  /** Greedy descent from layer L down to the layer above stop. */
  ghost function DescendTo(adj: seq<seq<seq<int>>>, dist: seq<int>, L: nat, stop: nat, cur: nat): (r: nat)
    requires LayersOk(adj, |dist|) && L < |adj| && cur < |dist|
    ensures r < |dist|
    decreases L
  {
    if L <= stop then cur
    else DescendTo(adj, dist, L - 1, stop, Descend(Space(adj[L], dist), cur))
  }

  /** The stops of the descent of an insertion. */
  lemma {:induction false} DescendStops(adj: seq<seq<seq<int>>>, dist: seq<int>, L: nat, stop: nat, cur: nat)
      returns (stops: seq<nat>)
    requires LayersOk(adj, |dist|) && L < |adj| && cur < |dist|
    ensures Descent(adj, dist, L, if stop < L then stop else L, stops)
    ensures stops[0] == cur && stops[|stops| - 1] == DescendTo(adj, dist, L, stop, cur)
    decreases L
  {
    if L <= stop {
      stops := [cur];
    } else {
      var next := Descend(Space(adj[L], dist), cur);
      var rest := DescendStops(adj, dist, L - 1, stop, next);
      stops := [cur] + rest;
      DescendIsClimb(Space(adj[L], dist), cur, next);
      forall i | 0 <= i < L - stop ensures ClimbedOn(adj, dist, L, stops, i) {
        if i > 0 {
          assert ClimbedOn(adj, dist, L - 1, rest, i - 1);
        }
      }
    }
  }

  /** The search on layer L starts at the closest node found on the layer above. */
  ghost predicate Chained(trail: seq<Trail>, L: int)
    requires 0 <= L < |trail| - 1
  {
    |trail[L + 1].sorted| > 0 && trail[L].entry == trail[L + 1].sorted[0].id
  }

  /** One insertion at the given level: greedy descent above it, then work on every layer
      from the level (or the top) down, each starting at the closest node found above. */
  ghost predicate Inserted(c: Config, g: Index, dist: seq<int>, pre: Stage, post: Stage, level: nat,
                           trail: seq<Trail>) {
    var id := |pre.levels|;
    var top := |pre.adj| - 1;
    var topL := if level < top then level else top;
    && id < c.n && g.n == c.n && |g.vectors| == g.n * DIM && |dist| == c.n
    && LayersOk(pre.adj, c.n) && |pre.adj| > 0 && pre.entry < c.n
    && post.levels == pre.levels + [level]
    && post.entry == (if level > top then id else pre.entry)
    && |post.adj| == (if level > top then level + 1 else |pre.adj|)
    && |trail| == topL + 1
    && trail[topL].entry == DescendTo(pre.adj, dist, top, level, pre.entry)
    && (forall L :: 0 <= L < topL ==> Chained(trail, L))
    && (forall L :: 0 <= L <= topL ==> Worked(g, dist, c.ef, c.Cap(L), id, trail[L], pre.adj[L], post.adj[L]))
    && (forall L :: topL < L <= top ==> post.adj[L] == pre.adj[L])
    && (forall L :: top < L < |post.adj| ==> post.adj[L] == NoRows(c.n))
  }

  // ---------- The invariant over runs ----------

  lemma FirstIsFine(c: Config, st: Stage)
    requires c.Ok() && First(c, st)
    ensures StageFine(c, st)
  {
    forall L | 0 <= L < |st.adj| ensures LayerFine(st.adj[L], Members(st.levels, L), c.Cap(L)) {
      assert st.adj[L] == NoRows(c.n);
    }
  }

  lemma FineIsLayersOk(c: Config, st: Stage)
    requires StageFine(c, st)
    ensures LayersOk(st.adj, c.n)
  {
    forall L | 0 <= L < |st.adj| ensures AdjOk(st.adj[L]) {
      var members := Members(st.levels, L);
      assert LayerFine(st.adj[L], members, c.Cap(L));
      forall i | 0 <= i < |st.adj[L]| ensures RowOk(st.adj[L][i], |st.adj[L]|) {
        if i in members {
          assert RowElems(st.adj[L][i], i, members);
        }
      }
    }
  }

  lemma LayerIsClosed(adj: seq<seq<int>>, members: set<nat>, cap: nat)
    requires LayerFine(adj, members, cap)
    ensures Closed(adj, members)
  {
    forall v, j | v in members && v < |adj| && 0 <= j < |adj[v]| && adj[v][j] >= 0 ensures adj[v][j] in members {
      assert RowElems(adj[v], v, members);
    }
  }

  lemma DescendStays(c: Config, st: Stage, dist: seq<int>, L: nat, cur: nat)
    requires StageFine(c, st) && LayersOk(st.adj, |dist|) && |dist| == c.n && 0 < L < |st.adj|
    requires cur < c.n && cur in Members(st.levels, L)
    ensures Descend(Space(st.adj[L], dist), cur) in Members(st.levels, L - 1)
  {
    var members := Members(st.levels, L);
    LayerIsClosed(st.adj[L], members, c.Cap(L));
    DescendEndsAtLocalMinimum(Space(st.adj[L], dist), cur, members);
  }

  /** Descending from a member of layer L ends at a member of every layer passed, and of
      the layer below the last one. */
  lemma {:induction false} DescentStaysOnLayer(c: Config, st: Stage, dist: seq<int>, L: nat, stop: nat, cur: nat)
    requires StageFine(c, st) && LayersOk(st.adj, |dist|) && |dist| == c.n && L < |st.adj|
    requires cur < c.n && cur in Members(st.levels, L)
    ensures DescendTo(st.adj, dist, L, stop, cur) in Members(st.levels, if L < stop then L else stop)
    decreases L
  {
    hide StageFine, Descend;
    if L > stop {
      DescendStays(c, st, dist, L, cur);
      DescentStaysOnLayer(c, st, dist, L - 1, stop, Descend(Space(st.adj[L], dist), cur));
    }
  }

  /** The descent leaves every layer at one of its members. */
  lemma {:induction false} StopsAreMembers(c: Config, st: Stage, dist: seq<int>, stop: nat, stops: seq<nat>, i: nat)
    requires StageFine(c, st) && |dist| == c.n && Descent(st.adj, dist, |st.adj| - 1, stop, stops)
    requires stops[0] == st.entry && i < |st.adj| - 1 - stop
    ensures stops[i + 1] in Members(st.levels, |st.adj| - 1 - i)
    decreases i
  {
    var top := |st.adj| - 1;
    if i > 0 {
      StopsAreMembers(c, st, dist, stop, stops, i - 1);
    }
    assert stops[i] in Members(st.levels, top - i);
    var sp := Space(st.adj[top - i], dist);
    assert ClimbedOn(st.adj, dist, top, stops, i);
    var path :| GreedyPath(sp, path, stops[i], stops[i + 1]);
    LayerIsClosed(sp.adj, Members(st.levels, top - i), c.Cap(top - i));
    PathStays(sp, path, stops[i], stops[i + 1], Members(st.levels, top - i));
  }

  lemma MembersGrow(levels: seq<nat>, level: nat, L: nat)
    ensures Members(levels + [level], L) == Members(levels, L) + if level >= L then {|levels|} else {}
  {
  }

  /** What an insertion says about one layer it works on. */
  lemma LayerFacts(c: Config, g: Index, dist: seq<int>, pre: Stage, post: Stage, level: nat, trail: seq<Trail>, L: nat)
    requires StageFine(c, pre) && Inserted(c, g, dist, pre, post, level, trail) && L < |trail|
    ensures L < |pre.adj| && L < |post.adj| && |pre.levels| !in Members(pre.levels, L)
    ensures Worked(g, dist, c.ef, c.Cap(L), |pre.levels|, trail[L], pre.adj[L], post.adj[L])
    ensures LayerFine(pre.adj[L], Members(pre.levels, L), c.Cap(L))
  {
  }

  /** The descent leaves layer top - i at one of its members, which has no closer neighbour
      there, no farther than where it came in. */
  ghost predicate LeftAtMember(pre: Stage, dist: seq<int>, stops: seq<nat>, i: nat)
    requires LayersOk(pre.adj, |dist|) && i < |pre.adj| && i + 1 < |stops|
  {
    && stops[i + 1] in Members(pre.levels, |pre.adj| - 1 - i)
    && LeavesAtMinimum(pre.adj, dist, |pre.adj| - 1, stops, i)
  }

  lemma StopsLeave(c: Config, pre: Stage, dist: seq<int>, stop: nat, stops: seq<nat>)
    requires StageFine(c, pre) && |dist| == c.n && Descent(pre.adj, dist, |pre.adj| - 1, stop, stops)
    requires stops[0] == pre.entry
    ensures forall i :: 0 <= i < |stops| - 1 ==> LeftAtMember(pre, dist, stops, i)
  {
    hide StageFine;
    forall i | 0 <= i < |stops| - 1 ensures LeftAtMember(pre, dist, stops, i) {
      StopsAreMembers(c, pre, dist, stop, stops, i);
      DescentIsClimbing(pre.adj, dist, |pre.adj| - 1, stop, stops, i);
    }
  }

  lemma DescentOfInsertion(c: Config, g: Index, dist: seq<int>, pre: Stage, post: Stage, level: nat,
                           trail: seq<Trail>)
    requires StageFine(c, pre) && Inserted(c, g, dist, pre, post, level, trail)
    ensures |dist| == c.n && |trail| > 0 && LayersOk(pre.adj, c.n) && |pre.adj| > 0 && pre.entry < c.n
    ensures |trail| - 1 == if level < |pre.adj| - 1 then level else |pre.adj| - 1
    ensures trail[|trail| - 1].entry == DescendTo(pre.adj, dist, |pre.adj| - 1, level, pre.entry)
  {
  }

  lemma TopEntry(c: Config, g: Index, dist: seq<int>, pre: Stage, post: Stage, level: nat, trail: seq<Trail>)
    requires StageFine(c, pre) && Inserted(c, g, dist, pre, post, level, trail)
    ensures |trail| > 0 && trail[|trail| - 1].entry in Members(pre.levels, |trail| - 1)
  {
    hide *;
    EntryIsOnTop(c, pre);
    DescentOfInsertion(c, g, dist, pre, post, level, trail);
    DescentStaysOnLayer(c, pre, dist, |pre.adj| - 1, level, pre.entry);
  }

  lemma EntryIsOnTop(c: Config, st: Stage)
    requires StageFine(c, st)
    ensures |st.adj| > 0 && st.entry in Members(st.levels, |st.adj| - 1)
  {
  }

  /** Phase 1 of an insertion, told without the descent function: from the entry point the
      descent climbs greedily through the layers above the new node's level, leaving each
      at one of its members that has no closer neighbour there, never farther than where it
      came in; the first search starts where the descent ends. */
  lemma InsertionDescends(c: Config, g: Index, dist: seq<int>, pre: Stage, post: Stage, level: nat,
                          trail: seq<Trail>) returns (stops: seq<nat>)
    requires StageFine(c, pre) && Inserted(c, g, dist, pre, post, level, trail)
    ensures |dist| == c.n && |trail| > 0 && |trail| - 1 == if level < |pre.adj| - 1 then level else |pre.adj| - 1
    ensures Descent(pre.adj, dist, |pre.adj| - 1, |trail| - 1, stops)
    ensures stops[0] == pre.entry && stops[|stops| - 1] == trail[|trail| - 1].entry
    ensures forall i :: 0 <= i < |stops| - 1 ==> LeftAtMember(pre, dist, stops, i)
  {
    hide *;
    DescentOfInsertion(c, g, dist, pre, post, level, trail);
    stops := DescendStops(pre.adj, dist, |pre.adj| - 1, level, pre.entry);
    StopsLeave(c, pre, dist, |trail| - 1, stops);
  }

  /** Phase 2: every further search starts at a closest one of the nodes found on the layer
      above. */
  lemma NextSearchStartsClosest(c: Config, g: Index, dist: seq<int>, pre: Stage, post: Stage, level: nat,
                                trail: seq<Trail>, L: nat)
    requires StageFine(c, pre) && Inserted(c, g, dist, pre, post, level, trail) && L + 1 < |trail|
    ensures trail[L].entry < |dist| && Item(trail[L].entry, dist[trail[L].entry]) in trail[L + 1].found
    ensures forall x :: x in trail[L + 1].found ==> x.id < |dist| && dist[trail[L].entry] <= dist[x.id] == x.dist
  {
    LayerFacts(c, g, dist, pre, post, level, trail, L + 1);
    ChainedEntry(c, g, dist, pre, post, level, trail, L);
    hide StageFine, Inserted;
    SortedStartsClosest(Space(pre.adj[L + 1], dist), c.ef, trail[L + 1]);
  }

  lemma SortedStartsClosest(sp: Space, ef: nat, t: Trail)
    requires Outcome(sp, t.entry, ef, t.found) && SortedFrom(t.found, t.sorted)
    ensures |t.sorted| > 0 && t.sorted[0] in t.found
    ensures forall x :: x in t.found ==> x.id < |sp.dist| && t.sorted[0].dist <= sp.dist[x.id] == x.dist
  {
    OutcomeIsLocallyOptimal(sp, t.entry, ef, t.found);
    SortedMembers(t.found, t.sorted);
    hide Outcome;
    assert t.sorted[0] in t.sorted;
    forall x | x in t.found ensures t.sorted[0].dist <= x.dist {
      assert x in t.sorted;
      var k :| 0 <= k < |t.sorted| && t.sorted[k] == x;
    }
  }

  lemma ChainedEntry(c: Config, g: Index, dist: seq<int>, pre: Stage, post: Stage, level: nat, trail: seq<Trail>,
                     L: nat)
    requires StageFine(c, pre) && Inserted(c, g, dist, pre, post, level, trail) && L + 1 < |trail|
    ensures Chained(trail, L)
  {
  }

  lemma {:induction false} EntriesDown(levels: seq<nat>, trail: seq<Trail>, L: nat)
    requires L < |trail| && trail[|trail| - 1].entry in Members(levels, |trail| - 1)
    requires forall K :: 0 <= K < |trail| - 1 && trail[K + 1].entry in Members(levels, K + 1) ==>
              trail[K].entry in Members(levels, K)
    ensures trail[L].entry in Members(levels, L)
    decreases |trail| - L
  {
    if L + 1 < |trail| {
      EntriesDown(levels, trail, L + 1);
    }
  }

  /** Every search of an insertion starts at a member of its layer. */
  lemma TrailEntries(c: Config, g: Index, dist: seq<int>, pre: Stage, post: Stage, level: nat, trail: seq<Trail>,
                     L: nat)
    requires c.Ok() && StageFine(c, pre) && Inserted(c, g, dist, pre, post, level, trail) && L < |trail|
    ensures trail[L].entry in Members(pre.levels, L)
  {
    TopEntry(c, g, dist, pre, post, level, trail);
    forall K | 0 <= K < |trail| - 1 && trail[K + 1].entry in Members(pre.levels, K + 1)
      ensures trail[K].entry in Members(pre.levels, K)
    {
      NextEntry(c, g, dist, pre, post, level, trail, K);
    }
    EntriesDown(pre.levels, trail, L);
  }

  lemma NextEntry(c: Config, g: Index, dist: seq<int>, pre: Stage, post: Stage, level: nat, trail: seq<Trail>, L: nat)
    requires c.Ok() && StageFine(c, pre) && Inserted(c, g, dist, pre, post, level, trail) && L + 1 < |trail|
    requires trail[L + 1].entry in Members(pre.levels, L + 1)
    ensures trail[L].entry in Members(pre.levels, L)
  {
    LayerFacts(c, g, dist, pre, post, level, trail, L + 1);
    FoundOnLayer(c, g, dist, |pre.levels|, trail[L + 1], pre.adj[L + 1], post.adj[L + 1], pre.levels, L + 1);
    ChainedEntry(c, g, dist, pre, post, level, trail, L);
  }

  lemma FoundOnLayer(c: Config, g: Index, dist: seq<int>, id: nat, t: Trail, before: seq<seq<int>>,
                     after: seq<seq<int>>, levels: seq<nat>, L: nat)
    requires c.Ok() && L > 0 && Worked(g, dist, c.ef, c.Cap(L), id, t, before, after)
    requires LayerFine(before, Members(levels, L), c.Cap(L)) && id !in Members(levels, L)
    requires t.entry in Members(levels, L)
    ensures |t.sorted| > 0 && t.sorted[0].id in Members(levels, L - 1)
  {
    ChosenAreMembers(g, dist, c.ef, c.Cap(L), id, t, before, after, Members(levels, L));
  }

  /** The work on one layer keeps it well formed, leaves the new node and the only other
      member with neighbours, and empties no row. */
  lemma WorkKeepsLayer(g: Index, dist: seq<int>, ef: nat, cap: nat, id: nat, t: Trail,
                       before: seq<seq<int>>, after: seq<seq<int>>, members: set<nat>)
    requires Worked(g, dist, ef, cap, id, t, before, after) && LayerFine(before, members, cap) && cap >= 1
    requires t.entry in members && id !in members
    ensures LayerFine(after, members + {id}, cap) && id < |after| && after[id] != []
    ensures forall v :: v in members && (before[v] != [] || members == {v}) ==> after[v] != []
  {
    var chosen := IdsOf(Select(g, t.sorted, cap));
    ChosenAreMembers(g, dist, ef, cap, id, t, before, after, members);
    ConnectedFine(g, before, after, id, chosen, cap, members);
    assert chosen[0] in members;
  }

  lemma WorkedLayerFine(c: Config, g: Index, dist: seq<int>, pre: Stage, post: Stage, level: nat, trail: seq<Trail>,
                        L: nat)
    requires c.Ok() && StageFine(c, pre) && Inserted(c, g, dist, pre, post, level, trail) && L < |trail|
    ensures L < |post.adj| && LayerFine(post.adj[L], Members(post.levels, L), c.Cap(L))
  {
    TrailEntries(c, g, dist, pre, post, level, trail, L);
    LayerFacts(c, g, dist, pre, post, level, trail, L);
    WorkKeepsLayer(g, dist, c.ef, c.Cap(L), |pre.levels|, trail[L], pre.adj[L], post.adj[L], Members(pre.levels, L));
    MembersGrow(pre.levels, level, L);
  }

  /** After two or more insertions every node has an exit at the base layer. */
  lemma NoneStranded(c: Config, g: Index, dist: seq<int>, pre: Stage, post: Stage, level: nat, trail: seq<Trail>,
                     v: nat)
    requires c.Ok() && StageFine(c, pre) && Inserted(c, g, dist, pre, post, level, trail) && v < |post.levels|
    ensures |post.adj| > 0 && v < |post.adj[0]| && post.adj[0][v] != []
  {
    TrailEntries(c, g, dist, pre, post, level, trail, 0);
    LayerFacts(c, g, dist, pre, post, level, trail, 0);
    var members := Members(pre.levels, 0);
    WorkKeepsLayer(g, dist, c.ef, c.Cap(0), |pre.levels|, trail[0], pre.adj[0], post.adj[0], members);
    assert |pre.levels| == 1 ==> members == {0};
    assert v < |pre.levels| ==> v in members;
  }

  lemma OtherLayerFine(c: Config, g: Index, dist: seq<int>, pre: Stage, post: Stage, level: nat, trail: seq<Trail>,
                       L: nat)
    requires c.Ok() && StageFine(c, pre) && Inserted(c, g, dist, pre, post, level, trail) && |trail| <= L < |post.adj|
    ensures LayerFine(post.adj[L], Members(post.levels, L), c.Cap(L)) && |post.adj[L]| == c.n
  {
    hide Worked;
    MembersGrow(pre.levels, level, L);
    if L < |pre.adj| {
      assert LayerFine(pre.adj[L], Members(pre.levels, L), c.Cap(L));
    } else {
      assert Members(pre.levels, L) == {};
    }
  }

  /** Whatever level is drawn, an insertion keeps the builder invariant. */
  lemma InsertKeepsInvariant(c: Config, g: Index, dist: seq<int>, pre: Stage, post: Stage, level: nat,
                             trail: seq<Trail>)
    requires c.Ok() && StageFine(c, pre) && Inserted(c, g, dist, pre, post, level, trail)
    ensures StageFine(c, post)
  {
    forall L | 0 <= L < |post.adj|
      ensures |post.adj[L]| == c.n && LayerFine(post.adj[L], Members(post.levels, L), c.Cap(L))
    {
      if L < |trail| {
        WorkedLayerFine(c, g, dist, pre, post, level, trail, L);
        LayerFacts(c, g, dist, pre, post, level, trail, L);
      } else {
        OtherLayerFine(c, g, dist, pre, post, level, trail, L);
      }
    }
    forall v | 0 <= v < |post.levels| ensures v < |post.adj[0]| && post.adj[0][v] != [] {
      NoneStranded(c, g, dist, pre, post, level, trail, v);
    }
  }

  /** A build: a first insertion, then any number of others with arbitrary vectors and
      levels. */
  ghost predicate BuildRun(c: Config, run: seq<Stage>) {
    && |run| > 0 && First(c, run[0])
    && forall i {:trigger run[i]} :: 0 < i < |run| ==> StepTaken(c, run[i - 1], run[i])
  }

  ghost predicate StepTaken(c: Config, pre: Stage, post: Stage) {
    exists g, dist, level, trail :: Inserted(c, g, dist, pre, post, level, trail)
  }

  lemma OneAtFirst(c: Config, st: Stage)
    requires First(c, st)
    ensures |st.levels| == 1
  {
  }

  lemma OneMore(c: Config, g: Index, dist: seq<int>, pre: Stage, post: Stage, level: nat, trail: seq<Trail>)
    requires Inserted(c, g, dist, pre, post, level, trail)
    ensures |post.levels| == |pre.levels| + 1
  {
    hide Worked;
  }

  /** The builder invariant holds throughout every build. */
  lemma {:induction false} RunKeepsInvariant(c: Config, run: seq<Stage>, i: nat)
    requires c.Ok() && BuildRun(c, run) && i < |run|
    ensures StageFine(c, run[i]) && |run[i].levels| == i + 1
    decreases i
  {
    hide StageFine, Inserted, First;
    if i == 0 {
      FirstIsFine(c, run[0]);
      OneAtFirst(c, run[0]);
    } else {
      RunKeepsInvariant(c, run, i - 1);
      assert StepTaken(c, run[i - 1], run[i]);
      var g, dist, level, trail :| Inserted(c, g, dist, run[i - 1], run[i], level, trail);
      InsertKeepsInvariant(c, g, dist, run[i - 1], run[i], level, trail);
      OneMore(c, g, dist, run[i - 1], run[i], level, trail);
    }
  }
}
