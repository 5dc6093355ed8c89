/** The order in which a search of width ef expands nodes (Algorithm 2 of HNSW, used in
    internal/hnsw/query.go and internal/hnsw/hnsw.go), told by the nodes met alone: a node
    is expanded when fewer than ef of the nodes met are strictly closer and all of those
    have been expanded, until none is left that could be. */
module SearchOrder {
  import opened CandidateHeap
  import opened LayerSearch
  import opened SearchCertificate

  // ---------- The property ----------

  /** The nodes met once those in done have been expanded: the entry and all their
      neighbours. */
  ghost function Met(adj: seq<seq<int>>, entry: nat, done: seq<nat>): set<nat> {
    set v: nat | v < |adj| && (v == entry || Beside(adj, done, v))
  }

  /** v is a neighbour of a node in done. */
  ghost predicate Beside(adj: seq<seq<int>>, done: seq<nat>, v: nat) {
    exists u :: u in done && u < |adj| && v in adj[u]
  }

  /** The nodes of a set strictly closer than distance d. */
  ghost function CloserThan(met: set<nat>, dist: seq<int>, d: int): set<nat> {
    set v | v in met && v < |dist| && dist[v] < d
  }

  ghost function NoFartherThan(met: set<nat>, dist: seq<int>, d: int): set<nat> {
    set v | v in met && v < |dist| && dist[v] <= d
  }

  /** After done, node u may be expanded: met but not expanded yet, fewer than ef met nodes
      are strictly closer, and those have all been expanded. */
  ghost predicate MayExpand(sp: Space, entry: nat, ef: nat, done: seq<nat>, u: nat) {
    var met := Met(sp.adj, entry, done);
    && u < |sp.dist| && u in met && u !in done
    && |CloserThan(met, sp.dist, sp.dist[u])| < ef
    && forall v :: v in CloserThan(met, sp.dist, sp.dist[u]) ==> v in done
  }

  /** Every node was expanded when it might be. */
  ghost predicate BestFirst(sp: Space, entry: nat, ef: nat, done: seq<nat>) {
    forall i :: 0 <= i < |done| ==> MayExpand(sp, entry, ef, done[..i], done[i])
  }

  /** Every node met but not expanded has ef others met that are no farther. */
  ghost predicate Exhausted(sp: Space, entry: nat, ef: nat, done: seq<nat>) {
    var met := Met(sp.adj, entry, done);
    forall v :: v in met && v !in done && v < |sp.dist| ==> |NoFartherThan(met, sp.dist, sp.dist[v]) - {v}| >= ef
  }

  /** seen is what a finished best-first search of width ef has met. */
  ghost predicate Searched(sp: Space, entry: nat, ef: nat, seen: set<nat>) {
    exists done :: BestFirst(sp, entry, ef, done) && Exhausted(sp, entry, ef, done) && seen == Met(sp.adj, entry, done)
  }

  // ---------- What the search keeps ----------

  /** ef results are held, none farther than d. */
  ghost predicate Outranked(res: seq<Item>, ef: nat, d: int) {
    |res| == ef && forall x :: x in res ==> x.dist <= d
  }

  /** Every node met is pending, expanded, or outranked, and those held are not just outranked;
      what is pending is pending once and not expanded. */
  ghost predicate Tracked(sp: Space, ef: nat, seen: set<nat>, cands: multiset<Item>, res: seq<Item>, done: seq<nat>) {
    && (forall v :: v in seen ==>
          v < |sp.dist| && (Item(v, sp.dist[v]) in cands || v in done || Outranked(res, ef, sp.dist[v])))
    && (forall x :: x in cands ==> x.id < |sp.dist| && x.dist == sp.dist[x.id] && x.id in seen && x.id !in done)
    && (forall x :: cands[x] <= 1)
    && (forall x :: x in res ==> x in cands || x.id in done)
  }

  lemma TrackedStart(sp: Space, ef: nat, entry: nat)
    requires SpaceOk(sp) && entry < |sp.dist|
    ensures var x := Item(entry, sp.dist[entry]);
            Tracked(sp, ef, {entry}, multiset{x}, [x], []) && Met(sp.adj, entry, []) == {entry}
  {
  }

  /** A candidate taken out to be expanded. */
  lemma TrackedTake(sp: Space, ef: nat, seen: set<nat>, cands: multiset<Item>, res: seq<Item>, done: seq<nat>, c: Item,
                    rest: multiset<Item>)
    requires Tracked(sp, ef, seen, cands, res, done) && c in cands && cands == rest + multiset{c}
    ensures Tracked(sp, ef, seen, rest, res, done + [c.id])
  {
    assert rest[c] == cands[c] - 1 == 0;
    forall x | x in rest ensures x.id !in done + [c.id] {
      assert x in cands;
    }
    forall x | x in res ensures x in rest || x.id in done + [c.id] {
      if x in cands && x != c {
        assert rest[x] == cands[x];
      }
    }
    forall v | v in seen
      ensures Item(v, sp.dist[v]) in rest || v in done + [c.id] || Outranked(res, ef, sp.dist[v])
    {
      var x := Item(v, sp.dist[v]);
      if x in cands && x != c {
        assert rest[x] == cands[x];
      }
    }
  }

  /** A node met for the first time and admitted: the results held afterwards include no
      farther ones than before. */
  lemma TrackedAdmit(sp: Space, ef: nat, seen: set<nat>, cands: multiset<Item>, res: seq<Item>, done: seq<nat>, x: Item,
                     res': seq<Item>)
    requires Tracked(sp, ef, seen, cands, res, done) && SpaceOk(sp)
    requires x.id < |sp.dist| && x.dist == sp.dist[x.id] && x.id !in seen && forall u :: u in done ==> u in seen
    requires forall d :: Outranked(res, ef, d) ==> Outranked(res', ef, d)
    requires forall y :: y in res' ==> y in res || y == x
    ensures Tracked(sp, ef, seen + {x.id}, cands + multiset{x}, res', done)
  {
    assert x !in cands;
    forall v | v in seen + {x.id}
      ensures v < |sp.dist|
      ensures Item(v, sp.dist[v]) in cands + multiset{x} || v in done || Outranked(res', ef, sp.dist[v])
    {
      if v in seen {
        assert Item(v, sp.dist[v]) in cands || v in done || Outranked(res, ef, sp.dist[v]);
      }
    }
  }

  /** A node met for the first time and not admitted. */
  lemma TrackedReject(sp: Space, ef: nat, seen: set<nat>, cands: multiset<Item>, res: seq<Item>, done: seq<nat>, v: nat)
    requires Tracked(sp, ef, seen, cands, res, done) && v < |sp.dist| && Outranked(res, ef, sp.dist[v])
    ensures Tracked(sp, ef, seen + {v}, cands, res, done)
  {
  }

  // ---------- Steps and the end ----------

  /** The results held are among the nodes met, with their distances, distinct; whatever
      else was met is outranked. */
  ghost predicate Ranked(sp: Space, ef: nat, seen: set<nat>, res: seq<Item>) {
    && 0 < |res| <= ef && (forall x :: x in res ==> x.id < |sp.dist| && x.dist == sp.dist[x.id] && x.id in seen)
    && (forall i, j :: 0 <= i < j < |res| ==> res[i] != res[j])
    && (forall v :: v in seen ==> v < |sp.dist| && (Item(v, sp.dist[v]) in res || Outranked(res, ef, sp.dist[v])))
  }

  ghost function IdsIn(res: seq<Item>): set<nat> {
    set x | x in res :: x.id
  }

  lemma {:induction false} IdsInSize(sp: Space, res: seq<Item>)
    requires forall x :: x in res ==> x.id < |sp.dist| && x.dist == sp.dist[x.id]
    requires forall i, j :: 0 <= i < j < |res| ==> res[i] != res[j]
    ensures |IdsIn(res)| == |res|
  {
    if res == [] {
      assert IdsIn(res) == {};
    } else {
      var front, last := res[..|res| - 1], res[|res| - 1];
      IdsInSize(sp, front);
      assert forall x :: x in res <==> x in front || x == last;
      assert IdsIn(res) == IdsIn(front) + {last.id};
      assert forall x :: x in front ==> x != last;
    }
  }

  /** A closest candidate that is not farther than every result may be expanded. */
  lemma TakenMayExpand(sp: Space, entry: nat, ef: nat, cands: multiset<Item>, res: seq<Item>, done: seq<nat>, c: Item,
                       worst: Item)
    requires Tracked(sp, ef, Met(sp.adj, entry, done), cands, res, done)
    requires Ranked(sp, ef, Met(sp.adj, entry, done), res)
    requires c in cands && (forall x :: x in cands ==> c.dist <= x.dist) && worst in res && c.dist <= worst.dist
    ensures MayExpand(sp, entry, ef, done, c.id)
  {
    var met := Met(sp.adj, entry, done);
    var closer := CloserThan(met, sp.dist, c.dist);
    forall v | v in closer ensures v in IdsIn(res) - {worst.id} && v in done {
      assert Item(v, sp.dist[v]).id == v;
      assert !Outranked(res, ef, sp.dist[v]);
    }
    IdsInSize(sp, res);
    assert worst.id in IdsIn(res);
    CardinalityMonotone(closer, IdsIn(res) - {worst.id});
  }

  /** When no candidate is left, or the closest is farther than ef results, the search is
      exhausted. */
  lemma NothingLeft(sp: Space, entry: nat, ef: nat, cands: multiset<Item>, res: seq<Item>, done: seq<nat>)
    requires Tracked(sp, ef, Met(sp.adj, entry, done), cands, res, done)
    requires Ranked(sp, ef, Met(sp.adj, entry, done), res)
    requires forall x :: x in cands ==> Item(x.id, x.dist) !in res && Outranked(res, ef, x.dist)
    ensures Exhausted(sp, entry, ef, done)
  {
    var met := Met(sp.adj, entry, done);
    forall v | v in met && v !in done && v < |sp.dist| ensures |NoFartherThan(met, sp.dist, sp.dist[v]) - {v}| >= ef {
      assert Outranked(res, ef, sp.dist[v]);
      assert Item(v, sp.dist[v]).id == v && Item(v, sp.dist[v]) !in res;
      IdsInSize(sp, res);
      forall u | u in IdsIn(res) ensures u in NoFartherThan(met, sp.dist, sp.dist[v]) - {v} {
        var x :| x in res && x.id == u;
      }
      CardinalityMonotone(IdsIn(res), NoFartherThan(met, sp.dist, sp.dist[v]) - {v});
    }
  }

  lemma MetGrows(adj: seq<seq<int>>, entry: nat, done: seq<nat>, c: nat, seen: set<nat>)
    requires AdjOk(adj) && c < |adj| && seen == Met(adj, entry, done) + set v: nat | v < |adj| && v in adj[c]
    ensures seen == Met(adj, entry, done + [c])
  {
    forall v: nat | v < |adj| ensures Beside(adj, done + [c], v) <==> Beside(adj, done, v) || v in adj[c] {
      if v in adj[c] {
        assert c in done + [c];
      }
      if u :| u in done && u < |adj| && v in adj[u] {
        assert u in done + [c];
      }
    }
  }

  lemma BestFirstGrows(sp: Space, entry: nat, ef: nat, done: seq<nat>, c: nat)
    requires BestFirst(sp, entry, ef, done) && MayExpand(sp, entry, ef, done, c)
    ensures BestFirst(sp, entry, ef, done + [c])
  {
    var more := done + [c];
    forall i | 0 <= i < |more| ensures MayExpand(sp, entry, ef, more[..i], more[i]) {
      assert more[..i] == done[..i];
    }
  }

  // ---------- The search at layer 0 ----------

  ghost function Neighbors(nbs: seq<int>): set<nat> {
    set v: nat | v in nbs
  }

  /** Going through a list meets its nodes. */
  lemma {:induction false} ExpandMeets(sp: Space, nbs: seq<int>, s: Search)
    requires SpaceOk(sp) && RowOk(nbs, |sp.dist|) && s.Ok(|sp.dist|)
    ensures Expand(sp, nbs, s).seen == s.seen + Neighbors(nbs)
    decreases |nbs|
  {
    if nbs == [] {
      assert Neighbors(nbs) == {};
    } else {
      ExpandMeets(sp, nbs[1..], Visit(sp, nbs[0], s));
      assert Neighbors(nbs) == Neighbors(nbs[1..]) + if nbs[0] >= 0 then {nbs[0] as nat} else {};
    }
  }

  lemma InvIsRanked(sp: Space, entry: nat, s: Search, busy: set<nat>)
    requires Inv(sp, entry, s, busy)
    ensures Ranked(sp, EF, s.seen, s.res)
  {
    forall v | v in s.seen ensures v < |sp.dist| && (Item(v, sp.dist[v]) in s.res || Outranked(s.res, EF, sp.dist[v])) {
    }
  }

  lemma AdmitTracked(sp: Space, s: Search, x: Item, done: seq<nat>)
    requires SpaceOk(sp) && ResultsOk(sp, s) && CandsOk(sp, s)
    requires Tracked(sp, EF, s.seen, multiset(s.cands), s.res, done)
    requires x.id < |sp.dist| && x.dist == sp.dist[x.id] && x.id !in s.seen && forall u :: u in done ==> u in s.seen
    ensures var r := Admit(s, x);
            Tracked(sp, EF, r.seen, multiset(r.cands), r.res, done)
  {
    var r := Admit(s, x);
    PushMinKeepsHeap(s.cands, x);
    if |s.res| < EF {
      TrackedAdmit(sp, EF, s.seen, multiset(s.cands), s.res, done, x, r.res);
    } else if x.dist < s.res[s.worst].dist {
      assert s.res[s.worst] in s.res;
      TrackedAdmit(sp, EF, s.seen, multiset(s.cands), s.res, done, x, r.res);
    } else {
      TrackedReject(sp, EF, s.seen, multiset(s.cands), s.res, done, x.id);
    }
  }

  lemma {:induction false} ExpandTracked(sp: Space, entry: nat, nbs: seq<int>, s: Search, busy: set<nat>,
                                         done: seq<nat>)
    requires Inv(sp, entry, s, busy) && RowOk(nbs, |sp.dist|)
    requires forall j :: 0 <= j < |nbs| && nbs[j] >= 0 ==> Reachable(sp.adj, entry, nbs[j])
    requires Tracked(sp, EF, s.seen, multiset(s.cands), s.res, done) && forall u :: u in done ==> u in s.seen
    ensures var r := Expand(sp, nbs, s);
            Tracked(sp, EF, r.seen, multiset(r.cands), r.res, done)
    decreases |nbs|
  {
    if nbs != [] {
      var next := Visit(sp, nbs[0], s);
      VisitKeepsInv(sp, entry, nbs[0], s, busy);
      if nbs[0] >= 0 && nbs[0] !in s.seen {
        AdmitTracked(sp, s, Item(nbs[0], sp.dist[nbs[0]]), done);
      }
      hide Tracked, Inv, Reachable;
      ExpandTracked(sp, entry, nbs[1..], next, busy, done);
    }
  }

  /** The early stop leaves nothing that might be expanded. */
  lemma StopIsExhausted(sp: Space, entry: nat, s: Search, done: seq<nat>)
    requires Inv(sp, entry, s, {}) && Tracked(sp, EF, s.seen, multiset(s.cands), s.res, done)
    requires s.seen == Met(sp.adj, entry, done)
    requires s.cands == [] || s.cands[0].dist > s.res[s.worst].dist
    ensures Exhausted(sp, entry, EF, done)
  {
    InvIsRanked(sp, entry, s, {});
    if s.cands != [] {
      PopKeepsInv(sp, entry, s);
      var c := s.cands[0];
      assert c in s.cands && c !in s.res;
      assert |s.res| == EF;
      forall x | x in multiset(s.cands) ensures x !in s.res && Outranked(s.res, EF, x.dist) {
        assert c.dist <= x.dist;
      }
    }
    NothingLeft(sp, entry, EF, multiset(s.cands), s.res, done);
  }

  /** The state of the loop after the nodes in done have been expanded. */
  ghost predicate Going(sp: Space, entry: nat, s: Search, done: seq<nat>) {
    && Inv(sp, entry, s, {}) && Tracked(sp, EF, s.seen, multiset(s.cands), s.res, done)
    && s.seen == Met(sp.adj, entry, done) && BestFirst(sp, entry, EF, done) && forall u :: u in done ==> u in s.seen
  }

  lemma TakeRoot(sp: Space, entry: nat, s: Search, done: seq<nat>)
    requires Going(sp, entry, s, done) && s.cands != [] && s.cands[0].dist <= s.res[s.worst].dist
    ensures s.cands[0].id < |sp.dist| && s.cands[0].id in s.seen && Inv(sp, entry, Popped(s), {s.cands[0].id})
    ensures MayExpand(sp, entry, EF, done, s.cands[0].id)
    ensures Tracked(sp, EF, s.seen, multiset(PopMin(s.cands)), s.res, done + [s.cands[0].id])
  {
    var c := s.cands[0];
    InvIsRanked(sp, entry, s, {});
    PopKeepsInv(sp, entry, s);
    PopMinKeepsHeap(s.cands);
    assert c in s.cands && s.res[s.worst] in s.res;
    assert forall x :: x in multiset(s.cands) ==> x in s.cands;
    hide Inv, Tracked, Ranked;
    TakenMayExpand(sp, entry, EF, multiset(s.cands), s.res, done, c, s.res[s.worst]);
    TrackedTake(sp, EF, s.seen, multiset(s.cands), s.res, done, c, multiset(PopMin(s.cands)));
  }

  /** Going through the neighbours of the node taken. */
  lemma RowTracked(sp: Space, entry: nat, t: Search, c: nat, done: seq<nat>)
    requires Inv(sp, entry, t, {c}) && c in t.seen && c < |sp.dist| && forall u :: u in done ==> u in t.seen
    requires Tracked(sp, EF, t.seen, multiset(t.cands), t.res, done)
    ensures SpaceOk(sp) && t.Ok(|sp.dist|)
    ensures var r := Expand(sp, sp.adj[c], t);
            && Tracked(sp, EF, r.seen, multiset(r.cands), r.res, done)
            && r.seen == t.seen + Neighbors(sp.adj[c]) && AdjOk(sp.adj)
  {
    var row := sp.adj[c];
    forall j | 0 <= j < |row| && row[j] >= 0 ensures Reachable(sp.adj, entry, row[j]) {
      ReachableStep(sp.adj, entry, c, j);
    }
    ExpandTracked(sp, entry, row, t, {c}, done);
    ExpandMeets(sp, row, t);
  }

  lemma GoingMeets(sp: Space, entry: nat, s: Search, done: seq<nat>)
    requires Going(sp, entry, s, done)
    ensures Inv(sp, entry, s, {}) && s.seen == Met(sp.adj, entry, done) && BestFirst(sp, entry, EF, done)
    ensures forall u :: u in done ==> u in s.seen
  {
  }

  /** One expansion of the loop. */
  lemma ExpansionGoesOn(sp: Space, entry: nat, s: Search, done: seq<nat>)
    requires Going(sp, entry, s, done) && s.cands != [] && s.cands[0].dist <= s.res[s.worst].dist
    ensures var c := s.cands[0].id;
            c < |sp.dist| && Popped(s).Ok(|sp.dist|) && Going(sp, entry, Expand(sp, sp.adj[c], Popped(s)), done + [c])
  {
    hide Going, Inv, Tracked, BestFirst, MayExpand, Met, Expand, PopMin, SpaceOk, AdjOk;
    var c := s.cands[0].id;
    GoingMeets(sp, entry, s, done);
    TakeRoot(sp, entry, s, done);
    IterationKeepsInv(sp, entry, s);
    BestFirstGrows(sp, entry, EF, done, c);
    RowTracked(sp, entry, Popped(s), c, done + [c]);
    MetGrows(sp.adj, entry, done, c, s.seen + Neighbors(sp.adj[c]));
    AreGoing(sp, entry, Expand(sp, sp.adj[c], Popped(s)), done + [c]);
  }

  lemma AreGoing(sp: Space, entry: nat, s: Search, done: seq<nat>)
    requires Inv(sp, entry, s, {}) && Tracked(sp, EF, s.seen, multiset(s.cands), s.res, done)
    requires s.seen == Met(sp.adj, entry, done) && BestFirst(sp, entry, EF, done)
    requires forall u :: u in done ==> u in s.seen
    ensures Going(sp, entry, s, done)
  {
  }

  lemma RunUnfolds(sp: Space, s: Search)
    requires SpaceOk(sp) && s.Ok(|sp.dist|)
    ensures s.cands == [] || s.cands[0].dist > s.res[s.worst].dist ==> Run(sp, s).seen == s.seen
    ensures s.cands != [] && s.cands[0].dist <= s.res[s.worst].dist ==>
              && s.cands[0].id < |sp.dist| && Popped(s).Ok(|sp.dist|)
              && Run(sp, s) == Run(sp, Expand(sp, sp.adj[s.cands[0].id], Popped(s)))
  {
    if s.cands != [] {
      assert s.cands[0] in s.cands;
      PoppedOk(s, |sp.dist|);
    }
  }

  lemma GoingIsOk(sp: Space, entry: nat, s: Search, done: seq<nat>)
    requires Going(sp, entry, s, done)
    ensures SpaceOk(sp) && s.Ok(|sp.dist|) && s.seen == Met(sp.adj, entry, done) && BestFirst(sp, entry, EF, done)
    ensures s.cands == [] || s.cands[0].dist > s.res[s.worst].dist ==> Exhausted(sp, entry, EF, done)
  {
    if s.cands == [] || s.cands[0].dist > s.res[s.worst].dist {
      StopIsExhausted(sp, entry, s, done);
    }
  }

  lemma {:induction false} RunIsBestFirst(sp: Space, entry: nat, s: Search, done: seq<nat>) returns (all: seq<nat>)
    requires Going(sp, entry, s, done)
    ensures SpaceOk(sp) && s.Ok(|sp.dist|)
    ensures BestFirst(sp, entry, EF, all) && Exhausted(sp, entry, EF, all)
    ensures Run(sp, s).seen == Met(sp.adj, entry, all)
    decreases |Ids(|sp.dist|) - s.seen|, |s.cands|
  {
    GoingIsOk(sp, entry, s, done);
    RunUnfolds(sp, s);
    hide Going, Run, Expand, BestFirst, Exhausted, Met, SpaceOk;
    if s.cands == [] || s.cands[0].dist > s.res[s.worst].dist {
      all := done;
    } else {
      RunProgress(sp, s);
      ExpansionGoesOn(sp, entry, s, done);
      all := RunIsBestFirst(sp, entry, Expand(sp, sp.adj[s.cands[0].id], Popped(s)), done + [s.cands[0].id]);
    }
  }

  /** The search at layer 0 meets exactly what a best-first search of width ten meets. */
  lemma SearchIsBestFirst(sp: Space, entry: nat)
    requires SpaceOk(sp) && entry < |sp.dist|
    ensures Searched(sp, entry, EF, SearchFrom(sp, entry).seen)
  {
    StartInv(sp, entry);
    TrackedStart(sp, EF, entry);
    var all := RunIsBestFirst(sp, entry, Start(sp, entry), []);
  }
}
