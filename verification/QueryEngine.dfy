/** The query engine (internal/hnsw/query.go): a worker's reusable buffers and the three
    phases of QueryFast5, updating them in place. */
module QueryEngine {
  import opened Distance
  import opened CandidateHeap
  import opened LayerSearch
  import opened GreedyClimbs
  import opened SearchCertificate
  import opened TopFive
  import opened Network
  import opened GraphIndex

  /** Parallel arrays as a sequence of items. */
  ghost function Pairs(ids: seq<nat>, dists: seq<int>, k: nat): (r: seq<Item>)
    requires k <= |ids| && k <= |dists|
    ensures |r| == k && forall i :: 0 <= i < k ==> r[i] == Item(ids[i], dists[i])
  {
    seq(k, i requires 0 <= i < k => Item(ids[i], dists[i]))
  }

  /** One worker's buffers.  marks[id] == gen means that id has been met in the current
      query; the first resCnt cells of resIDs and resDists are the results held. */
  class VisitSlot {
    const marks: array<Byte>
    var gen: Byte
    const cands: Heap
    const resIDs: array<nat>
    const resDists: array<int>
    var resCnt: nat
    var resWorstD: int
    var resWorstI: nat

    /** The objects a query may write, besides the current candidate buffer. */
    ghost predicate Shape()
      reads this, cands
    {
      && resIDs.Length == EF && resDists.Length == EF && resCnt <= EF
      && resIDs as object != marks as object && resIDs as object != cands.items as object
      && resDists as object != resIDs as object
      && cands.Valid()
    }

    /** Between queries no mark is ahead of the generation counter. */
    ghost predicate Valid()
      reads this, cands, marks
    {
      Shape() && forall v :: 0 <= v < marks.Length ==> marks[v] <= gen
    }

    ghost function Results(): (r: seq<Item>)
      requires Shape()
      reads this, cands, resIDs, resDists
      ensures |r| == resCnt
      ensures forall i :: 0 <= i < resCnt ==> r[i] == Item(resIDs[i], resDists[i])
    {
      Pairs(resIDs[..], resDists[..], resCnt)
    }

    ghost function Seen(): (s: set<nat>)
      reads this, marks
      ensures forall v: nat :: v in s <==> v < marks.Length && marks[v] == gen
    {
      set v: nat | v < marks.Length && marks[v] == gen
    }

    /** The search state the buffers stand for. */
    ghost function State(): Search
      requires Shape()
      reads this, marks, cands, cands.items, resIDs, resDists
    {
      Search(Seen(), cands.Contents(), Results(), resWorstI)
    }

    /** During a search: the tracked worst result is what it says. */
    ghost predicate Searching()
      reads this, cands, marks, resDists
    {
      Valid() && resWorstI < resCnt && resWorstD == resDists[resWorstI]
    }

    constructor (n: nat)
      ensures Valid() && fresh(marks) && fresh(cands) && fresh(cands.items)
      ensures fresh(resIDs) && fresh(resDists)
      ensures marks.Length == n
    {
      marks := new Byte[n](_ => 0);
      gen := 0;
      cands := new Heap(1024);
      resIDs := new nat[EF](_ => 0);
      resDists := new int[EF](_ => 0);
      resCnt := 0;
      resWorstD := 0;
      resWorstI := 0;
    }

    /** A new generation: afterwards no node counts as met, whatever the marks held. */
    method BumpGeneration()
      requires Valid()
      modifies this`gen, marks
      ensures Valid() && Seen() == {}
    {
      gen := (gen + 1) % 256;
      if gen == 0 {
        for i := 0 to marks.Length
          invariant forall v :: 0 <= v < i ==> marks[v] == 0
        {
          marks[i] := 0;
        }
        gen := 1;
      }
    }

    /** The results start with the entry. */
    method Begin(entry: nat, d0: int)
      requires Valid() && entry < marks.Length
      modifies this, marks, cands, cands.items, resIDs, resDists
      ensures Searching() && (cands.items == old(cands.items) || fresh(cands.items))
      ensures State() == Search({entry}, PushMin([], Item(entry, d0)), [Item(entry, d0)], 0)
    {
      BumpGeneration();
      cands.Clear();
      marks[entry] := gen;
      assert Seen() == {entry};
      cands.Push(Item(entry, d0));
      resIDs[0] := entry;
      resDists[0] := d0;
      resCnt := 1;
      resWorstD := d0;
      resWorstI := 0;
    }

    /** A node met for the first time: mark it, and keep it if it is among the ten closest
        so far. */
    method Meet(n: nat, d: int)
      requires Searching() && n < marks.Length && marks[n] != gen
      modifies this`resCnt, this`resWorstD, this`resWorstI, marks, cands, cands.items, resIDs, resDists
      ensures Searching() && (cands.items == old(cands.items) || fresh(cands.items))
      ensures State() == Admit(old(State()), Item(n, d))
    {
      hide PushMin;
      marks[n] := gen;
      assert Seen() == old(Seen()) + {n};
      if resCnt < EF {
        AddResult(n, d);
        cands.Push(Item(n, d));
      } else if d < resWorstD {
        ReplaceWorst(n, d);
        cands.Push(Item(n, d));
      }
    }

    method AddResult(n: nat, d: int)
      requires Searching() && resCnt < EF
      modifies this`resCnt, this`resWorstD, this`resWorstI, resIDs, resDists
      ensures Searching()
      ensures Results() == old(Results()) + [Item(n, d)]
      ensures resWorstI == if d > old(resDists[resWorstI]) then old(resCnt) else old(resWorstI)
    {
      resIDs[resCnt] := n;
      resDists[resCnt] := d;
      if d > resWorstD || resCnt == 0 {
        resWorstD := d;
        resWorstI := resCnt;
      }
      resCnt := resCnt + 1;
    }

    method ReplaceWorst(n: nat, d: int)
      requires Searching() && resCnt == EF
      modifies this`resWorstD, this`resWorstI, resIDs, resDists
      ensures Searching()
      ensures Results() == old(Results())[old(resWorstI) := Item(n, d)]
      ensures resWorstI == WorstFrom(Results(), 1, 0)
    {
      resIDs[resWorstI] := n;
      resDists[resWorstI] := d;
      assert Results() == old(Results())[resWorstI := Item(n, d)];
      RescanWorst();
    }

    /** Take the root of the candidate heap. */
    method TakeClosest() returns (c: Item)
      requires Searching() && cands.len > 0
      modifies cands, cands.items
      ensures Searching() && cands.items == old(cands.items)
      ensures State() == Popped(old(State())) && c == old(cands.Contents())[0]
    {
      c := cands.items[0];
      cands.Pop();
    }

    /** Re-scan for the farthest of the ten results. */
    method RescanWorst()
      requires Valid() && resCnt == EF
      modifies this`resWorstD, this`resWorstI
      ensures Searching()
      ensures resWorstI == WorstFrom(Results(), 1, 0)
    {
      var worstD := resDists[0];
      var worstI := 0;
      for i := 1 to EF
        invariant 0 <= worstI < i && worstD == resDists[worstI]
        invariant forall k :: 0 <= k < i ==> resDists[k] <= resDists[worstI]
        invariant WorstFrom(Results(), i, worstI) == WorstFrom(Results(), 1, 0)
      {
        if resDists[i] > worstD {
          worstD := resDists[i];
          worstI := i;
        }
      }
      resWorstD := worstD;
      resWorstI := worstI;
    }
  }

  // ---------- The three phases ----------

  /** The base layer as the query q sees it. */
  ghost function Base(g: Index, q: seq<int>): (sp: Space)
    requires g.WellFormed() && |q| == DIM
    ensures SpaceOk(sp) && |sp.dist| == g.n
    ensures forall id :: 0 <= id < g.n ==> sp.adj[id] == g.Layer0Neighbors(id) && sp.dist[id] == Dist(q, g.VectorAt(id))
  {
    g.NetIsOk();
    assert AdjOk(g.Layered().layers[0]);
    At(g.Layered(), g.Distances(q), 0)
  }

  /** Upper layer L as the query q sees it. */
  ghost function Upper(g: Index, q: seq<int>, L: nat): (sp: Space)
    requires g.WellFormed() && |q| == DIM && 1 <= L <= g.maxLayer
    ensures SpaceOk(sp) && |sp.dist| == g.n
    ensures forall id :: 0 <= id < g.n ==>
              sp.adj[id] == g.UpperNeighbors(id, L) && sp.dist[id] == Dist(q, g.VectorAt(id))
  {
    g.NetIsOk();
    assert AdjOk(g.Layered().layers[L]);
    At(g.Layered(), g.Distances(q), L)
  }

  /** One pass over the neighbours of a node. */
  method ClimbOnce(g: Index, q: seq<int>, nbs: seq<int>, from: nat, ghost sp: Space)
      returns (current: nat, improved: bool)
    requires |g.vectors| == g.n * DIM && |q| == DIM && from < g.n
    requires SpaceOk(sp) && |sp.dist| == g.n && RowOk(nbs, g.n)
    requires forall id :: 0 <= id < g.n ==> sp.dist[id] == Dist(q, g.VectorAt(id))
    ensures current == Scan(sp, nbs, from)
    ensures improved <==> sp.dist[current] < sp.dist[from]
  {
    current := from;
    var bestDist := Dist(q, g.VectorAt(current));
    improved := false;
    for i := 0 to |nbs|
      invariant current < g.n && bestDist == sp.dist[current] <= sp.dist[from]
      invariant Scan(sp, nbs[i..], current) == Scan(sp, nbs, from)
      invariant improved <==> sp.dist[current] < sp.dist[from]
    {
      var nb := nbs[i];
      assert nbs[i..][1..] == nbs[i + 1..];
      if nb < 0 {
        continue;
      }
      var d := Dist(q, g.VectorAt(nb));
      if d < bestDist {
        bestDist := d;
        current := nb;
        improved := true;
      }
    }
  }

  /** Hill climbing on upper layer L until no neighbour is strictly closer. */
  method GreedyDescendUpper(g: Index, q: seq<int>, entry: nat, L: nat) returns (current: nat)
    requires g.WellFormed() && |q| == DIM && entry < g.n && 1 <= L <= g.maxLayer
    ensures current == Descend(Upper(g, q, L), entry) && ClimbsTo(Upper(g, q, L), entry, current)
  {
    ghost var sp := Upper(g, q, L);
    DescendIsClimb(sp, entry, Descend(sp, entry));
    current := entry;
    while true
      invariant current < g.n && Descend(sp, current) == Descend(sp, entry)
      decreases |Closer(sp, current)|
    {
      var nbs := UpperNeighborsOf(g, current, L);
      assert nbs == sp.adj[current] && RowOk(nbs, g.n);
      var next, improved := ClimbOnce(g, q, nbs, current, sp);
      if !improved {
        return;
      }
      CloserShrinks(sp, current, next);
      current := next;
    }
  }

  /** Go through the neighbours of one candidate. */
  method ExpandCandidate(g: Index, q: seq<int>, id: nat, slot: VisitSlot)
    requires g.WellFormed() && |q| == DIM && id < g.n
    requires slot.Searching() && slot.marks.Length == g.n && slot.State().Ok(g.n)
    modifies slot`resCnt, slot`resWorstD, slot`resWorstI
    modifies slot.marks, slot.cands, slot.cands.items, slot.resIDs, slot.resDists
    ensures slot.Searching() && (slot.cands.items == old(slot.cands.items) || fresh(slot.cands.items))
    ensures slot.State() == Expand(Base(g, q), g.Layer0Neighbors(id), old(slot.State()))
  {
    ghost var sp := Base(g, q);
    var nbs := g.Layer0Neighbors(id);
    assert nbs == sp.adj[id] && RowOk(nbs, g.n);
    for i := 0 to |nbs|
      invariant slot.Searching() && (slot.cands.items == old(slot.cands.items) || fresh(slot.cands.items))
      invariant slot.State().Ok(g.n)
      invariant Expand(sp, nbs[i..], slot.State()) == Expand(sp, nbs, old(slot.State()))
    {
      var nb := nbs[i];
      assert nbs[i..][1..] == nbs[i + 1..];
      if nb < 0 || slot.marks[nb] == slot.gen {
        continue;
      }
      var d := Dist(q, g.VectorAt(nb));
      slot.Meet(nb, d);
    }
  }

  /** One iteration of the search loop; `stop` is its early termination. */
  method ExpandClosest(g: Index, q: seq<int>, slot: VisitSlot) returns (stop: bool)
    requires g.WellFormed() && |q| == DIM
    requires slot.Searching() && slot.marks.Length == g.n && slot.State().Ok(g.n) && slot.cands.len > 0
    modifies slot`resCnt, slot`resWorstD, slot`resWorstI
    modifies slot.marks, slot.cands, slot.cands.items, slot.resIDs, slot.resDists
    ensures slot.Searching() && (slot.cands.items == old(slot.cands.items) || fresh(slot.cands.items))
    ensures slot.State().Ok(g.n)
    ensures stop ==> slot.State() == Run(Base(g, q), old(slot.State()))
    ensures !stop ==> Run(Base(g, q), slot.State()) == Run(Base(g, q), old(slot.State()))
    ensures !stop ==> |Ids(g.n) - slot.Seen()| <= |Ids(g.n) - old(slot.Seen())|
    ensures !stop ==> |Ids(g.n) - slot.Seen()| < |Ids(g.n) - old(slot.Seen())| || slot.cands.len < old(slot.cands.len)
  {
    ghost var sp := Base(g, q);
    ghost var before := slot.State();
    assert before.cands[0] in before.cands;
    PoppedOk(before, g.n);
    RunProgress(sp, before);
    hide Index.WellFormed, Expand, Search.Ok;
    var c := slot.TakeClosest();
    stop := c.dist > slot.resWorstD;
    if !stop {
      ExpandCandidate(g, q, c.id, slot);
    }
  }

  /** The width-10 search at layer 0: whatever the slot was used for before, it ends in
      the state the search function gives for this graph, query and entry. */
  method SearchLayer0Fast(g: Index, q: seq<int>, entry: nat, slot: VisitSlot)
    requires g.WellFormed() && |q| == DIM && entry < g.n
    requires slot.Valid() && slot.marks.Length == g.n
    modifies slot, slot.marks, slot.cands, slot.cands.items, slot.resIDs, slot.resDists
    ensures slot.Valid() && (slot.cands.items == old(slot.cands.items) || fresh(slot.cands.items))
    ensures slot.State() == SearchFrom(Base(g, q), entry)
  {
    ghost var sp := Base(g, q);
    slot.Begin(entry, Dist(q, g.VectorAt(entry)));
    assert slot.State() == Start(sp, entry);
    var stop := false;
    while !stop && slot.cands.len > 0
      invariant slot.Searching() && (slot.cands.items == old(slot.cands.items) || fresh(slot.cands.items))
      invariant slot.State().Ok(g.n)
      invariant stop ==> slot.State() == SearchFrom(sp, entry)
      invariant !stop ==> Run(sp, slot.State()) == SearchFrom(sp, entry)
      decreases !stop, |Ids(g.n) - slot.Seen()|, slot.cands.len
    {
      stop := ExpandClosest(g, q, slot);
    }
  }

  ghost predicate Picked(taken: seq<bool>, picked: set<nat>) {
    |taken| == EF && forall i :: 0 <= i < EF ==> (taken[i] <==> i in picked)
  }

  /** One round of selection: the closest free result, or padding with id 0. */
  method PickOne(slot: VisitSlot, out: array<nat>, pick: nat, taken: array<bool>, ghost picked: set<nat>)
      returns (bestI: int)
    requires slot.Shape() && out != slot.resIDs && pick < out.Length && Picked(taken[..], picked)
    modifies out, taken
    ensures slot.Shape() && slot.Results() == old(slot.Results())
    ensures bestI == Best(slot.Results(), picked) < slot.resCnt
    ensures out[..] == old(out[..])[pick := if bestI < 0 then 0 else slot.Results()[bestI].id]
    ensures Picked(taken[..], if bestI < 0 then picked else picked + {bestI})
  {
    bestI := ClosestFree(slot, taken, picked);
    if bestI < 0 {
      out[pick] := 0;
    } else {
      out[pick] := slot.resIDs[bestI];
      taken[bestI] := true;
    }
  }

  /** Cells before `pick` hold the ids of `done`, then padding; the rounds still to come
      are those left of `order`. */
  ghost predicate Rounds(res: seq<Item>, out: seq<nat>, pick: nat, k: nat, done: seq<nat>, picked: set<nat>) {
    && |done| <= pick <= k <= |out|
    && done + Order(res, picked, k - pick) == Order(res, {}, k)
    && (|done| < pick ==> Order(res, picked, k - pick) == [])
    && (forall i :: 0 <= i < |done| ==> done[i] < |res| && out[i] == res[done[i]].id)
    && (forall i :: |done| <= i < pick ==> out[i] == 0)
  }

  lemma NextRound(res: seq<Item>, out: seq<nat>, pick: nat, k: nat, done: seq<nat>, picked: set<nat>)
    requires Rounds(res, out, pick, k, done, picked) && pick < k
    ensures var b := Best(res, picked);
            && b < |res|
            && (b < 0 ==> Rounds(res, out[pick := 0], pick + 1, k, done, picked))
            && (b >= 0 ==> Rounds(res, out[pick := res[b].id], pick + 1, k, done + [b], picked + {b}))
  {
    BestIsClosest(res, picked);
    var b := Best(res, picked);
    if b >= 0 {
      var rest := Order(res, picked + {b}, k - pick - 1);
      assert Order(res, picked, k - pick) == [b] + rest;
      assert done + ([b] + rest) == done + [b] + rest;
    }
  }

  /** As many rounds of selection as there are output cells. */
  method PickRounds(slot: VisitSlot, out: array<nat>)
    requires slot.Shape() && out != slot.resIDs
    modifies out
    ensures slot.Shape() && slot.Results() == old(slot.Results())
    ensures var order := Order(slot.Results(), {}, out.Length);
            forall i :: 0 <= i < out.Length ==> out[i] == if i < |order| then slot.Results()[order[i]].id else 0
  {
    ghost var res := slot.Results();
    ghost var done: seq<nat> := [];
    ghost var picked: set<nat> := {};
    var taken := new bool[EF](_ => false);
    for pick := 0 to out.Length
      invariant slot.Shape() && slot.Results() == res && fresh(taken)
      invariant Picked(taken[..], picked)
      invariant Rounds(res, out[..], pick, out.Length, done, picked)
    {
      NextRound(res, out[..], pick, out.Length, done, picked);
      var bestI := PickOne(slot, out, pick, taken, picked);
      if bestI >= 0 {
        picked, done := picked + {bestI}, done + [bestI];
      }
    }
    assert Order(res, {}, out.Length) == done;
  }

  /** Selection of the five closest results. */
  method Top5FromResults(slot: VisitSlot, out: array<nat>)
    requires slot.Shape() && out.Length == 5 && out != slot.resIDs
    modifies out
    ensures out[..] == Top5(old(slot.Results()))
  {
    PickRounds(slot, out);
  }

  /** First closest result not taken, or -1. */
  method ClosestFree(slot: VisitSlot, taken: array<bool>, ghost picked: set<nat>) returns (bestI: int)
    requires slot.Shape() && Picked(taken[..], picked)
    ensures bestI == Best(slot.Results(), picked) < slot.resCnt
  {
    bestI := -1;
    var bestD := 0;
    for i := 0 to slot.resCnt
      invariant bestI < i && (bestI >= 0 ==> bestD == slot.resDists[bestI])
      invariant BestFrom(slot.Results(), picked, i, bestI) == Best(slot.Results(), picked)
    {
      if taken[i] {
        continue;
      }
      if bestI < 0 || slot.resDists[i] < bestD {
        bestI := i;
        bestD := slot.resDists[i];
      }
    }
  }

  /** The five ids a graph answers to a query: a function of the graph and the query. */
  ghost function Answer(g: Index, q: seq<int>): (out: seq<nat>)
    requires g.WellFormed() && |q| == DIM
    ensures |out| == 5 && forall i :: 0 <= i < 5 ==> out[i] < g.n
  {
    g.NetIsOk();
    AnswerInRange(g.Layered(), g.Distances(q));
    Query5(g.Layered(), g.Distances(q))
  }

  lemma AnswerInRange(net: Net, dist: seq<int>)
    requires NetOk(net, |dist|)
    ensures forall i :: 0 <= i < 5 ==> Query5(net, dist)[i] < |dist|
  {
    assert |net.layers[0]| == |dist| && AdjOk(net.layers[0]);
    KeptAreClosestOfMet(At(net, dist, 0), Arrive(net, dist, 1));
  }

  /** The node reached when the descent has finished layer L. */
  ghost function Arrived(g: Index, q: seq<int>, L: nat): (r: nat)
    requires g.WellFormed() && |q| == DIM && L <= g.maxLayer + 1
    ensures r < g.n
  {
    g.NetIsOk();
    Arrive(g.Layered(), g.Distances(q), L)
  }

  lemma ArrivedStep(g: Index, q: seq<int>, L: nat)
    requires g.WellFormed() && |q| == DIM && 1 <= L <= g.maxLayer
    ensures Arrived(g, q, L) == Descend(Upper(g, q, L), Arrived(g, q, L + 1))
  {
    g.NetIsOk();
  }

  /** The descent of a query ends at entry: greedy climbs from the entry point through all
      the upper layers, each from where the one before ended. */
  ghost predicate Descended(g: Index, q: seq<int>, entry: nat)
    requires g.WellFormed() && |q| == DIM
  {
    exists stops :: && Descent(g.Layered().layers, g.Distances(q), g.maxLayer, 0, stops)
                    && stops[0] == g.entryPoint && stops[|stops| - 1] == entry
  }

  lemma DescentToArrived(g: Index, q: seq<int>)
    requires g.WellFormed() && |q| == DIM
    ensures Descended(g, q, Arrived(g, q, 1))
  {
    g.NetIsOk();
    var stops := DescentStops(g.Layered(), g.Distances(q), 1);
  }

  lemma AnswerIsExplained(g: Index, q: seq<int>) returns (stops: seq<nat>, done: seq<nat>)
    requires g.WellFormed() && |q| == DIM
    ensures Explains(g.Layered(), g.Distances(q), stops, done, Answer(g, q))
  {
    g.NetIsOk();
    stops, done := AnswerExplained(g.Layered(), g.Distances(q));
  }

  lemma ArrivedFirst(g: Index, q: seq<int>)
    requires g.WellFormed() && |q| == DIM
    ensures g.maxLayer >= 0 && Arrived(g, q, g.maxLayer + 1) == g.entryPoint
  {
    g.NetIsOk();
  }

  /** Greedy descent from the entry point through the upper layers. */
  method DescendUpperLayers(g: Index, q: seq<int>) returns (entry: nat)
    requires g.WellFormed() && |q| == DIM
    ensures entry == Arrived(g, q, 1) && Descended(g, q, entry)
  {
    hide *;
    DescentToArrived(g, q);
    ArrivedFirst(g, q);
    entry := g.entryPoint;
    var L := g.maxLayer;
    while L >= 1
      invariant 0 <= L <= g.maxLayer && entry == Arrived(g, q, L + 1)
    {
      ArrivedStep(g, q, L);
      entry := GreedyDescendUpper(g, q, entry, L);
      L := L - 1;
    }
  }

  /** The whole query.  The answer does not depend on what the slot was used for before. */
  method QueryFast5(g: Index, q: seq<int>, slot: VisitSlot, out: array<nat>)
    requires g.WellFormed() && |q| == DIM
    requires slot.Valid() && slot.marks.Length == g.n
    requires out.Length == 5 && out != slot.resIDs
    modifies slot, slot.marks, slot.cands, slot.cands.items, slot.resIDs, slot.resDists, out
    ensures slot.Valid() && (slot.cands.items == old(slot.cands.items) || fresh(slot.cands.items))
    ensures out[..] == Answer(g, q)
    ensures exists stops, done :: Explains(g.Layered(), g.Distances(q), stops, done, out[..])
  {
    ghost var stops, done := AnswerIsExplained(g, q);
    g.NetIsOk();
    var entry := DescendUpperLayers(g, q);
    SearchLayer0Fast(g, q, entry, slot);
    Top5FromResults(slot, out);
  }

  /** How many of the ids are labelled fraud. */
  ghost function FraudCount(fraud: seq<bool>, ids: seq<nat>): (c: nat)
    requires forall i :: 0 <= i < |ids| ==> ids[i] < |fraud|
    ensures c <= |ids|
  {
    if ids == [] then 0
    else FraudCount(fraud, ids[..|ids| - 1]) + if fraud[ids[|ids| - 1]] then 1 else 0
  }

  /** Scoring one request (handleScore in internal/api/handler.go): the query, then the
      number of fraudulent answers, which selects one of six responses. */
  method Score(g: Index, q: seq<int>, slot: VisitSlot, out: array<nat>) returns (fraudCount: nat)
    requires g.WellFormed() && |q| == DIM
    requires slot.Valid() && slot.marks.Length == g.n
    requires out.Length == 5 && out != slot.resIDs
    modifies slot, slot.marks, slot.cands, slot.cands.items, slot.resIDs, slot.resDists, out
    ensures slot.Valid() && (slot.cands.items == old(slot.cands.items) || fresh(slot.cands.items))
    ensures out[..] == Answer(g, q)
    ensures fraudCount == FraudCount(g.Frauds(), Answer(g, q)) <= 5
    ensures fraudCount == |FraudPositions(g, Answer(g, q))|
  {
    hide *;
    QueryFast5(g, q, slot, out);
    FraudPositionsCount(g, Answer(g, q));
    fraudCount := CountFrauds(g, out[..]);
  }

  /** The positions of the ids labelled fraud. */
  ghost function FraudPositions(g: Index, ids: seq<nat>): set<nat>
    requires g.BaseSized() && forall i :: 0 <= i < |ids| ==> ids[i] < g.n
  {
    set i: nat | i < |ids| && g.IsFraud(ids[i])
  }

  lemma FraudPositionsCount(g: Index, ids: seq<nat>)
    requires g.WellFormed() && forall i :: 0 <= i < |ids| ==> ids[i] < g.n
    ensures g.Sized() && FraudCount(g.Frauds(), ids) == |FraudPositions(g, ids)| <= |ids|
  {
    FraudsAreCounted(g.Frauds(), ids);
    assert FraudPositions(g, ids) == set i: nat | i < |ids| && g.Frauds()[ids[i]];
  }

  /** The frauds are counted position by position. */
  lemma {:induction false} FraudsAreCounted(fraud: seq<bool>, ids: seq<nat>)
    requires forall i :: 0 <= i < |ids| ==> ids[i] < |fraud|
    ensures FraudCount(fraud, ids) == |set i: nat | i < |ids| && fraud[ids[i]]|
    decreases |ids|
  {
    var positions := set i: nat | i < |ids| && fraud[ids[i]];
    if ids == [] {
      assert positions == {};
    } else {
      var front, last := ids[..|ids| - 1], |ids| - 1;
      FraudsAreCounted(fraud, front);
      assert positions == (set i: nat | i < |front| && fraud[front[i]]) + if fraud[ids[last]] then {last} else {};
    }
  }

  /** How many of the ids are labelled fraud. */
  method CountFrauds(g: Index, ids: seq<nat>) returns (c: nat)
    requires g.Sized() && |ids| == 5 && forall i :: 0 <= i < 5 ==> ids[i] < g.n
    ensures c == FraudCount(g.Frauds(), ids)
  {
    hide Index.IsFraud;
    c := 0;
    for i := 0 to 5
      invariant c == FraudCount(g.Frauds(), ids[..i])
    {
      assert ids[..i + 1][..i] == ids[..i];
      if g.IsFraud(ids[i]) {
        c := c + 1;
      }
    }
    assert ids[..5] == ids;
  }
}
