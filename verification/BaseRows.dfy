/** The flat base-layer buffers of the builder: row id occupies m0 slots of conn0, of which
    the first conn0Cnt[id] are in use and the others hold -1. */
module BaseRows {
  import opened GraphIndex

  /** s with the cells from off on replaced by x. */
  ghost function Splice(s: seq<int>, off: nat, x: seq<int>): (r: seq<int>)
    requires off + |x| <= |s|
    ensures |r| == |s|
  {
    s[..off] + x + s[off + |x|..]
  }

  ghost function FullRow(v: Index, id: nat): (row: seq<int>)
    requires v.BaseSized() && id < v.n
    ensures |row| == v.m0
  {
    RowFits(id, v.n, v.m0);
    v.conn0[id * v.m0..id * v.m0 + v.m0]
  }

  ghost predicate CleanRow(row: seq<int>, cnt: nat) {
    cnt <= |row| && forall j :: cnt <= j < |row| ==> row[j] == -1
  }

  /** Every unused slot holds -1. */
  ghost predicate Clean(v: Index)
    requires v.BaseSized()
  {
    forall id :: 0 <= id < v.n ==> CleanRow(FullRow(v, id), v.conn0Cnt[id])
  }

  /** w is v with row src replaced. */
  ghost predicate RowPut(v: Index, w: Index, src: nat, flat: seq<int>, cnt: nat) {
    && v.BaseSized() && src < v.n && |flat| == v.m0 && cnt <= v.m0 && cnt < 256
    && src * v.m0 + v.m0 <= |v.conn0|
    && w == v.(conn0 := Splice(v.conn0, src * v.m0, flat), conn0Cnt := v.conn0Cnt[src := cnt])
  }

  lemma PutKeepsOthers(v: Index, w: Index, src: nat, flat: seq<int>, cnt: nat, id: nat)
    requires RowPut(v, w, src, flat, cnt) && id < v.n
    ensures w.BaseSized() && FullRow(w, id) == if id == src then flat else FullRow(v, id)
  {
    RowFits(id, v.n, v.m0);
    RowFits(src, v.n, v.m0);
    if id < src {
      RowsApart(id, src, v.m0);
    } else if id > src {
      RowsApart(src, id, v.m0);
    }
  }

  lemma NeighborsOfFull(v: Index, id: nat)
    requires v.BaseSized() && id < v.n
    ensures v.Layer0Neighbors(id) == FullRow(v, id)[..v.conn0Cnt[id]]
  {
    RowFits(id, v.n, v.m0);
    TakeOfSlice(v.conn0, id * v.m0, v.m0, v.conn0Cnt[id]);
  }

  lemma SpliceOne(s: seq<int>, off: nat, x: seq<int>, y: int)
    requires off + |x| < |s|
    ensures Splice(s, off, x)[off + |x| := y] == Splice(s, off, x + [y])
  {
    var a, b := Splice(s, off, x)[off + |x| := y], Splice(s, off, x + [y]);
    forall i | 0 <= i < |s| ensures a[i] == b[i] {
      if i > off + |x| {
        assert a[i] == s[i] == b[i];
      }
    }
  }

  /** Replacing one row leaves the other neighbour lists alone. */
  lemma PutRow(v: Index, w: Index, src: nat, flat: seq<int>, cnt: nat)
    requires RowPut(v, w, src, flat, cnt)
    ensures w.BaseSized()
    ensures forall id :: 0 <= id < v.n ==>
              w.Layer0Neighbors(id) == if id == src then flat[..cnt] else v.Layer0Neighbors(id)
    ensures Clean(v) && CleanRow(flat, cnt) ==> Clean(w)
  {
    forall id | 0 <= id < v.n
      ensures w.BaseSized() && FullRow(w, id) == if id == src then flat else FullRow(v, id)
      ensures w.Layer0Neighbors(id) == if id == src then flat[..cnt] else v.Layer0Neighbors(id)
    {
      PutKeepsOthers(v, w, src, flat, cnt, id);
      NeighborsOfFull(v, id);
      NeighborsOfFull(w, id);
    }
  }

  /** Append one neighbour to a row with room. */
  method AppendSlot(g: Graph, src: nat, dst: int)
    requires g.View().BaseSized() && src < g.n && g.conn0Cnt[src] < g.m0 && g.m0 <= 255
    modifies g`conn0, g`conn0Cnt
    ensures g.View().BaseSized()
    ensures forall id :: 0 <= id < g.n ==>
              g.View().Layer0Neighbors(id) == if id == src then old(g.View().Layer0Neighbors(src)) + [dst]
                                              else old(g.View()).Layer0Neighbors(id)
    ensures old(Clean(g.View())) ==> Clean(g.View())
  {
    ghost var v := g.View();
    var cnt := g.conn0Cnt[src];
    RowFits(src, g.n, g.m0);
    g.conn0 := g.conn0[src * g.m0 + cnt := dst];
    g.conn0Cnt := g.conn0Cnt[src := cnt + 1];
    ghost var flat := FullRow(v, src)[cnt := dst];
    assert g.conn0 == Splice(v.conn0, src * v.m0, flat);
    PutRow(v, g.View(), src, flat, cnt + 1);
    assert flat[..cnt + 1] == v.Layer0Neighbors(src) + [dst];
    assert CleanRow(FullRow(v, src), cnt) ==> CleanRow(flat, cnt + 1);
  }

  /** The given ids from cell off on, then -1 up to the given width. */
  method FillRow(g: Graph, off: nat, ids: seq<int>, width: nat)
    requires off + width <= |g.conn0| && |ids| <= width
    modifies g`conn0
    ensures g.conn0 == Splice(old(g.conn0), off, ids + Unused(width - |ids|))
  {
    ghost var before := g.conn0;
    for i := 0 to |ids|
      invariant g.conn0 == Splice(before, off, ids[..i])
    {
      SpliceOne(before, off, ids[..i], ids[i]);
      assert ids[..i] + [ids[i]] == ids[..i + 1];
      g.conn0 := g.conn0[off + i := ids[i]];
    }
    assert ids[..|ids|] + Unused(0) == ids;
    for i := |ids| to width
      invariant g.conn0 == Splice(before, off, ids + Unused(i - |ids|))
    {
      SpliceOne(before, off, ids + Unused(i - |ids|), -1);
      assert ids + Unused(i - |ids|) + [-1] == ids + Unused(i + 1 - |ids|);
      g.conn0 := g.conn0[off + i := -1];
    }
  }

  /** Write a whole row: the given ids, then -1 in the slots left over. */
  method WriteRow(g: Graph, src: nat, ids: seq<int>)
    requires g.View().BaseSized() && src < g.n && |ids| <= g.m0 <= 255
    modifies g`conn0, g`conn0Cnt
    ensures g.View().BaseSized()
    ensures forall id :: 0 <= id < g.n ==>
              g.View().Layer0Neighbors(id) == if id == src then ids else old(g.View()).Layer0Neighbors(id)
    ensures old(Clean(g.View())) ==> Clean(g.View())
  {
    ghost var v := g.View();
    RowFits(src, g.n, g.m0);
    FillRow(g, src * g.m0, ids, g.m0);
    g.conn0Cnt := g.conn0Cnt[src := |ids|];
    ghost var flat: seq<int> := ids + Unused(g.m0 - |ids|);
    PutRow(v, g.View(), src, flat, |ids|);
    assert flat[..|ids|] == ids;
  }
}
