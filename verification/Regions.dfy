/**
 src/regions.c: an arena of pages kept as a doubly linked list of used and free regions that are also
 indexed by two intrusive search trees. Allocation carves, freeing merges; both keep the tiling.
 */
module Regions {
  import opened Tree
  import opened SpTree
  import opened RegionIndex
  import opened RegionList
  import opened Layout

  /** Region `x` is in the tree of its kind and only there. */
  ghost predicate InOwnTree(m: map<Region, Info>, x: Region, free: set<Region>, used: set<Region>)
    requires x in m
  {
    if m[x].used then x in used && x !in free else x in free && x !in used
  }

  /** The trees hold exactly the regions of the list, but for the regions in `out`, which no tree holds. */
  ghost predicate Indexed(m: map<Region, Info>, free: set<Region>, used: set<Region>, out: set<Region>) {
    && free <= m.Keys - out && used <= m.Keys - out
    && forall x :: x in m && x !in out ==> InOwnTree(m, x, free, used)
  }

  // ------------------------------------------------------------ single assignments

  method PutPrev(x: Region?, p: Region?, ghost nodes: set<Region>)
    requires x != null ==> x in nodes
    modifies Opt(x)`prev
    ensures Shot(nodes) == WithPrev(old(Shot(nodes)), x, p)
  {
    if x != null {
      x.prev := p;
    }
  }

  method PutNext(x: Region?, n: Region?, ghost nodes: set<Region>)
    requires x != null ==> x in nodes
    modifies Opt(x)`next
    ensures Shot(nodes) == WithNext(old(Shot(nodes)), x, n)
  {
    if x != null {
      x.next := n;
    }
  }

  method PutExtent(m: Region, start: nat, end: nat, inUse: bool, ghost nodes: set<Region>)
    requires m in nodes
    modifies m`start, m`end, m`used
    ensures Shot(nodes) == old(Shot(nodes))[m := old(Shot(nodes))[m].(start := start, end := end, used := inUse)]
    ensures m.start == start
  {
    m.start, m.end, m.used := start, end, inUse;
  }

  /** `__create_region` */
  method CreateRegion(start: nat, end: nat, prev: Region?, next: Region?, ghost nodes: set<Region>) returns (n: Region)
    ensures fresh(n) && Shot(nodes + {n}) == old(Shot(nodes))[n := Info(start, end, false, prev, next)]
    ensures n.start == start && n.end == end && !n.used && n.prev == prev && n.next == next
  {
    n := new Region(start, end, prev, next);
    assert n !in nodes;
  }

  ghost function ViewOf(list: seq<Region>): View
    reads list`start, list`end, list`used, list`prev, list`next
  {
    View(Shot(Elems(list)), list)
  }

  /** Lines 436-440 */
  method NewRegionBefore(m: Region, ghost list: seq<Region>, ghost i: nat, start: nat, end: nat) returns (n: Region)
    requires Chained(ViewOf(list)) && i < |list| && list[i] == m
    modifies list`prev, list`next
    ensures fresh(n) && Shot(Elems(list) + {n}) == AddBefore(old(ViewOf(list)), i, n, start, end).info
    ensures n.start == start && n.end == end && !n.used
  {
    ghost var v := ViewOf(list);
    assert LinkOk(v, i) && (i > 0 ==> LinkOk(v, i - 1));
    var p := m.prev;
    n := CreateRegion(start, end, p, m, Elems(list));
    ghost var nodes := Elems(list) + {n};
    LinkInFront(m, p, n, nodes);
  }

  method LinkInFront(m: Region, p: Region?, n: Region, ghost nodes: set<Region>)
    requires m in nodes && Opt(p) <= nodes
    modifies m`prev, Opt(p)`next
    ensures Shot(nodes) == WithNext(WithPrev(old(Shot(nodes)), m, n), p, n)
  {
    PutPrev(m, n, nodes);
    PutNext(p, n, nodes);
  }

  /** Lines 446-450 */
  method NewRegionAfter(m: Region, ghost list: seq<Region>, ghost i: nat, start: nat, end: nat) returns (n: Region)
    requires Chained(ViewOf(list)) && i < |list| && list[i] == m
    modifies list`prev, list`next
    ensures fresh(n) && Shot(Elems(list) + {n}) == AddAfter(old(ViewOf(list)), i, n, start, end).info
    ensures n.start == start && n.end == end && !n.used
  {
    ghost var v := ViewOf(list);
    assert LinkOk(v, i) && (i + 1 < |list| ==> LinkOk(v, i + 1));
    var x := m.next;
    n := CreateRegion(start, end, m, x, Elems(list));
    ghost var nodes := Elems(list) + {n};
    LinkBehind(m, x, n, nodes);
  }

  method LinkBehind(m: Region, x: Region?, n: Region, ghost nodes: set<Region>)
    requires m in nodes && Opt(x) <= nodes
    modifies m`next, Opt(x)`prev
    ensures Shot(nodes) == WithPrev(WithNext(old(Shot(nodes)), m, n), x, n)
  {
    PutNext(m, n, nodes);
    PutPrev(x, n, nodes);
  }

  // --------------------------------------------------------------- list and trees

  /** The two trees are in order and hold exactly the regions of `info`, but for those in `out`. */
  ghost predicate Trees(free: SpRoot, used: SpRoot, info: map<Region, Info>, out: set<Region>)
    reads free, used
    reads Nodes(free.tree)`left, Nodes(free.tree)`right, Nodes(free.tree)`parent, Nodes(free.tree)`hint
    reads Nodes(free.tree)`start, Nodes(free.tree)`end
    reads Nodes(used.tree)`left, Nodes(used.tree)`right, Nodes(used.tree)`parent, Nodes(used.tree)`hint
    reads Nodes(used.tree)`start, Nodes(used.tree)`end
  {
    && free != used && Ordered(free, false) && Ordered(used, true)
    && Indexed(info, Nodes(free.tree), Nodes(used.tree), out)
  }

  lemma TreesApart(m: map<Region, Info>, free: set<Region>, used: set<Region>, out: set<Region>)
    requires Indexed(m, free, used, out)
    ensures free !! used && free !! out && used !! out
  {
    forall x | x in free ensures x !in used { assert InOwnTree(m, x, free, used); }
  }

  lemma TreesWithinInfo(free: SpRoot, used: SpRoot, info: map<Region, Info>, out: set<Region>)
    requires Trees(free, used, info, out)
    ensures free != used && Nodes(free.tree) <= info.Keys && Nodes(used.tree) <= info.Keys
    ensures Nodes(free.tree) !! Nodes(used.tree) && Nodes(free.tree) !! out && Nodes(used.tree) !! out
  {
    hide Ordered;
    Within(info, Nodes(free.tree), Nodes(used.tree), out);
    forall x | x in Nodes(free.tree) ensures x !in Nodes(used.tree) { assert x in info && x !in out; }
  }

  lemma Within(m: map<Region, Info>, free: set<Region>, used: set<Region>, out: set<Region>)
    requires Indexed(m, free, used, out)
    ensures free <= m.Keys && used <= m.Keys
  {
  }

  /** Insertion into one tree leaves extents and links of all regions alone. */
  method InsertKeepsView(rt: SpRoot, n: Region, byStart: bool, ghost list: seq<Region>, ghost nodes: set<Region>)
    requires Ordered(rt, byStart) && nodes == Nodes(rt.tree) && n !in nodes
    requires forall x :: x in nodes ==> x.start != n.start
    modifies rt, nodes`left, nodes`right, nodes`parent, nodes`hint, n`left, n`right, n`parent, n`hint
    ensures Ordered(rt, byStart) && Nodes(rt.tree) == nodes + {n}
    ensures ViewOf(list) == old(ViewOf(list))
  {
    InsertRegion(rt, n, byStart, nodes);
  }

  /** Insertion into one tree leaves the other tree alone. */
  method InsertKeepsOther(rt: SpRoot, other: SpRoot, n: Region, byStart: bool, ghost list: seq<Region>,
                          ghost nodes: set<Region>, ghost others: set<Region>)
    requires Ordered(rt, byStart) && nodes == Nodes(rt.tree) && n !in nodes
    requires Ordered(other, !byStart) && others == Nodes(other.tree) && others !! nodes + {n} && rt != other
    requires forall x :: x in nodes ==> x.start != n.start
    modifies rt, nodes`left, nodes`right, nodes`parent, nodes`hint, n`left, n`right, n`parent, n`hint
    ensures Ordered(rt, byStart) && Nodes(rt.tree) == nodes + {n}
    ensures Ordered(other, !byStart) && other.tree == old(other.tree)
    ensures ViewOf(list) == old(ViewOf(list))
  {
    hide OrderedTree;
    ghost var t := other.tree;
    ghost var ordered := OrderedTree(t, !byStart);
    InsertKeepsView(rt, n, byStart, list, nodes);
    assert ordered == OrderedTree(t, !byStart);
  }

  /** A free region that is in no tree enters the free tree. */
  method IndexFree(free: SpRoot, used: SpRoot, n: Region, ghost v: View, ghost out: set<Region>,
                   ghost fs: set<Region>, ghost us: set<Region>)
    requires Trees(free, used, v.info, out + {n}) && ViewOf(v.list) == v && n !in out && n in v.info && !v.info[n].used
    requires fs == Nodes(free.tree) && us == Nodes(used.tree) && forall x :: x in fs ==> x.start != n.start
    modifies free, fs`left, fs`right, fs`parent, fs`hint, n`left, n`right, n`parent, n`hint
    ensures Trees(free, used, v.info, out) && ViewOf(v.list) == v && Nodes(free.tree) == fs + {n}
  {
    hide Ordered;
    TreesApart(v.info, fs, us, out + {n});
    Enters(v.info, fs, us, out, n);
    InsertKeepsOther(free, used, n, false, v.list, fs, us);
  }

  /** A used region that is in no tree enters the used tree. */
  method IndexUsed(free: SpRoot, used: SpRoot, n: Region, ghost v: View, ghost out: set<Region>,
                   ghost fs: set<Region>, ghost us: set<Region>)
    requires Trees(free, used, v.info, out + {n}) && ViewOf(v.list) == v && n !in out && n in v.info && v.info[n].used
    requires fs == Nodes(free.tree) && us == Nodes(used.tree) && forall x :: x in us ==> x.start != n.start
    modifies used, us`left, us`right, us`parent, us`hint, n`left, n`right, n`parent, n`hint
    ensures Trees(free, used, v.info, out) && ViewOf(v.list) == v && Nodes(used.tree) == us + {n}
  {
    hide Ordered;
    TreesApart(v.info, fs, us, out + {n});
    Enters(v.info, fs, us, out, n);
    InsertKeepsOther(used, free, n, true, v.list, us, fs);
  }

  lemma Enters(m: map<Region, Info>, free: set<Region>, used: set<Region>, out: set<Region>, n: Region)
    requires Indexed(m, free, used, out + {n}) && n !in out && n in m
    ensures !m[n].used ==> Indexed(m, free + {n}, used, out)
    ensures m[n].used ==> Indexed(m, free, used + {n}, out)
  {
    TreesApart(m, free, used, out + {n});
    forall x | x in m && x !in out
      ensures if m[n].used then InOwnTree(m, x, free, used + {n}) else InOwnTree(m, x, free + {n}, used)
    {
      if x != n { assert InOwnTree(m, x, free, used); }
    }
  }

  /** Removal from one tree leaves the links and extents of all regions and the other tree alone. */
  method RemoveKeepsOther(rt: SpRoot, other: SpRoot, m: Region, byStart: bool, ghost list: seq<Region>,
                          ghost nodes: set<Region>, ghost others: set<Region>)
    requires Ordered(rt, byStart) && nodes == Nodes(rt.tree) && m in nodes
    requires Ordered(other, !byStart) && others == Nodes(other.tree) && others !! nodes && rt != other
    modifies rt, nodes`left, nodes`right, nodes`parent, nodes`hint
    ensures Ordered(rt, byStart) && Nodes(rt.tree) == nodes - {m}
    ensures Ordered(other, !byStart) && other.tree == old(other.tree)
    ensures ViewOf(list) == old(ViewOf(list))
  {
    hide OrderedTree;
    ghost var t := other.tree;
    ghost var ordered := OrderedTree(t, !byStart);
    RemoveRegion(rt, m, byStart, nodes);
    assert ordered == OrderedTree(t, !byStart);
  }

  lemma Leaves(m: map<Region, Info>, free: set<Region>, used: set<Region>, out: set<Region>, n: Region)
    requires Indexed(m, free, used, out) && n !in out && n in m
    ensures !m[n].used ==> n in free && Indexed(m, free - {n}, used, out + {n})
    ensures m[n].used ==> n in used && Indexed(m, free, used - {n}, out + {n})
  {
    assert InOwnTree(m, n, free, used);
    forall x | x in m && x !in out + {n}
      ensures if m[n].used then InOwnTree(m, x, free, used - {n}) else InOwnTree(m, x, free - {n}, used)
    {
      assert InOwnTree(m, x, free, used);
    }
  }

  /** A free region leaves the free tree. */
  method UnindexFree(free: SpRoot, used: SpRoot, n: Region, ghost v: View, ghost out: set<Region>,
                     ghost fs: set<Region>, ghost us: set<Region>)
    requires Trees(free, used, v.info, out) && ViewOf(v.list) == v && n !in out && n in v.info && !v.info[n].used
    requires fs == Nodes(free.tree) && us == Nodes(used.tree)
    modifies free, fs`left, fs`right, fs`parent, fs`hint
    ensures Trees(free, used, v.info, out + {n}) && ViewOf(v.list) == v && Nodes(free.tree) == fs - {n}
  {
    hide Ordered;
    TreesApart(v.info, fs, us, out);
    Leaves(v.info, fs, us, out, n);
    RemoveKeepsOther(free, used, n, false, v.list, fs, us);
  }

  /** A used region leaves the used tree. */
  method UnindexUsed(free: SpRoot, used: SpRoot, n: Region, ghost v: View, ghost out: set<Region>,
                     ghost fs: set<Region>, ghost us: set<Region>)
    requires Trees(free, used, v.info, out) && ViewOf(v.list) == v && n !in out && n in v.info && v.info[n].used
    requires fs == Nodes(free.tree) && us == Nodes(used.tree)
    modifies used, us`left, us`right, us`parent, us`hint
    ensures Trees(free, used, v.info, out + {n}) && ViewOf(v.list) == v && Nodes(used.tree) == us - {n}
  {
    hide Ordered;
    TreesApart(v.info, fs, us, out);
    Leaves(v.info, fs, us, out, n);
    RemoveKeepsOther(used, free, n, true, v.list, us, fs);
  }

  // ------------------------------------------------------------------- allocation

  /** No region of `nodes` starts in `[lo, hi)`. */
  ghost predicate Outside(nodes: set<Region>, lo: nat, hi: nat)
    reads nodes`start
  {
    forall x :: x in nodes ==> !(lo <= x.start < hi)
  }

  /** In a tiling, no other region starts inside region `i`. */
  lemma OthersOutside(list: seq<Region>, i: nat, start: nat, end: nat)
    requires Chained(ViewOf(list)) && Tiles(TilingOf(ViewOf(list)), start, end) && i < |list|
    ensures Outside(Elems(list) - {list[i]}, list[i].start, list[i].end)
  {
    var t := TilingOf(ViewOf(list));
    forall x | x in Elems(list) - {list[i]} ensures !(list[i].start <= x.start < list[i].end) {
      var j :| 0 <= j < |list| && list[j] == x;
      if j < i { Ascending(t, start, end, j, i); } else { Ascending(t, start, end, i, j); }
    }
  }

  lemma AddBeforeElems(v: View, i: nat, n: Region, start: nat, end: nat)
    requires Chained(v) && i < |v.list| && n !in v.info
    ensures Elems(AddBefore(v, i, n, start, end).list) == Elems(v.list) + {n}
  {
    Inserted(v.list, i, n);
  }

  lemma AddAfterElems(v: View, i: nat, n: Region, start: nat, end: nat)
    requires Chained(v) && i < |v.list| && n !in v.info
    ensures Elems(AddAfter(v, i, n, start, end).list) == Elems(v.list) + {n}
  {
    Inserted(v.list, i + 1, n);
  }

  /** The view `w` extends the view `v` by the free region `n`. */
  ghost predicate Extends(v: View, w: View, n: Region) {
    && n !in v.info && w.info.Keys == v.info.Keys + {n} && !w.info[n].used
    && forall x :: x in v.info ==> w.info[x].used == v.info[x].used
  }

  lemma AddBeforeExtends(v: View, i: nat, n: Region, start: nat, end: nat)
    requires Chained(v) && i < |v.list| && n !in v.info
    ensures Extends(v, AddBefore(v, i, n, start, end), n)
  {
    AddBeforeKeys(v, i, n, start, end);
    assert LinkOk(v, i) && (i > 0 ==> LinkOk(v, i - 1));
  }

  lemma AddAfterExtends(v: View, i: nat, n: Region, start: nat, end: nat)
    requires Chained(v) && i < |v.list| && n !in v.info
    ensures Extends(v, AddAfter(v, i, n, start, end), n)
  {
    AddAfterKeys(v, i, n, start, end);
    assert LinkOk(v, i) && (i + 1 < |v.list| ==> LinkOk(v, i + 1));
  }

  lemma IndexedGrown(v: View, w: View, n: Region, free: set<Region>, used: set<Region>, out: set<Region>)
    requires Indexed(v.info, free, used, out) && Extends(v, w, n)
    ensures Indexed(w.info, free, used, out + {n})
  {
    forall x | x in w.info && x !in out + {n} ensures InOwnTree(w.info, x, free, used) {
      assert InOwnTree(v.info, x, free, used);
    }
  }

  /** `m` is the region at place `i` of the list. */
  ghost predicate Place(v: View, m: Region, i: nat) {
    Chained(v) && i < |v.list| && v.list[i] == m
  }

  lemma AddBeforeView(v: View, i: nat, n: Region, start: nat, end: nat) returns (w: View)
    requires Chained(v) && i < |v.list| && n !in v.info
    ensures w == AddBefore(v, i, n, start, end) && Elems(w.list) == v.info.Keys + {n}
    ensures Chained(w) && i + 1 < |w.list| && w.list[i + 1] == v.list[i] && Extends(v, w, n)
    ensures TilingOf(w) == TilingOf(v)[..i] + [Extent(start, end, false)] + TilingOf(v)[i..]
  {
    w := AddBefore(v, i, n, start, end);
    AddBeforeOk(v, i, n, start, end);
    AddBeforeElems(v, i, n, start, end);
    AddBeforeExtends(v, i, n, start, end);
  }

  lemma AddAfterView(v: View, i: nat, n: Region, start: nat, end: nat) returns (w: View)
    requires Chained(v) && i < |v.list| && n !in v.info
    ensures w == AddAfter(v, i, n, start, end) && Elems(w.list) == v.info.Keys + {n}
    ensures Chained(w) && i < |w.list| && w.list[i] == v.list[i] && Extends(v, w, n)
    ensures TilingOf(w) == TilingOf(v)[..i + 1] + [Extent(start, end, false)] + TilingOf(v)[i + 1..]
  {
    w := AddAfter(v, i, n, start, end);
    AddAfterOk(v, i, n, start, end);
    AddAfterElems(v, i, n, start, end);
    AddAfterExtends(v, i, n, start, end);
  }

  method GrowFront(m: Region, start: nat, end: nat, ghost v: View, ghost i: nat) returns (n: Region, ghost w: View)
    requires ViewOf(v.list) == v && Place(v, m, i)
    modifies v.info.Keys`prev, v.info.Keys`next
    ensures fresh(n) && n.start == start && ViewOf(w.list) == w && Extends(v, w, n)
        && w == AddBefore(v, i, n, start, end)
  {
    n := NewRegionBefore(m, v.list, i, start, end);
    w := AddBeforeView(v, i, n, start, end);
  }

  method GrowBack(m: Region, start: nat, end: nat, ghost v: View, ghost i: nat) returns (n: Region, ghost w: View)
    requires ViewOf(v.list) == v && Place(v, m, i)
    modifies v.info.Keys`prev, v.info.Keys`next
    ensures fresh(n) && n.start == start && ViewOf(w.list) == w && Extends(v, w, n)
        && w == AddAfter(v, i, n, start, end)
  {
    n := NewRegionAfter(m, v.list, i, start, end);
    w := AddAfterView(v, i, n, start, end);
  }

  /** A new free region in front of `m` joins the list. */
  method SplitFront(free: SpRoot, used: SpRoot, m: Region, start: nat, end: nat, ghost v: View, ghost i: nat,
      ghost out: set<Region>)
    returns (n: Region, ghost w: View)
    requires Trees(free, used, v.info, out) && ViewOf(v.list) == v && Place(v, m, i)
    modifies v.info.Keys`prev, v.info.Keys`next
    ensures fresh(n) && n.start == start && ViewOf(w.list) == w && n !in v.info && n in w.info
        && w == AddBefore(v, i, n, start, end)
    ensures !w.info[n].used && Trees(free, used, w.info, out + {n})
  {
    hide Ordered;
    ghost var trees := Trees(free, used, v.info, out);
    n, w := GrowFront(m, start, end, v, i);
    assert trees == Trees(free, used, v.info, out);
    IndexedGrown(v, w, n, Nodes(free.tree), Nodes(used.tree), out);
  }

  /** A new free region behind `m` joins the list. */
  method SplitBack(free: SpRoot, used: SpRoot, m: Region, start: nat, end: nat, ghost v: View, ghost i: nat,
      ghost out: set<Region>)
    returns (n: Region, ghost w: View)
    requires Trees(free, used, v.info, out) && ViewOf(v.list) == v && Place(v, m, i)
    modifies v.info.Keys`prev, v.info.Keys`next
    ensures fresh(n) && n.start == start && ViewOf(w.list) == w && n !in v.info && n in w.info
        && w == AddAfter(v, i, n, start, end)
    ensures !w.info[n].used && Trees(free, used, w.info, out + {n})
  {
    hide Ordered;
    ghost var trees := Trees(free, used, v.info, out);
    n, w := GrowBack(m, start, end, v, i);
    assert trees == Trees(free, used, v.info, out);
    IndexedGrown(v, w, n, Nodes(free.tree), Nodes(used.tree), out);
  }

  /** Lines 436-442: a new free region in front of `m`. */
  method AddFront(free: SpRoot, used: SpRoot, m: Region, start: nat, end: nat, ghost v: View, ghost i: nat,
                  ghost fs: set<Region>, ghost us: set<Region>)
    returns (n: Region, ghost w: View)
    requires Trees(free, used, v.info, {m}) && ViewOf(v.list) == v && Place(v, m, i)
    requires fs == Nodes(free.tree) && us == Nodes(used.tree) && forall x :: x in fs ==> x.start != start
    modifies free, v.info.Keys`prev, v.info.Keys`next, fs`left, fs`right, fs`parent, fs`hint
    ensures fresh(n) && n.start == start && ViewOf(w.list) == w && n !in v.info && w == AddBefore(v, i, n, start, end)
    ensures Trees(free, used, w.info, {m}) && Nodes(free.tree) == fs + {n}
  {
    hide Ordered, Chained;
    n, w := SplitFront(free, used, m, start, end, v, i, {m});
    IndexFree(free, used, n, w, {m}, fs, us);
  }

  /** Lines 446-452: a new free region behind `m`. */
  method AddBack(free: SpRoot, used: SpRoot, m: Region, start: nat, end: nat, ghost v: View, ghost i: nat,
                 ghost fs: set<Region>, ghost us: set<Region>)
    returns (n: Region, ghost w: View)
    requires Trees(free, used, v.info, {m}) && ViewOf(v.list) == v && Place(v, m, i)
    requires fs == Nodes(free.tree) && us == Nodes(used.tree) && forall x :: x in fs ==> x.start != start
    modifies free, v.info.Keys`prev, v.info.Keys`next, fs`left, fs`right, fs`parent, fs`hint
    ensures fresh(n) && n.start == start && ViewOf(w.list) == w && n !in v.info && w == AddAfter(v, i, n, start, end)
    ensures Trees(free, used, w.info, {m}) && Nodes(free.tree) == fs + {n}
  {
    hide Ordered, Chained;
    n, w := SplitBack(free, used, m, start, end, v, i, {m});
    IndexFree(free, used, n, w, {m}, fs, us);
  }

  method PutFront(free: SpRoot, used: SpRoot, m: Region, start: nat, end: nat, ghost v: View, ghost i: nat,
                  ghost fs: set<Region>, ghost us: set<Region>)
    returns (n: Region, ghost w: View)
    requires Trees(free, used, v.info, {m}) && ViewOf(v.list) == v && Place(v, m, i)
    requires fs == Nodes(free.tree) && us == Nodes(used.tree) && forall x :: x in fs ==> x.start != start
    modifies free, v.info.Keys`prev, v.info.Keys`next, fs`left, fs`right, fs`parent, fs`hint
    ensures fresh(n) && n.start == start && ViewOf(w.list) == w && w.info.Keys == v.info.Keys + {n}
    ensures Trees(free, used, w.info, {m}) && Nodes(free.tree) == fs + {n} && Place(w, m, i + 1)
    ensures TilingOf(w) == TilingOf(v)[..i] + [Extent(start, end, false)] + TilingOf(v)[i..]
  {
    n, w := AddFront(free, used, m, start, end, v, i, fs, us);
    ghost var _ := AddBeforeView(v, i, n, start, end);
  }

  method PutBack(free: SpRoot, used: SpRoot, m: Region, start: nat, end: nat, ghost v: View, ghost i: nat,
                  ghost fs: set<Region>, ghost us: set<Region>)
    returns (n: Region, ghost w: View)
    requires Trees(free, used, v.info, {m}) && ViewOf(v.list) == v && Place(v, m, i)
    requires fs == Nodes(free.tree) && us == Nodes(used.tree) && forall x :: x in fs ==> x.start != start
    modifies free, v.info.Keys`prev, v.info.Keys`next, fs`left, fs`right, fs`parent, fs`hint
    ensures fresh(n) && n.start == start && ViewOf(w.list) == w && w.info.Keys == v.info.Keys + {n}
    ensures Trees(free, used, w.info, {m}) && Nodes(free.tree) == fs + {n} && Place(w, m, i)
    ensures TilingOf(w) == TilingOf(v)[..i + 1] + [Extent(start, end, false)] + TilingOf(v)[i + 1..]
  {
    n, w := AddBack(free, used, m, start, end, v, i, fs, us);
    ghost var _ := AddAfterView(v, i, n, start, end);
  }

  /** The tiling and the place of region `i` once the pages in front of `start` have become a region of their own. */
  ghost function WithFront(t: Tiling, i: nat, start: nat): (Tiling, nat)
    requires i < |t|
  {
    (t[..i] + Piece(t[i].start, start) + t[i..], i + |Piece(t[i].start, start)|)
  }

  /** The tiling once region `i` has shrunk to a used region `[start, end)` and left its tail behind. */
  ghost function WithBack(t: Tiling, i: nat, start: nat, end: nat): Tiling
    requires i < |t|
  {
    (t[..i + 1] + Piece(end, t[i].end) + t[i + 1..])[i := Extent(start, end, true)]
  }

  lemma PieceAt(t: Tiling, k: nat, start: nat, end: nat)
    requires k <= |t|
    ensures start == end ==> t == t[..k] + Piece(start, end) + t[k..]
    ensures start != end ==> Piece(start, end) == [Extent(start, end, false)]
  {
  }

  /** Lines 435-443: the pages in front of the new region stay free. */
  method KeepFront(free: SpRoot, used: SpRoot, m: Region, start: nat, end: nat, ghost v: View, ghost i: nat,
                   ghost fs: set<Region>, ghost us: set<Region>)
    returns (ghost w: View, ghost k: nat)
    requires Trees(free, used, v.info, {m}) && ViewOf(v.list) == v && Place(v, m, i)
    requires fs == Nodes(free.tree) && us == Nodes(used.tree) && start == TilingOf(v)[i].start
    requires forall x :: x in fs ==> x.start != start
    modifies free, v.info.Keys`prev, v.info.Keys`next, fs`left, fs`right, fs`parent, fs`hint
    ensures Trees(free, used, w.info, {m}) && ViewOf(w.list) == w && Place(w, m, k)
    ensures w.info.Keys >= v.info.Keys && fresh(w.info.Keys - v.info.Keys)
    ensures forall x :: x in Nodes(free.tree) && x !in fs ==> x.start == start
    ensures (TilingOf(w), k) == WithFront(TilingOf(v), i, end)
  {
    hide Ordered, Chained, TilingOf, Indexed;
    w, k := v, i;
    PieceAt(TilingOf(v), i, start, end);
    Within(v.info, fs, us, {m});
    if start != end {
      var n;
      n, w := PutFront(free, used, m, start, end, v, i, fs, us);
      k := i + 1;
    }
  }

  /** Lines 445-453: the pages behind the new region stay free. */
  method KeepBack(free: SpRoot, used: SpRoot, m: Region, start: nat, end: nat, ghost v: View, ghost i: nat,
                  ghost fs: set<Region>, ghost us: set<Region>)
    returns (ghost w: View)
    requires Trees(free, used, v.info, {m}) && ViewOf(v.list) == v && Place(v, m, i)
    requires fs == Nodes(free.tree) && us == Nodes(used.tree)
    requires start != end ==> forall x :: x in fs ==> x.start != start
    modifies free, v.info.Keys`prev, v.info.Keys`next, fs`left, fs`right, fs`parent, fs`hint
    ensures Trees(free, used, w.info, {m}) && ViewOf(w.list) == w && Place(w, m, i)
    ensures w.info.Keys >= v.info.Keys && fresh(w.info.Keys - v.info.Keys)
    ensures TilingOf(w) == TilingOf(v)[..i + 1] + Piece(start, end) + TilingOf(v)[i + 1..]
  {
    hide Ordered, Chained, TilingOf, Indexed;
    w := v;
    PieceAt(TilingOf(v), i + 1, start, end);
    Within(v.info, fs, us, {m});
    if start != end {
      var n;
      n, w := PutBack(free, used, m, start, end, v, i, fs, us);
    }
  }

  lemma IndexedResized(v: View, w: View, m: Region, free: set<Region>, used: set<Region>)
    requires Indexed(v.info, free, used, {m}) && w.info.Keys == v.info.Keys
    requires forall x :: x in v.info && x != m ==> w.info[x] == v.info[x]
    ensures Indexed(w.info, free, used, {m})
  {
    forall x | x in w.info && x !in {m} ensures InOwnTree(w.info, x, free, used) {
      assert InOwnTree(v.info, x, free, used);
    }
  }

  method WriteExtent(free: SpRoot, used: SpRoot, m: Region, start: nat, end: nat, inUse: bool, ghost v: View,
                     ghost fs: set<Region>, ghost us: set<Region>)
    requires Trees(free, used, v.info, {m}) && ViewOf(v.list) == v && m in v.info
    requires fs == Nodes(free.tree) && us == Nodes(used.tree) && m !in fs && m !in us
    modifies m`start, m`end, m`used
    ensures Trees(free, used, v.info, {m}) && m.start == start
    ensures ViewOf(v.list) == v.(info := v.info[m := v.info[m].(start := start, end := end, used := inUse)])
  {
    hide Ordered;
    ghost var trees := Trees(free, used, v.info, {m});
    PutExtent(m, start, end, inUse, Elems(v.list));
    assert trees == Trees(free, used, v.info, {m});
  }

  /** A region outside the trees changes its extent or its kind. */
  method SetExtent(free: SpRoot, used: SpRoot, m: Region, start: nat, end: nat, inUse: bool, ghost v: View,
      ghost i: nat)
    returns (ghost w: View)
    requires Trees(free, used, v.info, {m}) && ViewOf(v.list) == v && Place(v, m, i)
    modifies m`start, m`end, m`used
    ensures Trees(free, used, w.info, {m}) && ViewOf(w.list) == w && Place(w, m, i) && w.list == v.list
        && w.info.Keys == v.info.Keys
    ensures m.start == start && w.info[m].used == inUse && TilingOf(w) == TilingOf(v)[i := Extent(start, end, inUse)]
  {
    WriteExtent(free, used, m, start, end, inUse, v, Nodes(free.tree), Nodes(used.tree));
    ResizeOk(v, i, start, end, inUse);
    w := Resize(v, i, start, end, inUse);
    IndexedResized(v, w, m, Nodes(free.tree), Nodes(used.tree));
  }

  lemma JustOne(m: Region)
    ensures {} + {m} == {m}
  {
  }

  /** Lines 455-463: the region takes the pages and enters the used tree. */
  method Claim(free: SpRoot, used: SpRoot, m: Region, start: nat, end: nat, ghost v: View, ghost i: nat,
               ghost fs: set<Region>, ghost us: set<Region>)
    returns (ghost w: View)
    requires Trees(free, used, v.info, {m}) && ViewOf(v.list) == v && Place(v, m, i)
    requires fs == Nodes(free.tree) && us == Nodes(used.tree) && forall x :: x in us ==> x.start != start
    modifies used, m`start, m`end, m`used, m`left, m`right, m`parent, m`hint, us`left, us`right, us`parent, us`hint
    ensures Trees(free, used, w.info, {}) && ViewOf(w.list) == w && Place(w, m, i) && w.info.Keys == v.info.Keys
    ensures TilingOf(w) == TilingOf(v)[i := Extent(start, end, true)]
  {
    hide Ordered, Chained;
    TreesApart(v.info, fs, us, {m});
    w := SetExtent(free, used, m, start, end, true, v, i);
    JustOne(m);
    IndexUsed(free, used, m, w, {}, fs, us);
  }

  lemma Spliced(t: Tiling, i: nat, pre: Tiling, post: Tiling, e: Extent, t1: Tiling, t2: Tiling)
    requires i < |t| && t1 == t[..i] + pre + t[i..]
    requires t2 == t1[..i + |pre| + 1] + post + t1[i + |pre| + 1..]
    ensures t2[i + |pre| := e] == t[..i] + pre + [e] + post + t[i + 1..]
  {
    var k := i + |pre|;
    assert t1[..k] == t[..i] + pre && t1[k + 1..] == t[i + 1..];
    assert t2[..k] == t1[..k] && t2[k + 1..] == post + t[i + 1..];
    var u := t2[k := e];
    assert u == u[..k] + [e] + u[k + 1..];
  }

  lemma CarveSteps(t: Tiling, i: nat, align: nat, pages: nat, start: nat, end: nat, t1: Tiling, k: nat)
    requires i < |t| && start == t[i].start + align && end == start + pages && (t1, k) == WithFront(t, i, start)
    ensures k < |t1| && WithBack(t1, k, start, end) == Carve(t, i, align, pages)
  {
    var pre, post := Piece(t[i].start, start), Piece(end, t[i].end);
    assert t1[k] == t[i];
    Spliced(t, i, pre, post, Extent(start, end, true), t1, t1[..k + 1] + post + t1[k + 1..]);
  }

  lemma Here(v: View, m: Region, i: nat)
    requires ViewOf(v.list) == v && Place(v, m, i)
    ensures TilingOf(v)[i] == Extent(m.start, m.end, m.used)
  {
  }

  /** Lines 424-443 */
  method DetachFront(free: SpRoot, used: SpRoot, m: Region, start: nat, ghost v: View, ghost i: nat,
                     ghost fs: set<Region>, ghost us: set<Region>)
    returns (ghost w: View, ghost k: nat)
    requires Trees(free, used, v.info, {}) && ViewOf(v.list) == v && Place(v, m, i) && !v.info[m].used
    requires fs == Nodes(free.tree) && us == Nodes(used.tree) && forall x :: x in fs && x != m ==> x.start != m.start
    modifies free, v.info.Keys`prev, v.info.Keys`next, fs`left, fs`right, fs`parent, fs`hint
    ensures Trees(free, used, w.info, {m}) && ViewOf(w.list) == w && Place(w, m, k)
    ensures w.info.Keys >= v.info.Keys && fresh(w.info.Keys - v.info.Keys)
    ensures forall x :: x in Nodes(free.tree) && x !in fs - {m} ==> x.start == m.start
    ensures (TilingOf(w), k) == WithFront(TilingOf(v), i, start)
  {
    hide Ordered, Chained, TilingOf, WithFront, Indexed;
    JustOne(m);
    Here(v, m, i);
    Within(v.info, fs, us, {});
    UnindexFree(free, used, m, v, {}, fs, us);
    w, k := KeepFront(free, used, m, m.start, start, v, i, fs - {m}, us);
  }

  /** Lines 445-463 */
  method ClaimBack(free: SpRoot, used: SpRoot, m: Region, start: nat, end: nat, ghost v: View, ghost i: nat,
                   ghost fs: set<Region>, ghost us: set<Region>)
    returns (ghost w: View)
    requires Trees(free, used, v.info, {m}) && ViewOf(v.list) == v && Place(v, m, i)
    requires fs == Nodes(free.tree) && us == Nodes(used.tree)
    requires end != m.end ==> forall x :: x in fs ==> x.start != end
    requires forall x :: x in us ==> x.start != start
    modifies free, used, v.info.Keys
    ensures Trees(free, used, w.info, {}) && ViewOf(w.list) == w && Place(w, m, i)
    ensures w.info.Keys >= v.info.Keys && fresh(w.info.Keys - v.info.Keys)
    ensures TilingOf(w) == WithBack(TilingOf(v), i, start, end)
  {
    hide Ordered, Chained;
    ghost var v2 := KeepBack(free, used, m, end, m.end, v, i, fs, us);
    w := Claim(free, used, m, start, end, v2, i, Nodes(free.tree), us);
  }

  /** `__partition_region`: a used region of `pages` pages, `align` pages into the free region `m`. */
  method CarveOut(free: SpRoot, used: SpRoot, m: Region, align: nat, pages: nat, ghost v: View, ghost i: nat,
                  ghost fs: set<Region>, ghost us: set<Region>)
    returns (ghost w: View)
    requires Trees(free, used, v.info, {}) && ViewOf(v.list) == v && Place(v, m, i) && !v.info[m].used
    requires m.start + align + pages <= m.end && pages > 0 && fs == Nodes(free.tree) && us == Nodes(used.tree)
    requires Outside(fs - {m}, m.start, m.end) && Outside(us, m.start, m.end)
    modifies free, used, v.info.Keys
    ensures Trees(free, used, w.info, {}) && ViewOf(w.list) == w && Chained(w)
    ensures w.info.Keys >= v.info.Keys && fresh(w.info.Keys - v.info.Keys)
    ensures TilingOf(w) == Carve(TilingOf(v), i, align, pages)
  {
    hide Ordered, Chained, TilingOf, Carve, WithFront, WithBack, Indexed;
    Within(v.info, fs, us, {});
    var start := m.start + align;
    Here(v, m, i);
    ghost var v1, k := DetachFront(free, used, m, start, v, i, fs, us);
    ghost var fs1 := Nodes(free.tree);
    var end := start + pages;
    assert end != m.end ==> forall x :: x in fs1 ==> x.start != end;
    w := ClaimBack(free, used, m, start, end, v1, k, fs1, us);
    CarveSteps(TilingOf(v), i, align, pages, start, end, TilingOf(v1), k);
  }

  // ---------------------------------------------------------------------- freeing

  /** The links and extents once `m` has swallowed the region before it, which still has its own. */
  ghost function SwallowedPrev(v: View, i: nat): (w: View)
    requires Chained(v) && 0 < i < |v.list|
    ensures w.list == v.list && w.info.Keys == v.info.Keys
    ensures forall x :: x in v.info ==> w.info[x].used == v.info[x].used
    ensures MergePrev(v, i).info == w.info - {v.list[i - 1]}
  {
    assert LinkOk(v, i) && LinkOk(v, i - 1);
    var m, p := v.list[i], v.list[i - 1];
    var pp := v.info[p].prev;
    assert pp != null ==> LinkOk(v, i - 2);
    View(WithNext(v.info[m := v.info[m].(start := v.info[p].start, prev := pp)], pp, m), v.list)
  }

  ghost function SwallowedNext(v: View, i: nat): (w: View)
    requires Chained(v) && i + 1 < |v.list|
    ensures w.list == v.list && w.info.Keys == v.info.Keys
    ensures forall x :: x in v.info ==> w.info[x].used == v.info[x].used
    ensures MergeNext(v, i).info == w.info - {v.list[i + 1]}
  {
    assert LinkOk(v, i) && LinkOk(v, i + 1);
    var m, x := v.list[i], v.list[i + 1];
    var xx := v.info[x].next;
    assert xx != null ==> LinkOk(v, i + 2);
    View(WithPrev(v.info[m := v.info[m].(end := v.info[x].end, next := xx)], xx, m), v.list)
  }

  method PutStart(m: Region, start: nat, prev: Region?, ghost nodes: set<Region>)
    requires m in nodes
    modifies m`start, m`prev
    ensures Shot(nodes) == old(Shot(nodes))[m := old(Shot(nodes))[m].(start := start, prev := prev)]
  {
    m.start, m.prev := start, prev;
  }

  method PutEnd(m: Region, end: nat, next: Region?, ghost nodes: set<Region>)
    requires m in nodes
    modifies m`end, m`next
    ensures Shot(nodes) == old(Shot(nodes))[m := old(Shot(nodes))[m].(end := end, next := next)]
  {
    m.end, m.next := end, next;
  }

  /** Lines 551-555 */
  method JoinPrev(m: Region, p: Region, ghost v: View, ghost i: nat)
    requires ViewOf(v.list) == v && Place(v, m, i) && i > 0 && v.list[i - 1] == p
    modifies m`start, m`prev, v.info.Keys`next
    ensures ViewOf(v.list) == SwallowedPrev(v, i)
  {
    assert LinkOk(v, i) && LinkOk(v, i - 1) && (i > 1 ==> LinkOk(v, i - 2));
    var pp := p.prev;
    PutStart(m, p.start, pp, Elems(v.list));
    PutNext(pp, m, Elems(v.list));
  }

  /** Lines 580-584 */
  method JoinNext(m: Region, x: Region, ghost v: View, ghost i: nat)
    requires ViewOf(v.list) == v && Place(v, m, i) && i + 1 < |v.list| && v.list[i + 1] == x
    modifies m`end, m`next, v.info.Keys`prev
    ensures ViewOf(v.list) == SwallowedNext(v, i)
  {
    assert LinkOk(v, i) && LinkOk(v, i + 1) && (i + 2 < |v.list| ==> LinkOk(v, i + 2));
    var xx := x.next;
    PutEnd(m, x.end, xx, Elems(v.list));
    PutPrev(xx, m, Elems(v.list));
  }

  lemma IndexedSameKind(m: map<Region, Info>, m': map<Region, Info>, free: set<Region>, used: set<Region>,
      out: set<Region>)
    requires Indexed(m, free, used, out) && m'.Keys == m.Keys && forall x :: x in m ==> m'[x].used == m[x].used
    ensures Indexed(m', free, used, out)
  {
    forall x | x in m' && x !in out ensures InOwnTree(m', x, free, used) {
      assert InOwnTree(m, x, free, used);
    }
  }

  lemma IndexedDropped(m: map<Region, Info>, free: set<Region>, used: set<Region>, out: set<Region>, p: Region)
    requires Indexed(m, free, used, out + {p}) && p !in out
    ensures Indexed(m - {p}, free, used, out)
  {
    forall x | x in m - {p} && x !in out ensures InOwnTree(m - {p}, x, free, used) {
      assert InOwnTree(m, x, free, used);
    }
  }

  /** Lines 551-557: `m` swallows the free region in front of it, which leaves the list and the free tree. */
  method SwallowPrev(free: SpRoot, used: SpRoot, m: Region, p: Region, ghost v: View, ghost i: nat,
                     ghost fs: set<Region>, ghost us: set<Region>)
    returns (ghost w: View)
    requires Trees(free, used, v.info, {m}) && ViewOf(v.list) == v && Place(v, m, i)
    requires i > 0 && v.list[i - 1] == p && p in v.info && !v.info[p].used
    requires fs == Nodes(free.tree) && us == Nodes(used.tree) && m !in fs && m !in us && p != m
    modifies free, m`start, m`prev, v.info.Keys`next, fs`left, fs`right, fs`parent, fs`hint
    ensures Trees(free, used, w.info, {m}) && w == MergePrev(v, i) && ViewOf(v.list).info - {p} == w.info
    ensures Nodes(free.tree) == fs - {p}
  {
    hide Ordered, Chained, Indexed, LinkOk, Linked, Apart, Inorder;
    ghost var trees := Trees(free, used, v.info, {m});
    JoinPrev(m, p, v, i);
    assert trees == Trees(free, used, v.info, {m});
    ghost var v1 := SwallowedPrev(v, i);
    IndexedSameKind(v.info, v1.info, fs, us, {m});
    UnindexFree(free, used, p, v1, {m}, fs, us);
    IndexedDropped(v1.info, Nodes(free.tree), us, {m}, p);
    w := MergePrev(v, i);
  }

  /** Lines 580-586: `m` swallows the free region behind it. */
  method SwallowNext(free: SpRoot, used: SpRoot, m: Region, x: Region, ghost v: View, ghost i: nat,
                     ghost fs: set<Region>, ghost us: set<Region>)
    returns (ghost w: View)
    requires Trees(free, used, v.info, {m}) && ViewOf(v.list) == v && Place(v, m, i)
    requires i + 1 < |v.list| && v.list[i + 1] == x && x in v.info && !v.info[x].used
    requires fs == Nodes(free.tree) && us == Nodes(used.tree) && m !in fs && m !in us && x != m
    modifies free, m`end, m`next, v.info.Keys`prev, fs`left, fs`right, fs`parent, fs`hint
    ensures Trees(free, used, w.info, {m}) && w == MergeNext(v, i) && ViewOf(v.list).info - {x} == w.info
    ensures Nodes(free.tree) == fs - {x}
  {
    hide Ordered, Chained, Indexed, LinkOk, Linked, Apart, Inorder;
    ghost var trees := Trees(free, used, v.info, {m});
    JoinNext(m, x, v, i);
    assert trees == Trees(free, used, v.info, {m});
    ghost var v1 := SwallowedNext(v, i);
    IndexedSameKind(v.info, v1.info, fs, us, {m});
    UnindexFree(free, used, x, v1, {m}, fs, us);
    IndexedDropped(v1.info, Nodes(free.tree), us, {m}, x);
    w := MergeNext(v, i);
  }

  lemma MergePrevView(v: View, i: nat, m: Region)
    requires Place(v, m, i) && i > 0
    ensures var w, t := MergePrev(v, i), TilingOf(v);
            && Place(w, m, i - 1) && Elems(w.list) == v.info.Keys - {v.list[i - 1]}
            && TilingOf(w) == t[..i - 1] + [Extent(t[i - 1].start, t[i].end, t[i].used)] + t[i + 1..]
            && w.info[m].prev == (if i == 1 then null else v.list[i - 2])
            && (i > 1 ==> v.list[i - 2] in w.info && w.info[v.list[i - 2]].used == t[i - 2].used)
  {
    MergePrevOk(v, i);
    MergePrevPoints(v, i);
    var w := MergePrev(v, i);
    assert LinkOk(w, i - 1);
    if i > 1 { assert LinkOk(w, i - 2) && TilingOf(w)[i - 2] == TilingOf(v)[i - 2]; }
  }

  method DropPrev(free: SpRoot, used: SpRoot, m: Region, p: Region, ghost v: View, ghost i: nat,
                  ghost fs: set<Region>, ghost us: set<Region>)
    returns (ghost w: View)
    requires Trees(free, used, v.info, {m}) && ViewOf(v.list) == v && Place(v, m, i)
    requires i > 0 && v.list[i - 1] == p && p in v.info && !v.info[p].used
    requires fs == Nodes(free.tree) && us == Nodes(used.tree) && m !in fs && m !in us && p != m
    modifies free, m`start, m`prev, v.info.Keys`next, fs`left, fs`right, fs`parent, fs`hint
    ensures Trees(free, used, w.info, {m}) && w == MergePrev(v, i) && ViewOf(w.list) == w
        && w.info.Keys == v.info.Keys - {p}
    ensures Nodes(free.tree) == fs - {p}
  {
    hide Trees, LinkOk, Chained, TilingOf, MergePrev, Place;
    KeysAreList(v, m, i);
    w := SwallowPrev(free, used, m, p, v, i, fs, us);
    MergePrevView(v, i, m);
    Dropped(v, w, p);
  }

  lemma KeysAreList(v: View, m: Region, i: nat)
    requires Place(v, m, i)
    ensures Elems(v.list) == v.info.Keys && v.list[i] == m && m in v.info
  {
  }

  /** A view without the region `p` that was swallowed. */
  lemma Dropped(v: View, w: View, p: Region)
    requires ViewOf(v.list).info - {p} == w.info && Elems(w.list) == Elems(v.list) - {p}
    ensures ViewOf(w.list) == w
  {
  }

  /** The tiling after `__try_coalesce_prev` and after `__try_coalesce_next` on region `i`. */
  ghost function MergedPrev(t: Tiling, i: nat): Tiling
    requires i < |t|
  {
    if i == 0 || t[i - 1].used then t else t[..i - 1] + [Extent(t[i - 1].start, t[i].end, t[i].used)] + t[i + 1..]
  }

  ghost function MergedNext(t: Tiling, i: nat): Tiling
    requires i < |t|
  {
    if i + 1 == |t| || t[i + 1].used then t else t[..i] + [Extent(t[i].start, t[i + 1].end, t[i].used)] + t[i + 2..]
  }

  /** The tiling after `__try_coalesce_regions` on region `i`. */
  ghost function Merged(t: Tiling, i: nat): Tiling
    requires i < |t|
  {
    MergedNext(MergedPrev(t, i), if i == 0 || t[i - 1].used then i else i - 1)
  }

  /** Region `i` is free, and no two free regions lie side by side in front of it or behind it. */
  ghost predicate Mergeable(t: Tiling, i: nat)
    requires i < |t|
  {
    !t[i].used && (i > 1 ==> t[i - 2].used || t[i - 1].used) && (i + 2 < |t| ==> t[i + 1].used || t[i + 2].used)
  }

  lemma ViewReads(v: View, x: Region)
    requires ViewOf(v.list) == v && x in v.info
    ensures v.info[x] == Info(x.start, x.end, x.used, x.prev, x.next)
  {
  }

  /** What a list says about the region at place `i`. */
  lemma Around(v: View, m: Region, i: nat)
    requires Place(v, m, i)
    ensures m in v.info && v.info[m].prev == (if i == 0 then null else v.list[i - 1])
    ensures v.info[m].next == (if i + 1 == |v.list| then null else v.list[i + 1])
    ensures ExtentOf(v.info[m]) == TilingOf(v)[i]
    ensures i > 0 ==>
        v.list[i - 1] in v.info && v.list[i - 1] != m && ExtentOf(v.info[v.list[i - 1]]) == TilingOf(v)[i - 1]
    ensures i + 1 < |v.list| ==>
        v.list[i + 1] in v.info && v.list[i + 1] != m && ExtentOf(v.info[v.list[i + 1]]) == TilingOf(v)[i + 1]
  {
    assert LinkOk(v, i) && (i > 0 ==> LinkOk(v, i - 1)) && (i + 1 < |v.list| ==> LinkOk(v, i + 1));
    AllDistinct(v);
  }

  lemma NothingBefore(t: Tiling, i: nat)
    requires i < |t|
    ensures i == 0 || t[i - 1].used ==> MergedPrev(t, i) == t
  {
  }

  /** The region in front of `m` is free: `m` swallows it, and what is then in front of `m`, if anything, is used. */
  method MergeFront(free: SpRoot, used: SpRoot, m: Region, p: Region, ghost v: View, ghost i: nat,
      ghost us: set<Region>)
    returns (ghost w: View)
    requires Trees(free, used, v.info, {m}) && ViewOf(v.list) == v && Place(v, m, i) && us == Nodes(used.tree)
    requires i > 0 && v.list[i - 1] == p && p in v.info && !v.info[p].used
    requires var t := TilingOf(v); !t[i].used && !t[i - 1].used && (i > 1 ==> t[i - 2].used)
    modifies free, m`start, m`prev, v.info.Keys`next, v.info.Keys`left, v.info.Keys`right, v.info.Keys`parent,
        v.info.Keys`hint
    ensures Trees(free, used, w.info, {m}) && ViewOf(w.list) == w && Place(w, m, i - 1) && w.info.Keys <= v.info.Keys
    ensures TilingOf(w) == MergedPrev(TilingOf(v), i)
    ensures Nodes(free.tree) <= old(Nodes(free.tree)) && Nodes(used.tree) == us
    ensures m.prev != null ==> m.prev in w.info && w.info[m.prev].used
  {
    hide Ordered, Chained;
    TreesApart(v.info, Nodes(free.tree), us, {m});
    MergePrevView(v, i, m);
    w := DropPrev(free, used, m, p, v, i, Nodes(free.tree), us);
    ViewReads(w, m);
  }

  /** `__try_coalesce_prev`: with no two free neighbours in front, the loop merges at most once. */
  method CoalescePrev(free: SpRoot, used: SpRoot, m: Region, ghost v: View, ghost i: nat, ghost us: set<Region>)
    returns (ghost w: View, ghost k: nat)
    requires Trees(free, used, v.info, {m}) && ViewOf(v.list) == v && Place(v, m, i) && us == Nodes(used.tree)
    requires var t := TilingOf(v); !t[i].used && (i > 1 ==> t[i - 2].used || t[i - 1].used)
    modifies free, m`start, m`prev, v.info.Keys`next, v.info.Keys`left, v.info.Keys`right, v.info.Keys`parent,
        v.info.Keys`hint
    ensures Trees(free, used, w.info, {m}) && ViewOf(w.list) == w && Place(w, m, k) && w.info.Keys <= v.info.Keys
    ensures var t := TilingOf(v); k == (if i == 0 || t[i - 1].used then i else i - 1) && TilingOf(w) == MergedPrev(t, i)
    ensures Nodes(free.tree) <= old(Nodes(free.tree)) && Nodes(used.tree) == us
  {
    hide Trees, Chained, MergedPrev;
    ghost var t := TilingOf(v);
    ghost var done := false;
    w, k := v, i;
    var cur: Region? := m;
    while cur != null
      invariant Trees(free, used, w.info, {m}) && ViewOf(w.list) == w && Place(w, m, k) && w.info.Keys <= v.info.Keys
      invariant Nodes(free.tree) <= old(Nodes(free.tree)) && Nodes(used.tree) == us
      invariant !done ==> cur == m && w == v && k == i
      invariant done ==> i > 0 && !t[i - 1].used && k == i - 1 && TilingOf(w) == MergedPrev(t, i)
      invariant done && cur != null ==> cur in w.info && w.info[cur].used
      decreases !done
    {
      ViewReads(w, cur);
      if cur.used {
        return;
      }
      var p := cur.prev;
      Around(v, m, i);
      NothingBefore(t, i);
      if p == null || p.used {
        return;
      }
      w := MergeFront(free, used, m, p, v, i, us);
      k, done := i - 1, true;
      cur := cur.prev;
    }
  }

  lemma MergeNextView(v: View, i: nat, m: Region)
    requires Place(v, m, i) && i + 1 < |v.list|
    ensures var w, t := MergeNext(v, i), TilingOf(v);
            && Place(w, m, i) && Elems(w.list) == v.info.Keys - {v.list[i + 1]}
            && TilingOf(w) == t[..i] + [Extent(t[i].start, t[i + 1].end, t[i].used)] + t[i + 2..]
            && w.info[m].next == (if i + 2 == |v.list| then null else v.list[i + 2])
            && (i + 2 < |v.list| ==> v.list[i + 2] in w.info && w.info[v.list[i + 2]].used == t[i + 2].used)
  {
    MergeNextOk(v, i);
    var w := MergeNext(v, i);
    assert LinkOk(w, i);
    if i + 2 < |v.list| { MergeNextLink(v, i, i + 1); }
  }

  method DropNext(free: SpRoot, used: SpRoot, m: Region, x: Region, ghost v: View, ghost i: nat,
                  ghost fs: set<Region>, ghost us: set<Region>)
    returns (ghost w: View)
    requires Trees(free, used, v.info, {m}) && ViewOf(v.list) == v && Place(v, m, i)
    requires i + 1 < |v.list| && v.list[i + 1] == x && x in v.info && !v.info[x].used
    requires fs == Nodes(free.tree) && us == Nodes(used.tree) && m !in fs && m !in us && x != m
    modifies free, m`end, m`next, v.info.Keys`prev, fs`left, fs`right, fs`parent, fs`hint
    ensures Trees(free, used, w.info, {m}) && w == MergeNext(v, i) && ViewOf(w.list) == w
        && w.info.Keys == v.info.Keys - {x}
    ensures Nodes(free.tree) == fs - {x}
  {
    hide Ordered;
    w := SwallowNext(free, used, m, x, v, i, fs, us);
    MergeNextView(v, i, m);
  }

  /** `__try_coalesce_next`: with no two free neighbours behind, the loop merges at most once. */
  method CoalesceNext(free: SpRoot, used: SpRoot, m: Region, ghost v: View, ghost i: nat, ghost us: set<Region>)
    returns (ghost w: View)
    requires Trees(free, used, v.info, {m}) && ViewOf(v.list) == v && Place(v, m, i) && us == Nodes(used.tree)
    requires var t := TilingOf(v); !t[i].used && (i + 2 < |t| ==> t[i + 1].used || t[i + 2].used)
    modifies free, m`end, m`next, v.info.Keys`prev, v.info.Keys`left, v.info.Keys`right, v.info.Keys`parent,
        v.info.Keys`hint
    ensures Trees(free, used, w.info, {m}) && ViewOf(w.list) == w && Place(w, m, i) && w.info.Keys <= v.info.Keys
    ensures TilingOf(w) == MergedNext(TilingOf(v), i)
    ensures Nodes(free.tree) <= old(Nodes(free.tree)) && Nodes(used.tree) == us
  {
    hide Ordered, Chained, LinkOk, OrderedTree, Holds, MergeNext;
    ghost var t := TilingOf(v);
    ghost var done := false;
    w := v;
    var cur: Region? := m;
    while cur != null
      invariant Trees(free, used, w.info, {m}) && ViewOf(w.list) == w && Place(w, m, i) && w.info.Keys <= v.info.Keys
      invariant Nodes(free.tree) <= old(Nodes(free.tree)) && Nodes(used.tree) == us
      invariant !done ==> cur == m && w == v
      invariant done ==> i + 1 < |t| && !t[i + 1].used && TilingOf(w) == MergedNext(t, i)
      invariant done && cur != null ==> cur in w.info && w.info[cur].used
      decreases !done
    {
      ViewReads(w, cur);
      if cur.used {
        return;
      }
      var x := cur.next;
      Around(v, m, i);
      if x == null || x.used {
        return;
      }
      TreesApart(w.info, Nodes(free.tree), us, {m});
      MergeNextView(v, i, m);
      w := DropNext(free, used, m, x, v, i, Nodes(free.tree), us);
      done := true;
      ViewReads(w, m);
      cur := cur.next;
    }
  }

  lemma AfterPrev(t: Tiling, i: nat, u: Tiling, k: nat)
    requires i < |t| && u == t[i := t[i].(used := false)] && k == (if i == 0 || u[i - 1].used then i else i - 1)
    ensures var u1 := MergedPrev(u, i);
            && k < |u1| && |u1| - k == |t| - i && u1[k] == Extent(t[k].start, t[i].end, false)
            && u1[..k] == t[..k] && u1[k + 1..] == t[i + 1..]
  {
  }

  /** The region behind `i` is not affected by merging in front of it. */
  lemma BehindMerged(t: Tiling, i: nat, u: Tiling, k: nat)
    requires i < |t| && u == t[i := t[i].(used := false)] && k == (if i == 0 || u[i - 1].used then i else i - 1)
    ensures var u1 := MergedPrev(u, i);
            && k < |u1| && (i + 1 < |t| <==> k + 1 < |u1|)
            && (i + 1 < |t| ==> u1[k + 1] == t[i + 1] && u1[k + 2..] == t[i + 2..])
  {
    hide MergedPrev;
    AfterPrev(t, i, u, k);
    var u1 := MergedPrev(u, i);
    assert i + 1 < |t| ==> u1[k + 1] == u1[k + 1..][0] && t[i + 1] == t[i + 1..][0];
    assert i + 1 < |t| ==> u1[k + 2..] == u1[k + 1..][1..] && t[i + 2..] == t[i + 1..][1..];
  }

  lemma ReleaseSteps(t: Tiling, start: nat, end: nat, i: nat, u: Tiling)
    requires Tiles(t, start, end) && i < |t| && t[i].used && u == t[i := t[i].(used := false)]
    ensures Mergeable(u, i) && Merged(u, i) == Release(t, i)
    ensures var lo := ReleaseFrom(t, i); lo < |Release(t, i)| && !Release(t, i)[lo].used
  {
    hide MergedPrev;
    var k := if i == 0 || u[i - 1].used then i else i - 1;
    AfterPrev(t, i, u, k);
    BehindMerged(t, i, u, k);
    if i > 1 { assert Meets(t, i - 2); }
    if i + 2 < |t| { assert Meets(t, i + 1); }
  }

  lemma OutsideOthers(w: View, m: Region, k: nat, start: nat, end: nat)
    requires ViewOf(w.list) == w && Place(w, m, k) && Tiles(TilingOf(w), start, end)
    ensures Outside(w.info.Keys - {m}, m.start, m.end) && m.start < m.end
  {
    OthersOutside(w.list, k, start, end);
  }

  lemma MergeableNext(t: Tiling, i: nat, k: nat)
    requires i < |t| && Mergeable(t, i) && k == (if i == 0 || t[i - 1].used then i else i - 1)
    ensures var u := MergedPrev(t, i); k < |u| && !u[k].used && (k + 2 < |u| ==> u[k + 1].used || u[k + 2].used)
  {
  }

  lemma MergeableHere(t: Tiling, i: nat)
    requires i < |t| && Mergeable(t, i)
    ensures !t[i].used && (i > 1 ==> t[i - 2].used || t[i - 1].used)
    ensures var k := if i == 0 || t[i - 1].used then i
        else i - 1; k < |MergedPrev(t, i)| && Merged(t, i) == MergedNext(MergedPrev(t, i), k)
  {
  }

  /** `__try_coalesce_regions` */
  method Coalesce(free: SpRoot, used: SpRoot, m: Region, ghost v: View, ghost i: nat, ghost us: set<Region>)
    returns (ghost w: View, ghost k: nat)
    requires Trees(free, used, v.info, {m}) && ViewOf(v.list) == v && Place(v, m, i) && us == Nodes(used.tree)
    requires Mergeable(TilingOf(v), i)
    modifies free, v.info.Keys
    ensures Trees(free, used, w.info, {m}) && ViewOf(w.list) == w && Place(w, m, k) && w.info.Keys <= v.info.Keys
    ensures var t := TilingOf(v); k == (if i == 0 || t[i - 1].used then i else i - 1) && TilingOf(w) == Merged(t, i)
    ensures Nodes(used.tree) == us
  {
    hide Trees, Chained, TilingOf, MergedPrev, MergedNext, LinkOk, Inorder, Mergeable, Merged;
    ghost var v1;
    ghost var t := TilingOf(v);
    MergeableHere(t, i);
    v1, k := CoalescePrev(free, used, m, v, i, us);
    MergeableNext(t, i, k);
    w := CoalesceNext(free, used, m, v1, k, us);
  }

  /** Lines 623-624: the region leaves the used tree and counts as free. */
  method Loosen(free: SpRoot, used: SpRoot, m: Region, ghost v: View, ghost i: nat, ghost fs: set<Region>,
      ghost us: set<Region>)
    returns (ghost w: View)
    requires Trees(free, used, v.info, {}) && ViewOf(v.list) == v && Place(v, m, i) && v.info[m].used
    requires fs == Nodes(free.tree) && us == Nodes(used.tree)
    modifies used, m`start, m`end, m`used, us`left, us`right, us`parent, us`hint
    ensures Trees(free, used, w.info, {m}) && ViewOf(w.list) == w && Place(w, m, i) && w.info.Keys == v.info.Keys
    ensures TilingOf(w) == TilingOf(v)[i := TilingOf(v)[i].(used := false)]
    ensures Nodes(used.tree) == us - {m}
  {
    hide Ordered, Chained;
    JustOne(m);
    UnindexUsed(free, used, m, v, {}, fs, us);
    Around(v, m, i);
    ViewReads(v, m);
    w := SetExtent(free, used, m, m.start, m.end, false, v, i);
  }

  /** Line 627: the merged region enters the free tree. */
  method EnterFree(free: SpRoot, used: SpRoot, m: Region, ghost v: View, ghost i: nat, ghost start: nat, ghost end: nat,
                   ghost fs: set<Region>, ghost us: set<Region>)
    requires Trees(free, used, v.info, {m}) && ViewOf(v.list) == v && Place(v, m, i) && !TilingOf(v)[i].used
    requires fs == Nodes(free.tree) && us == Nodes(used.tree) && Tiles(TilingOf(v), start, end)
    modifies free, fs`left, fs`right, fs`parent, fs`hint, m`left, m`right, m`parent, m`hint
    ensures Trees(free, used, v.info, {}) && ViewOf(v.list) == v
  {
    hide Ordered, Chained, Tiles;
    JustOne(m);
    Around(v, m, i);
    OutsideOthers(v, m, i, start, end);
    TreesApart(v.info, fs, us, {m});
    IndexFree(free, used, m, v, {}, fs, us);
  }

  /** `free_known_region` */
  method FreeKnown(free: SpRoot, used: SpRoot, m: Region, ghost v: View, ghost i: nat, ghost start: nat, ghost end: nat,
                   ghost us: set<Region>)
    returns (ghost w: View)
    requires Trees(free, used, v.info, {}) && ViewOf(v.list) == v && Place(v, m, i) && v.info[m].used
    requires us == Nodes(used.tree) && Tiles(TilingOf(v), start, end)
    modifies free, used, v.info.Keys
    ensures Trees(free, used, w.info, {}) && ViewOf(w.list) == w && Chained(w) && w.info.Keys <= v.info.Keys
    ensures TilingOf(w) == Release(TilingOf(v), i)
  {
    hide Trees, Chained, TilingOf, Tiles, Merged, Release, Mergeable, Indexed, LinkOk, Inorder;
    TreesWithinInfo(free, used, v.info, {});
    ghost var t := TilingOf(v);
    Around(v, m, i);
    ghost var v1 := Loosen(free, used, m, v, i, Nodes(free.tree), us);
    ReleaseSteps(t, start, end, i, TilingOf(v1));
    ghost var k;
    w, k := Coalesce(free, used, m, v1, i, us - {m});
    ReleaseTiles(t, start, end, i);
    TreesWithinInfo(free, used, w.info, {m});
    EnterFree(free, used, m, w, k, start, end, Nodes(free.tree), us - {m});
  }
}
