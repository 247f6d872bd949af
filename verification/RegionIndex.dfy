/**
 The two search trees of src/regions.c: free regions ordered by (size, start), used regions ordered
 by start. Insertion keeps the order, and the searches find what a scan of all regions would find.
 */
module RegionIndex {
  import opened Tree
  import opened SpTree

  type Key = (int, int)

  function KeyOf(start: nat, end: nat, byStart: bool): Key {
    if byStart then (start, 0) else (end - start, start)
  }

  predicate Less(a: Key, b: Key) {
    a.0 < b.0 || (a.0 == b.0 && a.1 < b.1)
  }

  ghost function Keys(nodes: set<Region>, byStart: bool): (k: map<Region, Key>)
    reads nodes`start, nodes`end
    ensures k.Keys == nodes
  {
    map x | x in nodes :: KeyOf(x.start, x.end, byStart)
  }

  lemma KeyIs(nodes: set<Region>, x: Region, byStart: bool)
    requires x in nodes
    ensures Keys(nodes, byStart)[x] == KeyOf(x.start, x.end, byStart)
  {
  }

  ghost predicate Sorted(k: map<Region, Key>, s: seq<Region>) {
    && (forall i :: 0 <= i < |s| ==> s[i] in k)
    && (forall i, j :: 0 <= i < j < |s| ==> Less(k[s[i]], k[s[j]]))
  }

  /** The heap holds tree `t`, and its in-order sequence is sorted by the keys of its regions. */
  ghost predicate OrderedTree(t: Tree, byStart: bool)
    reads Nodes(t)`left, Nodes(t)`right, Nodes(t)`parent, Nodes(t)`hint, Nodes(t)`start, Nodes(t)`end
  {
    Holds(t) && HintsOk(Nodes(t)) && Sorted(Keys(Nodes(t), byStart), Inorder(t))
  }

  ghost predicate Ordered(rt: SpRoot, byStart: bool)
    reads rt, Nodes(rt.tree)`left, Nodes(rt.tree)`right, Nodes(rt.tree)`parent, Nodes(rt.tree)`hint
    reads Nodes(rt.tree)`start, Nodes(rt.tree)`end
  {
    OrderedTree(rt.tree, byStart) && rt.root == Top(rt.tree)
  }

  /**
   Used regions come in order of their start; free ones in order of their size, and of their start if equally large.
   */
  lemma OrderMeans(rt: SpRoot, byStart: bool, i: nat, j: nat)
    requires Ordered(rt, byStart) && i < j < |Inorder(rt.tree)|
    ensures var a, b := Inorder(rt.tree)[i], Inorder(rt.tree)[j];
            if byStart then a.start < b.start
            else a.end - a.start < b.end - b.start || (a.end - a.start == b.end - b.start && a.start < b.start)
  {
    hide Holds, HintsOk;
    var k, s := Keys(Nodes(rt.tree), byStart), Inorder(rt.tree);
    assert Less(k[s[i]], k[s[j]]);
  }

  /** Everything before the hole is smaller than `key` and everything after it greater. */
  ghost predicate Between(k: map<Region, Key>, c: Ctx, key: Key) {
    AllBelow(k, Before(c), key) && AllAbove(k, After(c), key)
  }

  ghost predicate AllBelow(k: map<Region, Key>, s: seq<Region>, key: Key) {
    forall i :: 0 <= i < |s| ==> s[i] in k && Less(k[s[i]], key)
  }

  ghost predicate AllAbove(k: map<Region, Key>, s: seq<Region>, key: Key) {
    forall i :: 0 <= i < |s| ==> s[i] in k && Less(key, k[s[i]])
  }

  lemma SplitSorted(k: map<Region, Key>, a: seq<Region>, b: seq<Region>, x: Region, d: seq<Region>, e: seq<Region>)
    requires Sorted(k, a + (b + [x] + d) + e)
    ensures x in k && AllBelow(k, b, k[x]) && AllAbove(k, d, k[x])
  {
    var s := a + (b + [x] + d) + e;
    assert s[|a| + |b|] == x;
    forall i | 0 <= i < |b| ensures b[i] in k && Less(k[b[i]], k[x]) {
      assert s[|a| + i] == b[i];
    }
    forall i | 0 <= i < |d| ensures d[i] in k && Less(k[x], k[d[i]]) {
      assert s[|a| + |b| + 1 + i] == d[i];
    }
  }

  lemma JoinBelow(k: map<Region, Key>, a: seq<Region>, b: seq<Region>, x: Region, key: Key)
    requires AllBelow(k, a, key) && x in k && Less(k[x], key) && AllBelow(k, b, k[x])
    ensures AllBelow(k, a + b + [x], key)
  {
  }

  lemma JoinAbove(k: map<Region, Key>, x: Region, d: seq<Region>, e: seq<Region>, key: Key)
    requires AllAbove(k, e, key) && x in k && Less(key, k[x]) && AllAbove(k, d, k[x])
    ensures AllAbove(k, [x] + d + e, key)
  {
  }

  lemma {:induction false} GoDown(k: map<Region, Key>, c: Ctx, t: Tree, key: Key)
    requires t.Branch? && Sorted(k, Inorder(Plug(c, t))) && Between(k, c, key)
    ensures t.n in k
    ensures Less(key, k[t.n]) ==> Between(k, LeftOf(t.n, t.r, c), key)
    ensures Less(k[t.n], key) ==> Between(k, RightOf(t.n, t.l, c), key)
  {
    InorderPlug(c, t);
    SplitSorted(k, Before(c), Inorder(t.l), t.n, Inorder(t.r), After(c));
    if Less(key, k[t.n]) { JoinAbove(k, t.n, Inorder(t.r), After(c), key); }
    if Less(k[t.n], key) { JoinBelow(k, Before(c), Inorder(t.l), t.n, key); }
  }

  lemma {:induction false} SortedInserted(k: map<Region, Key>, c: Ctx, n: Region, key: Key)
    requires Sorted(k, Before(c) + After(c)) && Between(k, c, key) && n !in k
    ensures Sorted(k[n := key], Before(c) + [n] + After(c))
  {
    var s, u := Before(c) + After(c), Before(c) + [n] + After(c);
    var a := |Before(c)|;
    forall i | 0 <= i < |u| ensures u[i] in k[n := key] && (i != a ==> u[i] == s[if i < a then i else i - 1]) {
    }
    forall i, j | 0 <= i < j < |u| ensures Less(k[n := key][u[i]], k[n := key][u[j]]) {
      if i == a { assert u[j] == After(c)[j - a - 1]; }
      if j == a { assert u[i] == Before(c)[i]; }
    }
  }

  /** The descent of `__insert_free_region` and `__insert_used_region`. */
  method FindSlot(rt: SpRoot, m: Region, byStart: bool) returns (p: Region?, d: Dir, ghost c: Ctx)
    requires Ordered(rt, byStart) && m !in Nodes(rt.tree)
    requires forall x :: x in Nodes(rt.tree) ==> x.start != m.start
    ensures rt.tree == Plug(c, Leaf) && Slot(c, p, d)
    ensures Between(Keys(Nodes(rt.tree), byStart), c, KeyOf(m.start, m.end, byStart))
  {
    ghost var nodes := Nodes(rt.tree);
    ghost var k := Keys(nodes, byStart);
    ghost var t := rt.tree;
    var key := KeyOf(m.start, m.end, byStart);
    var n := rt.root;
    p, d, c := null, GoLeft, Root;
    AtIffHolds(c, t, nodes);
    while n != null
      invariant n == Top(t) && At(c, t, nodes) && rt.tree == Plug(c, t) && Slot(c, p, d) && Between(k, c, key)
      decreases t
    {
      TopPointers(c, t, nodes);
      p := n;
      assert k[n] == KeyOf(n.start, n.end, byStart);
      MoveDown(c, t.l, n, t.r, nodes);
      GoDown(k, c, t, key);
      if Less(key, KeyOf(n.start, n.end, byStart)) {
        n, d := n.left, GoLeft;
        c, t := LeftOf(t.n, t.r, c), t.l;
      } else {
        n, d := n.right, GoRight;
        c, t := RightOf(t.n, t.l, c), t.r;
      }
    }
  }

  method ClearNode(m: Region, ghost nodes: set<Region>, ghost byStart: bool)
    requires m !in nodes && HintsOk(nodes)
    modifies m`left, m`right, m`parent, m`hint
    ensures Snap(nodes) == old(Snap(nodes)) && Keys(nodes, byStart) == old(Keys(nodes, byStart)) && HintsOk(nodes)
    ensures m.left == null && m.right == null && m.parent == null && m.hint == 0
  {
    m.left, m.right, m.parent, m.hint := null, null, null, 0;
  }

  /** `__insert_free_region` (by size and start) and `__insert_used_region` (by start). */
  method InsertRegion(rt: SpRoot, m: Region, byStart: bool, ghost nodes: set<Region>)
    requires Ordered(rt, byStart) && nodes == Nodes(rt.tree) && m !in nodes
    requires forall x :: x in nodes ==> x.start != m.start
    modifies rt, nodes`left, nodes`right, nodes`parent, nodes`hint, m`left, m`right, m`parent, m`hint
    ensures Ordered(rt, byStart) && Nodes(rt.tree) == nodes + {m}
  {
    ClearNode(m, nodes, byStart);
    InsertCleared(rt, m, byStart, nodes);
  }

  method InsertCleared(rt: SpRoot, m: Region, byStart: bool, ghost nodes: set<Region>)
    requires Ordered(rt, byStart) && nodes == Nodes(rt.tree) && m !in nodes
    requires forall x :: x in nodes ==> x.start != m.start
    requires m.left == null && m.right == null && m.parent == null && m.hint == 0
    modifies rt, nodes`left, nodes`right, nodes`parent, nodes`hint, m`left, m`right, m`parent, m`hint
    ensures Ordered(rt, byStart) && Nodes(rt.tree) == nodes + {m}
  {
    var p, d;
    ghost var c;
    p, d, c := FindPlace(rt, m, byStart, nodes);
    InsertKeeping(rt, p, m, d, c, nodes + {m}, byStart);
  }

  method FindPlace(rt: SpRoot, m: Region, byStart: bool, ghost nodes: set<Region>)
    returns (p: Region?, d: Dir, ghost c: Ctx)
    requires Ordered(rt, byStart) && nodes == Nodes(rt.tree) && m !in nodes
    requires forall x :: x in nodes ==> x.start != m.start
    ensures rt.tree == Plug(c, Leaf) && Slot(c, p, d)
    ensures Sorted(Keys(nodes + {m}, byStart), Before(c) + [m] + After(c))
  {
    p, d, c := FindSlot(rt, m, byStart);
    InsertedOrder(Keys(nodes, byStart), c, rt.tree, m, KeyOf(m.start, m.end, byStart));
    assert Keys(nodes + {m}, byStart) == Keys(nodes, byStart)[m := KeyOf(m.start, m.end, byStart)];
  }

  /** `sp_insert` does not touch the extents of regions. */
  method InsertKeeping(rt: SpRoot, p: Region?, m: Region, d: Dir, ghost c: Ctx, ghost all: set<Region>,
      ghost byStart: bool)
    requires rt.Valid() && rt.tree == Plug(c, Leaf) && Slot(c, p, d) && m !in Nodes(rt.tree)
    requires m.left == null && m.right == null && m.parent == null && m.hint == 0
    requires all == Nodes(rt.tree) + {m}
    modifies rt, all`left, all`right, all`parent, all`hint
    ensures rt.Valid() && Nodes(rt.tree) == all && Inorder(rt.tree) == Before(c) + [m] + After(c)
    ensures Keys(all, byStart) == old(Keys(all, byStart))
  {
    Insert(rt, p, m, d, c, all);
  }

  lemma {:induction false} InsertedOrder(k: map<Region, Key>, c: Ctx, t: Tree, m: Region, key: Key)
    requires t == Plug(c, Leaf) && Sorted(k, Inorder(t)) && Between(k, c, key) && m !in k
    ensures Sorted(k[m := key], Before(c) + [m] + After(c))
  {
    InorderPlug(c, Leaf);
    assert Before(c) + Inorder(Leaf) == Before(c);
    SortedInserted(k, c, m, key);
  }

  lemma SortedRemoved(k: map<Region, Key>, s: seq<Region>, i: nat, gone: Region, k': map<Region, Key>)
    requires Sorted(k, s) && i < |s| && s[i] == gone
    requires k'.Keys == k.Keys - {gone} && forall x :: x in k' ==> k'[x] == k[x]
    ensures Sorted(k', s[..i] + s[i + 1..])
  {
    var u := s[..i] + s[i + 1..];
    forall j | 0 <= j < |u| ensures u[j] == s[if j < i then j else j + 1] {}
    forall j | 0 <= j < |s| && j != i ensures s[j] != gone {
      if j < i { assert Less(k[s[j]], k[s[i]]); } else { assert Less(k[s[i]], k[s[j]]); }
    }
  }

  /** `sp_remove` keeps the order. */
  method RemoveRegion(rt: SpRoot, m: Region, byStart: bool, ghost nodes: set<Region>)
    requires Ordered(rt, byStart) && nodes == Nodes(rt.tree) && m in nodes
    modifies rt, nodes`left, nodes`right, nodes`parent, nodes`hint
    ensures Ordered(rt, byStart) && Nodes(rt.tree) == nodes - {m}
  {
    ghost var k, s := Keys(nodes, byStart), Inorder(rt.tree);
    ghost var i := Remove(rt, m, nodes);
    SortedRemoved(k, s, i, m, Keys(nodes - {m}, byStart));
  }

  // ------------------------------------------------------------------- searches

  /** Once a search has run out of tree, every region is on one side of it. */
  lemma {:induction false} AllOutside(c: Ctx, t: Tree, x: Region)
    requires x in Nodes(Plug(c, t))
    ensures x in Before(c) || x in Inorder(t) || x in After(c)
  {
    NodeInInorder(Plug(c, t), x);
    InorderPlug(c, t);
  }

  /** `find_used_region` */
  method FindUsedRegion(rt: SpRoot, ref: nat) returns (r: Region?)
    requires Ordered(rt, true)
    ensures r != null ==> r in Nodes(rt.tree) && r.start == ref
    ensures r == null ==> forall x :: x in Nodes(rt.tree) ==> x.start != ref
  {
    ghost var nodes := Nodes(rt.tree);
    ghost var k := Keys(nodes, true);
    ghost var c, t := Root, rt.tree;
    AtIffHolds(c, t, nodes);
    r := rt.root;
    while r != null
      invariant r == Top(t) && At(c, t, nodes) && rt.tree == Plug(c, t) && Between(k, c, (ref, 0))
      decreases t
    {
      TopPointers(c, t, nodes);
      if ref == r.start {
        return;
      }
      MoveDown(c, t.l, r, t.r, nodes);
      GoDown(k, c, t, (ref, 0));
      if ref < r.start {
        r := r.left;
        c, t := LeftOf(t.n, t.r, c), t.l;
      } else {
        r := r.right;
        c, t := RightOf(t.n, t.l, c), t.r;
      }
    }
    forall x | x in nodes ensures x.start != ref {
      AllOutside(c, t, x);
      assert k[x] == (x.start, 0);
    }
  }

  function Distance(a: int, b: int): nat {
    if a < b then b - a else a - b
  }

  /** No region of `s` starts closer to `ref` than `best` does. */
  ghost predicate NotCloser(k: map<Region, Key>, s: seq<Region>, ref: int, best: nat) {
    forall i :: 0 <= i < |s| ==> s[i] in k && best <= Distance(ref, k[s[i]].0)
  }

  lemma FartherAbove(k: map<Region, Key>, x: Region, d: seq<Region>, e: seq<Region>, ref: int, best: nat)
    requires x in k && AllAbove(k, d, k[x]) && ref < k[x].0 && best <= Distance(ref, k[x].0)
        && NotCloser(k, e, ref, best)
    ensures NotCloser(k, [x] + d + e, ref, best)
  {
  }

  lemma FartherBelow(k: map<Region, Key>, a: seq<Region>, b: seq<Region>, x: Region, ref: int, best: nat)
    requires x in k && AllBelow(k, b, k[x]) && k[x].0 < ref && best <= Distance(ref, k[x].0)
        && NotCloser(k, a, ref, best)
    ensures NotCloser(k, a + b + [x], ref, best)
  {
  }

  /** Nothing on either side of the hole starts closer to `ref`. */
  ghost predicate Closest(k: map<Region, Key>, c: Ctx, ref: int, best: nat) {
    NotCloser(k, Before(c), ref, best) && NotCloser(k, After(c), ref, best)
  }

  lemma {:induction false} KeepClosest(k: map<Region, Key>, c: Ctx, t: Tree, ref: int, best: nat)
    requires t.Branch? && Sorted(k, Inorder(Plug(c, t))) && Closest(k, c, ref, best)
    ensures t.n in k
    ensures best <= Distance(ref, k[t.n].0) && ref < k[t.n].0 ==> Closest(k, LeftOf(t.n, t.r, c), ref, best)
    ensures best <= Distance(ref, k[t.n].0) && k[t.n].0 < ref ==> Closest(k, RightOf(t.n, t.l, c), ref, best)
  {
    InorderPlug(c, t);
    SplitSorted(k, Before(c), Inorder(t.l), t.n, Inorder(t.r), After(c));
    if best <= Distance(ref, k[t.n].0) && ref < k[t.n].0 { FartherAbove(k, t.n, Inorder(t.r), After(c), ref, best); }
    if best <= Distance(ref, k[t.n].0) && k[t.n].0 < ref { FartherBelow(k, Before(c), Inorder(t.l), t.n, ref, best); }
  }

  /** `find_closest_used_region` on a non-empty tree: one path down the tree finds the closest start. */
  method FindClosestUsed(rt: SpRoot, ref: nat) returns (closest: Region)
    requires Ordered(rt, true) && rt.root != null
    ensures closest in Nodes(rt.tree)
    ensures forall x :: x in Nodes(rt.tree) ==> Nearer(ref, closest.start, x.start)
  {
    ghost var nodes := Nodes(rt.tree);
    ghost var k := Keys(nodes, true);
    ghost var c, t := Root, rt.tree;
    AtIffHolds(c, t, nodes);
    var n := rt.root;
    closest := rt.root;
    var md := Distance(ref, closest.start);
    assert closest in nodes;
    while n != null
      invariant n == Top(t) && At(c, t, nodes) && rt.tree == Plug(c, t)
      invariant closest in nodes && md == Distance(ref, closest.start) && Closest(k, c, ref, md)
      decreases t
    {
      TopPointers(c, t, nodes);
      var d := Distance(ref, n.start);
      if d == 0 {
        return n;
      }
      if d < md {
        closest, md := n, d;
      }
      assert k[n].0 == n.start;
      KeepClosest(k, c, t, ref, md);
      MoveDown(c, t.l, n, t.r, nodes);
      if ref < n.start {
        n := n.left;
        c, t := LeftOf(t.n, t.r, c), t.l;
      } else {
        n := n.right;
        c, t := RightOf(t.n, t.l, c), t.r;
      }
    }
    forall x | x in nodes ensures Nearer(ref, closest.start, x.start) {
      AllOutside(c, t, x);
      assert k[x] == (x.start, 0);
    }
  }

  /** `a` is at least as near to `ref` as `b` is, on whichever side either lies. */
  ghost predicate Nearer(ref: int, a: int, b: int) {
    || (b <= ref && a <= ref && b <= a) || (b <= ref && a >= ref && a - ref <= ref - b)
    || (b >= ref && a <= ref && ref - a <= b - ref) || (b >= ref && a >= ref && a <= b)
  }

  /** `__page(po_align(__addr(size)))`: the largest page order, in base pages, that fits into `size` pages. */
  function Alignment(size: nat): nat {
    if size >= 262144 then 262144 else if size >= 512 then 512 else 0
  }

  /** `align_up`, which treats alignment 0 like 1. */
  function AlignUp(x: nat, a: nat): (r: nat)
    ensures x <= r && (a == 0 ==> r == x) && (a > 0 ==> r < x + a)
    ensures (a == 512 ==> r % 512 == 0) && (a == 262144 ==> r % 262144 == 0)
  {
    if a == 0 || x % a == 0 then x else x - x % a + a
  }

  /** The regions on the right spine of a tree, from the top down. */
  ghost function Spine(t: Tree): seq<Region> {
    if t.Leaf? then [] else [t.n] + Spine(t.r)
  }

  ghost predicate FitsIn(x: Region, size: nat)
    reads x`start, x`end
  {
    x.start + size <= x.end
  }

  /** The size fits behind the aligned start of the region. */
  ghost predicate FitsAligned(x: Region, size: nat)
    reads x`start, x`end
  {
    AlignUp(x.start, Alignment(size)) + size <= x.end
  }

  /** What a start address should be a multiple of: the largest page size, in base pages, that `size` pages can use. */
  ghost function Unit(size: nat): nat {
    if size < 512 then 1 else if size < 262144 then 512 else 262144
  }

  /** `a` is the least multiple of `unit` that is not below `start`. */
  ghost predicate LeastMultiple(a: nat, start: nat, unit: nat) {
    unit > 0 && start <= a < start + unit && a % unit == 0
  }

  /** From some multiple of `unit` on, `size` pages fit between `start` and `end`. */
  ghost predicate Roomy(start: nat, end: nat, size: nat, unit: nat) {
    unit > 0 && exists a: nat :: start <= a && a % unit == 0 && a + size <= end
  }

  /**
   The choice among the regions of the spine: the first in which the size fits from a multiple of `unit` on, and there
   the least such multiple; if there is none, the start of the first in which it fits at all.
   */
  ghost predicate Chosen(spine: seq<Region>, size: nat, r: Region, align: nat, unit: nat)
    reads spine`start, spine`end
  {
    exists k :: 0 <= k < |spine| && spine[k] == r &&
      if Roomy(r.start, r.end, size, unit) then
        && LeastMultiple(r.start + align, r.start, unit)
        && forall j :: 0 <= j < k ==> !Roomy(spine[j].start, spine[j].end, size, unit)
      else
        && align == 0 && FitsIn(r, size)
        && (forall j :: 0 <= j < |spine| ==> !Roomy(spine[j].start, spine[j].end, size, unit))
        && forall j :: 0 <= j < k ==> !FitsIn(spine[j], size)
  }

  /** Aligning up by the page size of a request is going to the least multiple, which leaves room if any does. */
  lemma AlignedIs(start: nat, size: nat)
    ensures LeastMultiple(AlignUp(start, Alignment(size)), start, Unit(size))
    ensures forall end: nat :: AlignUp(start, Alignment(size)) + size <= end <==> Roomy(start, end, size, Unit(size))
  {
    var a, u := AlignUp(start, Alignment(size)), Unit(size);
    forall end: nat ensures a + size <= end <==> Roomy(start, end, size, u) {
      if Roomy(start, end, size, u) {
        var b: nat :| start <= b && b % u == 0 && b + size <= end;
        MultiplesApart(a, b, start, size);
      }
      if a + size <= end {
        assert start <= a && a % u == 0;
      }
    }
  }

  lemma MultiplesApart(a: nat, b: nat, start: nat, size: nat)
    requires LeastMultiple(a, start, Unit(size)) && start <= b && b % Unit(size) == 0
    ensures a <= b
  {
  }

  /** Whether a region has room for the size behind its aligned start. */
  lemma RoomyIs(x: Region, size: nat)
    ensures FitsAligned(x, size) <==> Roomy(x.start, x.end, size, Unit(size))
  {
    AlignedIs(x.start, size);
  }

  /** Regions smaller than `size` pages only. */
  ghost predicate AllSmaller(k: map<Region, Key>, s: seq<Region>, size: int) {
    forall i :: 0 <= i < |s| ==> s[i] in k && k[s[i]].0 < size
  }

  lemma {:induction false} SmallerBelow(k: map<Region, Key>, c: Ctx, t: Tree, size: int)
    requires t.Branch? && Sorted(k, Inorder(Plug(c, t))) && AllSmaller(k, Before(c), size)
    requires t.n in k && k[t.n].0 < size
    ensures AllSmaller(k, Before(RightOf(t.n, t.l, c)), size)
  {
    InorderPlug(c, t);
    SplitSorted(k, Before(c), Inorder(t.l), t.n, Inorder(t.r), After(c));
  }

  /**
   `find_free_region` without a reserved prefix: it follows only the right spine of the tree, and still
   finds a region whenever some free region is large enough.
   */
  method FindFreeRegion(rt: SpRoot, size: nat) returns (r: Region?, align: nat)
    requires Ordered(rt, false) && size > 0
    requires forall x :: x in Nodes(rt.tree) ==> x.start < x.end
    ensures r == null <==> forall x :: x in Nodes(rt.tree) ==> x.end - x.start < size
    ensures r != null ==> r in Nodes(rt.tree) && r.start + align + size <= r.end
    ensures r != null && size < 512 ==> Chosen(Spine(rt.tree), size, r, align, 1)
    ensures r != null && 512 <= size < 262144 ==> Chosen(Spine(rt.tree), size, r, align, 512)
    ensures r != null && size >= 262144 ==> Chosen(Spine(rt.tree), size, r, align, 262144)
  {
    hide SeenSoFar, Chosen, Spine, Linked, CtxLinked, CtxApart, FitsAligned, RightSpine;
    ghost var nodes := Nodes(rt.tree);
    ghost var k := Keys(nodes, false);
    ghost var c, t := Root, rt.tree;
    ghost var seen: seq<Region> := [];
    ghost var best: nat := 0;
    AtIffHolds(c, t, nodes);
    NothingSeen(size, t);
    align := 0;
    var offset := Alignment(size);
    r := null;
    var n := rt.root;
    while n != null
      invariant n == Top(t) && At(c, t, nodes) && rt.tree == Plug(c, t) && RightSpine(c) && align == 0
      invariant r == null ==> AllSmaller(k, Before(c), size)
      invariant Spine(rt.tree) == seen + Spine(t) && SeenSoFar(seen, size, r, best)
      invariant r != null ==> r in nodes && FitsIn(r, size) && best < |seen|
      decreases t
    {
      TopPointers(c, t, nodes);
      var start := AlignUp(n.start, offset);
      KeyIs(nodes, n, false);
      SpineStep(seen, t, c);
      if r == null && size <= n.end - n.start {
        FitsNow(seen, size, n, best);
        r, best := n, |seen|;
      }
      if n.end >= start && size <= n.end - start {
        align := start - n.start;
        ChosenAligned(seen, size, r, best, n, Spine(t.r), align);
        return n, align;
      }
      if r == null { SmallerBelow(k, c, t, size); }
      MoveDown(c, t.l, n, t.r, nodes);
      SeenMore(seen, size, r, best, n);
      seen := seen + [t.n];
      n := n.right;
      c, t := RightOf(t.n, t.l, c), t.r;
    }
    SpineOrder(c);
    SpineEnds(seen, t);
    if r != null { ChosenFallback(seen, size, r, best); }
    forall x | x in nodes && r == null ensures x.end - x.start < size {
      AllOutside(c, t, x);
      KeyIs(nodes, x, false);
    }
  }

  /** What the search knows after the regions `seen`: none fits aligned, and `r` is the first that fits, if any does. */
  ghost predicate SeenSoFar(seen: seq<Region>, size: nat, r: Region?, best: nat)
    reads seen`start, seen`end
  {
    && (forall j :: 0 <= j < |seen| ==> !FitsAligned(seen[j], size))
    && (r == null ==> forall j :: 0 <= j < |seen| ==> !FitsIn(seen[j], size))
    && (r != null ==> best <= |seen| && (best < |seen| ==> seen[best] == r) && forall j :: 0 <= j < best ==>
        !FitsIn(seen[j], size))
  }

  lemma NothingSeen(size: nat, t: Tree)
    ensures SeenSoFar([], size, null, 0) && Spine(t) == [] + Spine(t) && RightSpine(Root)
  {
  }

  /** The region about to be visited is the first that fits. */
  lemma FitsNow(seen: seq<Region>, size: nat, n: Region, best: nat)
    requires SeenSoFar(seen, size, null, best)
    requires size <= n.end - n.start
    ensures SeenSoFar(seen, size, n, |seen|) && FitsIn(n, size)
  {
  }

  lemma SeenMore(seen: seq<Region>, size: nat, r: Region?, best: nat, n: Region)
    requires SeenSoFar(seen, size, r, best) && !(AlignUp(n.start, Alignment(size)) + size <= n.end)
    requires r == null ==> n.end - n.start < size
    requires r != null && best == |seen| ==> r == n
    ensures SeenSoFar(seen + [n], size, r, best)
  {
  }

  lemma ChosenAligned(seen: seq<Region>, size: nat, r: Region?, best: nat, n: Region, rest: seq<Region>, align: nat)
    requires SeenSoFar(seen, size, r, best)
    requires AlignUp(n.start, Alignment(size)) + size <= n.end && align == AlignUp(n.start, Alignment(size)) - n.start
    ensures Chosen((seen + [n]) + rest, size, n, align, Unit(size))
  {
    hide Roomy, Alignment, AlignUp, Unit;
    AlignedIs(n.start, size);
    forall x ensures FitsAligned(x, size) <==> Roomy(x.start, x.end, size, Unit(size)) { RoomyIs(x, size); }
    var spine := (seen + [n]) + rest;
    assert spine[|seen|] == n && forall j :: 0 <= j < |seen| ==> spine[j] == seen[j];
  }

  lemma ChosenFallback(seen: seq<Region>, size: nat, r: Region, best: nat)
    requires SeenSoFar(seen, size, r, best) && best < |seen| && FitsIn(r, size)
    ensures Chosen(seen, size, r, 0, Unit(size))
  {
    hide Roomy, Alignment, AlignUp, Unit;
    forall x ensures FitsAligned(x, size) <==> Roomy(x.start, x.end, size, Unit(size)) { RoomyIs(x, size); }
  }

  lemma SpineStep(seen: seq<Region>, t: Tree, c: Ctx)
    requires t.Branch?
    ensures seen + Spine(t) == (seen + [t.n]) + Spine(t.r) && (RightSpine(c) ==> RightSpine(RightOf(t.n, t.l, c)))
  {
  }

  lemma {:induction false} SpineWithin(t: Tree)
    ensures forall k :: 0 <= k < |Spine(t)| ==> Spine(t)[k] in Nodes(t)
  {
    if t.Branch? { SpineWithin(t.r); }
  }

  lemma SpineEnds(seen: seq<Region>, t: Tree)
    requires t.Leaf?
    ensures seen + Spine(t) == seen
  {
  }
}
