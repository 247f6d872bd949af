/**
 The region allocator of src/regions.c as its callers see it: byte addresses and sizes in, a tiling of
 the arena out. Every operation keeps list, tiling and both trees in step.
 */
module Arena {
  import opened Common
  import opened Tree
  import opened SpTree
  import opened RegionIndex
  import opened RegionList
  import opened Layout
  import opened Regions

  const PAGE := 4096

  datatype Status = Ok | ErrAlign | ErrNotFound

  /** `__page(align_up(size, BASE_PAGE_SIZE))` */
  function PagesFor(size: nat): (n: nat)
    ensures (n - 1) * 4096 < size <= n * 4096 || (size == 0 && n == 0)
    ensures size > 0 ==> n > 0
  {
    (size + PAGE - 1) / PAGE
  }

  /** Free region `i` is long enough for `pages` pages, `align` pages in. */
  ghost predicate Fits(t: Tiling, i: nat, align: nat, pages: nat) {
    i < |t| && !t[i].used && t[i].start + align + pages <= t[i].end
  }

  /** `u` is `t` with a used region of `pages` pages carved out of free region `i`, at byte address `addr`. */
  ghost predicate Carved(t: Tiling, u: Tiling, i: nat, align: nat, pages: nat, addr: nat) {
    Fits(t, i, align, pages) && u == Carve(t, i, align, pages) && addr == (t[i].start + align) * 4096
  }

  /**
   The used region starts at the least multiple in region `i` if there is room from there, and else where `i` starts.
   */
  ghost predicate WellPlaced(t: Tiling, i: nat, align: nat, pages: nat) {
    i < |t| && if Roomy(t[i].start, t[i].end, pages, Unit(pages))
      then LeastMultiple(t[i].start + align, t[i].start, Unit(pages))
      else align == 0
  }

  /** Pages `ref` to `ref + pages` are free pages of the arena. */
  ghost predicate FreeRun(t: Tiling, ref: nat, pages: nat) {
    forall p :: ref <= p < ref + pages ==> FreePage(t, p)
  }

  ghost predicate UsedAt(t: Tiling, page: nat) {
    exists i :: 0 <= i < |t| && t[i].used && t[i].start == page
  }

  lemma Unempty(t: Tiling, start: nat, end: nat, i: nat)
    requires Tiles(t, start, end) && i < |t|
    ensures t[i].start < t[i].end
  {
  }

  lemma OneRegion(v: View, n: Region, start: nat, end: nat)
    requires v == View(map[n := Info(start, end, false, null, null)], [n]) && start < end
    ensures Chained(v) && TilingOf(v) == [Extent(start, end, false)] && Tiles(TilingOf(v), start, end)
    ensures Indexed(v.info, {}, {}, {} + {n})
  {
    assert LinkOk(v, 0);
    assert v.info.Keys == {n} == Elems([n]);
  }

  lemma TreesWithin(v: View, fs: set<Region>, us: set<Region>)
    requires Indexed(v.info, fs, us, {})
    ensures fs <= v.info.Keys && us <= v.info.Keys && fs !! us
  {
    TreesApart(v.info, fs, us, {});
  }

  lemma EmptyTree(rt: SpRoot, byStart: bool)
    requires rt.Valid() && rt.tree == Leaf
    ensures Ordered(rt, byStart)
  {
  }

  /** Lines 183-195: one free region that spans the arena. */
  method FirstRegion(free: SpRoot, used: SpRoot, start: nat, end: nat) returns (n: Region, ghost v: View)
    requires free != used && free.Valid() && used.Valid() && free.tree == Leaf && used.tree == Leaf && start < end
    modifies free
    ensures fresh(n) && v == View(map[n := Info(start, end, false, null, null)], [n])
    ensures Trees(free, used, v.info, {}) && ViewOf(v.list) == v
  {
    n := CreateRegion(start, end, null, null, {});
    v := View(map[n := Info(start, end, false, null, null)], [n]);
    assert Elems([n]) == {} + {n};
    OneRegion(v, n, start, end);
    EmptyTree(free, false);
    EmptyTree(used, true);
    IndexFree(free, used, n, v, {}, {}, {});
  }

  /** `struct mem_region_root`, without a reserved prefix */
  class MemRegionRoot {
    const start: nat
    const end: nat
    const free: SpRoot
    const used: SpRoot
    ghost var view: View

    /** The list tiles the arena, and the trees hold exactly its free and its used regions, in order. */
    ghost predicate Valid()
      reads this, free, used, view.list, Nodes(free.tree), Nodes(used.tree)
    {
      && Trees(free, used, view.info, {}) && ViewOf(view.list) == view && Chained(view)
      && Tiles(TilingOf(view), start, end)
    }

    ghost function Tiling(): Tiling
      requires Valid()
      reads this, free, used, view.list, Nodes(free.tree), Nodes(used.tree)
    {
      TilingOf(view)
    }

    /** `init_region` */
    constructor (start: nat, size: nat)
      requires size >= 4096
      ensures this.start == start / 4096 && this.end == this.start + size / 4096
      ensures Valid() && Tiling() == [Extent(this.start, this.end, false)]
      ensures fresh(free) && fresh(used) && fresh(view.info.Keys)
    {
      hide Ordered, Chained, Tiles, TilingOf, Indexed, OrderedTree, Holds, LinkOk;
      var lo, hi := start / PAGE, start / PAGE + size / PAGE;
      var f := new SpRoot();
      var u := new SpRoot();
      var n;
      ghost var v;
      n, v := FirstRegion(f, u, lo, hi);
      OneRegion(v, n, lo, hi);
      this.start, this.end := lo, hi;
      free, used, view := f, u, v;
    }

    /** Every region of a tree is a region of the list, of the right kind. */
    lemma Kinds(x: Region, k: nat)
      requires Valid() && k < |view.list| && view.list[k] == x
      ensures x in view.info && Tiling()[k] == Extent(x.start, x.end, x.used)
      ensures x in Nodes(free.tree) <==> !x.used
      ensures x in Nodes(used.tree) <==> x.used
    {
      hide Ordered, Tiles;
      Around(view, x, k);
      ViewReads(view, x);
      assert InOwnTree(view.info, x, Nodes(free.tree), Nodes(used.tree));
    }

    lemma InList(x: Region) returns (k: nat)
      requires Valid() && (x in Nodes(free.tree) || x in Nodes(used.tree))
      ensures k < |view.list| && view.list[k] == x
    {
      hide Ordered, Tiles;
      assert x in view.info;
      k :| 0 <= k < |view.list| && view.list[k] == x;
    }

    /** The search's choice for a request of `pages` pages is `align` pages into region `i` of the list. */
    ghost predicate Picked(pages: nat, i: nat, align: nat)
      reads this, free, view.list, Spine(free.tree)
    {
      && i < |view.list|
      && (pages < 512 ==> Chosen(Spine(free.tree), pages, view.list[i], align, 1))
      && (512 <= pages < 262144 ==> Chosen(Spine(free.tree), pages, view.list[i], align, 512))
      && (pages >= 262144 ==> Chosen(Spine(free.tree), pages, view.list[i], align, 262144))
    }

    /** `find_free_region` seen from the tiling: it fails only if no free region is long enough. */
    method FindHole(pages: nat) returns (m: Region?, align: nat, ghost i: nat)
      requires Valid() && pages > 0
      ensures Valid()
      ensures m == null ==> forall j: nat, a: nat :: !Fits(Tiling(), j, a, pages)
      ensures m != null ==> i < |view.list| && view.list[i] == m && Fits(Tiling(), i, align, pages)
      ensures m != null ==> old(Picked(pages, i, align)) && WellPlaced(Tiling(), i, align, pages)
    {
      hide Ordered, Tiles, TilingOf, Chained, Spine, Roomy;
      forall x | x in Nodes(free.tree) ensures x.start < x.end { Proper(x); }
      ghost var spine := Spine(free.tree);
      SpineWithin(free.tree);
      assert forall k :: 0 <= k < |spine| ==> spine[k] in view.info;
      m, align := FindFreeRegion(free, pages);
      assert forall k :: 0 <= k < |spine| ==>
          old(spine[k].start) == spine[k].start && old(spine[k].end) == spine[k].end;
      i := 0;
      if m == null {
        forall j: nat, a: nat ensures !Fits(Tiling(), j, a, pages) {
          if j < |view.list| { Kinds(view.list[j], j); }
        }
      } else {
        i := InList(m);
        Kinds(m, i);
      }
    }

    lemma Proper(x: Region)
      requires Valid() && x in Nodes(free.tree)
      ensures x.start < x.end
    {
      var k := InList(x);
      Kinds(x, k);
    }

    /** No other region of the trees starts inside region `i`. */
    lemma AloneInside(m: Region, i: nat)
      requires Valid() && i < |view.list| && view.list[i] == m && !Tiling()[i].used
      ensures !view.info[m].used && Tiling()[i] == Extent(m.start, m.end, false)
      ensures Outside(Nodes(free.tree) - {m}, m.start, m.end) && Outside(Nodes(used.tree), m.start, m.end)
    {
      hide Ordered, Tiles, Chained;
      Kinds(m, i);
      OutsideOthers(view, m, i, start, end);
      TreesWithin(view, Nodes(free.tree), Nodes(used.tree));
    }

    /** `__partition_region` on region `i`. */
    method Take(m: Region, align: nat, pages: nat, ghost i: nat)
      requires Valid() && i < |view.list| && view.list[i] == m && pages > 0 && Fits(Tiling(), i, align, pages)
      modifies this, free, used, view.info.Keys
      ensures Valid() && fresh(view.info.Keys - old(view.info.Keys))
      ensures Tiling() == Carve(old(Tiling()), i, align, pages)
    {
      hide Ordered, Tiles, TilingOf, Chained, Carve, Indexed, Outside, OrderedTree, Holds, LinkOk;
      AloneInside(m, i);
      CarveTiles(Tiling(), start, end, i, align, pages);
      view := CarveOut(free, used, m, align, pages, view, i, Nodes(free.tree), Nodes(used.tree));
      assert Tiles(TilingOf(view), start, end);
      assert ViewOf(view.list) == view;
      assert Trees(free, used, view.info, {});
    }

    /**
     `alloc_region`: fails exactly when no free region is long enough; otherwise a used region is carved
     out of the free one that the search picks, at the least multiple of the largest page size that the request can
     use if there is room from there, and nothing else changes.
     */
    method AllocRegion(size: nat) returns (r: Option<nat>, ghost i: nat, ghost align: nat)
      requires Valid() && size > 0
      modifies this, free, used, view.info.Keys
      ensures Valid() && fresh(view.info.Keys - old(view.info.Keys))
      ensures r.None? <==> forall j: nat, a: nat :: !Fits(old(Tiling()), j, a, PagesFor(size))
      ensures r.None? ==> view == old(view)
      ensures r.Some? ==> Carved(old(Tiling()), Tiling(), i, align, PagesFor(size), r.value)
      ensures r.Some? ==> old(Picked(PagesFor(size), i, align)) && WellPlaced(old(Tiling()), i, align, PagesFor(size))
    {
      hide Picked, WellPlaced, Ordered, Tiles, TilingOf, Chained, Carve, OrderedTree, Holds, LinkOk, Indexed;
      var pages := PagesFor(size);
      var m, a;
      ghost var t := Tiling();
      m, a, i := FindHole(pages);
      assert t == Tiling();
      align := a;
      if m == null {
        return None, i, align;
      }
      Kinds(m, i);
      var start := m.start + a;
      assert Fits(Tiling(), i, align, pages);
      Take(m, a, pages, i);
      r := Some(start * PAGE);
    }

    lemma SomeRegion()
      requires Valid()
      ensures |view.list| > 0
    {
    }

    /** The region that holds page `ref`. */
    lemma Holder(ref: nat) returns (k: nat)
      requires Valid() && start <= ref < end
      ensures k < |view.list| && Tiling()[k].start <= ref < Tiling()[k].end
    {
      k := Holding(Tiling(), start, end, ref);
    }

    /** Without used regions all regions are free, and the free tree has a root. */
    lemma NothingUsed()
      requires Valid() && used.root == null
      ensures free.root != null && free.root in Nodes(free.tree) && Nodes(used.tree) == {}
    {
      hide Tiles, TilingOf, Chained, Linked, Apart;
      SomeRegion();
      Kinds(view.list[0], 0);
    }

    /** `find_closest_used_region`, which falls back on the free root when nothing is used */
    method FindClosest(ref: nat) returns (m: Region, ghost k: nat)
      requires Valid()
      ensures Valid()
      ensures k < |view.list| && view.list[k] == m
      ensures m.used ==> forall x :: x in Nodes(used.tree) ==> Nearer(ref, m.start, x.start)
      ensures !m.used ==> Nodes(used.tree) == {}
    {
      hide Tiles, TilingOf, Chained, Ordered;
      if used.root == null {
        NothingUsed();
        m := free.root;
      } else {
        m := FindClosestUsed(used, ref);
      }
      k := InList(m);
      Kinds(m, k);
    }

    /** Lines 508-515: the walk from the closest region never turns round. */
    method Walk(ref: nat, m0: Region, ghost k0: nat) returns (m: Region, ghost k: nat)
      requires Valid() && start <= ref < end && k0 < |view.list| && view.list[k0] == m0
      ensures Valid()
      ensures k < |view.list| && view.list[k] == m && Tiling()[k].start <= ref < Tiling()[k].end
    {
      hide Ordered, TilingOf, Chained, Tiles, OrderedTree, Holds, InOwnTree;
      m, k := m0, k0;
      ghost var t := Tiling();
      ghost var goal := Holder(ref);
      Kinds(m, k);
      while !(m.start <= ref < m.end)
        invariant k < |view.list| && view.list[k] == m && Tiling()[k] == Extent(m.start, m.end, m.used)
        invariant if k0 <= goal then k0 <= k <= goal else goal <= k <= k0
        decreases if k <= goal then goal - k else k - goal
      {
        Around(view, m, k);
        ViewReads(view, m);
        if k < goal { Ascending(t, start, end, k, goal); }
        if goal < k { Ascending(t, start, end, goal, k); }
        Unempty(t, start, end, k);
        if ref > m.start {
          m, k := m.next, k + 1;
        } else {
          m, k := m.prev, k - 1;
        }
        Kinds(m, k);
      }
    }

    /**
     `alloc_fixed_region` for a start inside the arena: it succeeds exactly when all its pages are free
     and in the arena, and otherwise changes nothing.
     */
    method AllocFixedRegion(addr: nat, size: nat) returns (r: Option<nat>, ghost i: nat)
      requires Valid() && size > 0 && start <= addr / 4096 < end
      modifies this, free, used, view.info.Keys
      ensures Valid() && fresh(view.info.Keys - old(view.info.Keys))
      ensures r.Some? <==> FreeRun(old(Tiling()), addr / 4096, PagesFor(size))
      ensures r.None? ==> view == old(view)
      ensures r.Some? ==> i < |old(Tiling())| && old(Tiling())[i].start <= addr / 4096
      ensures r.Some? ==>
                Carved(old(Tiling()), Tiling(), i, addr / 4096 - old(Tiling())[i].start, PagesFor(size),
                    addr / 4096 * 4096)
      ensures r.Some? ==> r.value == addr / 4096 * 4096
    {
      hide Ordered, TilingOf, Chained, Tiles, Carve, OrderedTree, Holds, LinkOk, Indexed;
      var pages, ref := PagesFor(size), addr / PAGE;
      var m;
      m, i := FindClosest(ref);
      m, i := Walk(ref, m, i);
      Kinds(m, i);
      RunFreeIff(Tiling(), start, end, i, ref, pages);
      if m.used || ref + pages > m.end {
        return None, i;
      }
      var align := ref - m.start;
      Take(m, align, pages, i);
      r := Some(ref * PAGE);
    }

    /** `free_known_region`: the region and its free neighbours become one free region. */
    method FreeKnownRegion(m: Region, ghost i: nat)
      requires Valid() && i < |view.list| && view.list[i] == m && m.used
      modifies this, free, used, view.info.Keys
      ensures Valid() && view.info.Keys <= old(view.info.Keys)
      ensures Tiling() == Release(old(Tiling()), i)
    {
      hide Ordered, TilingOf, Chained, Tiles, Release, Indexed, OrderedTree, Holds, LinkOk;
      Kinds(m, i);
      Around(view, m, i);
      ReleaseTiles(Tiling(), start, end, i);
      view := FreeKnown(free, used, m, view, i, start, end, Nodes(used.tree));
      assert Tiles(TilingOf(view), start, end);
      assert ViewOf(view.list) == view;
      assert Trees(free, used, view.info, {});
    }

    /** `free_region` */
    method FreeRegion(addr: nat) returns (s: Status, ghost i: nat)
      requires Valid()
      modifies this, free, used, view.info.Keys
      ensures Valid() && view.info.Keys <= old(view.info.Keys)
      ensures s == ErrAlign <==> addr % 4096 != 0
      ensures s == ErrNotFound <==> addr % 4096 == 0 && !UsedAt(old(Tiling()), addr / 4096)
      ensures s != Ok ==> view == old(view)
      ensures s == Ok ==> i < |old(Tiling())| && old(Tiling())[i].used && old(Tiling())[i].start * 4096 == addr
      ensures s == Ok ==> Tiling() == Release(old(Tiling()), i)
    {
      hide Ordered, TilingOf, Chained, Tiles, Release;
      i := 0;
      if addr % PAGE != 0 {
        return ErrAlign, i;
      }
      var m := FindUsedRegion(used, addr / PAGE);
      if m == null {
        forall j | 0 <= j < |view.list| ensures !(Tiling()[j].used && Tiling()[j].start == addr / PAGE) {
          Kinds(view.list[j], j);
        }
        return ErrNotFound, i;
      }
      i := InList(m);
      Kinds(m, i);
      FreeKnownRegion(m, i);
      s := Ok;
    }
  }

  // ------------------------------------------------------------------------- runs

  datatype Request = Alloc(size: nat) | Fixed(addr: nat, size: nat) | Free(addr: nat)

  /** What callers must ensure: at least one byte, and a fixed start inside the arena. */
  predicate Legal(q: Request, start: nat, end: nat) {
    match q
    case Alloc(size) => size > 0
    case Fixed(addr, size) => size > 0 && start <= addr / 4096 < end
    case Free(_) => true
  }

  /** The effect of one request on the tiling, without lists or trees. */
  ghost predicate Step(t: Tiling, q: Request, u: Tiling) {
    match q
    case Alloc(size) =>
      if NoFit(t, PagesFor(size)) then u == t
      else exists i: nat, align: nat ::
        Fits(t, i, align, PagesFor(size)) && WellPlaced(t, i, align, PagesFor(size))
            && u == Carve(t, i, align, PagesFor(size))
    case Fixed(addr, size) =>
      if !FreeRun(t, addr / 4096, PagesFor(size)) then u == t
      else exists i: nat, align: nat :: Carved(t, u, i, align, PagesFor(size), addr / 4096 * 4096)
    case Free(addr) =>
      if addr % 4096 != 0 || !UsedAt(t, addr / 4096) then u == t
      else exists i: nat :: ReleasedAt(t, u, i, addr)
  }

  ghost predicate NoFit(t: Tiling, pages: nat) {
    forall j: nat, a: nat :: !Fits(t, j, a, pages)
  }

  ghost predicate ReleasedAt(t: Tiling, u: Tiling, i: nat, addr: nat) {
    i < |t| && t[i].used && t[i].start * 4096 == addr && u == Release(t, i)
  }

  method Serve(arena: MemRegionRoot, q: Request)
    requires arena.Valid() && Legal(q, arena.start, arena.end)
    modifies arena, arena.free, arena.used, arena.view.info.Keys
    ensures arena.Valid() && fresh(arena.view.info.Keys - old(arena.view.info.Keys))
    ensures Step(old(arena.Tiling()), q, arena.Tiling())
  {
    hide Trees, ViewOf, Chained, Tiles, TilingOf, Carve, Release;
    ghost var i, align;
    match q
    case Alloc(size) =>
      var r;
      r, i, align := arena.AllocRegion(size);
    case Fixed(addr, size) =>
      var r;
      r, i := arena.AllocFixedRegion(addr, size);
    case Free(addr) =>
      var s;
      s, i := arena.FreeRegion(addr);
      assert s == Ok ==> ReleasedAt(old(arena.Tiling()), arena.Tiling(), i, addr);
  }

  /** Every run of requests keeps the arena valid, and its tiling takes one abstract step per request. */
  method Run(arena: MemRegionRoot, script: seq<Request>) returns (ghost trace: seq<Tiling>)
    requires arena.Valid() && forall q :: q in script ==> Legal(q, arena.start, arena.end)
    modifies arena, arena.free, arena.used, arena.view.info.Keys
    ensures arena.Valid() && |trace| == |script| + 1 && trace[0] == old(arena.Tiling())
        && trace[|script|] == arena.Tiling()
    ensures forall k :: 0 <= k < |script| ==> Step(trace[k], script[k], trace[k + 1])
    ensures forall k :: 0 <= k < |trace| ==> Tiles(trace[k], arena.start, arena.end)
  {
    hide Trees, ViewOf, Chained, TilingOf, Tiles, Step;
    trace := [arena.Tiling()];
    for n := 0 to |script|
      invariant arena.Valid() && fresh(arena.view.info.Keys - old(arena.view.info.Keys))
      invariant |trace| == n + 1 && trace[0] == old(arena.Tiling()) && trace[n] == arena.Tiling()
      invariant forall k :: 0 <= k < n ==> Step(trace[k], script[k], trace[k + 1])
      invariant forall k :: 0 <= k < |trace| ==> Tiles(trace[k], arena.start, arena.end)
    {
      Serve(arena, script[n]);
      trace := trace + [arena.Tiling()];
    }
  }

  lemma SameStart(t: Tiling, start: nat, end: nat, i: nat, j: nat)
    requires Tiles(t, start, end) && i < |t| && j < |t| && t[i].start == t[j].start
    ensures i == j
  {
    Unique(t, start, end, i, j, t[i].start);
  }

  /** Freeing what was just allocated restores the tiling. */
  method AllocThenFree(arena: MemRegionRoot, size: nat)
    requires arena.Valid() && size > 0
    modifies arena, arena.free, arena.used, arena.view.info.Keys
    ensures arena.Valid() && arena.Tiling() == old(arena.Tiling())
  {
    hide Trees, ViewOf, Chained, TilingOf, Tiles, Carve, Release;
    ghost var t := arena.Tiling();
    var r;
    ghost var i, align;
    r, i, align := arena.AllocRegion(size);
    if r.Some? {
      CarveRelease(t, arena.start, arena.end, i, align, PagesFor(size));
      ghost var u, k := arena.Tiling(), i + |Piece(t[i].start, t[i].start + align)|;
      assert u[k].used && u[k].start == r.value / PAGE && r.value % PAGE == 0;
      var s;
      ghost var j;
      s, j := arena.FreeRegion(r.value);
      SameStart(u, arena.start, arena.end, j, k);
    }
  }
}
