/**
 The physical page allocator of src/pmem.c: bitmaps, freelists and the byte counter change in place,
 and requests recurse upward through the page orders. A ghost field holds the live pages.
 */
module PhysMem {
  import opened Common
  import opened BitScan
  import opened FreeList
  import opened PhysMap
  import opened PhysStep
  import opened PhysLinks

  /** `__maybe_populate_bucket`: all pages of one order, unused; the first bucket owns all pages. */
  method PopulateBucket(g: Geometry, o: nat) returns (sets: seq<Bitmap>, list: seq<nat>, links: Links)
    requires g.Valid() && o <= g.top
    ensures LevelShape(g, sets, o)
    ensures forall s :: 0 <= s < |sets| ==> sets[s] == Bitmap(Zeros(SetSize(g, o)), 0)
    ensures list == (if o == g.top then [0] else []) && Represents(links, list)
  {
    var n, bits, first := Pages(g, o), BucketBits(g, o), o == g.top;
    var whole := n / bits;
    BucketDivision(g, o, whole);
    sets, list, links := [], [], Links(None, map[], map[]);
    for i := 0 to whole
      invariant |sets| == i && n == Remaining(g, o, i)
      invariant forall s :: 0 <= s < |sets| ==> sets[s] == Bitmap(Zeros(bits), 0)
      invariant list == (if first && i > 0 then [0] else []) && Represents(links, list)
    {
      RemainingStep(g, o, i, whole);
      sets := sets + [Bitmap(Zeros(bits), 0)];
      if first {
        AttachLiteralCorrectIff(links, list, i);
        list, links := Attach(list, i), AttachLiteral(links, i);
      }
      n := n - bits;
    }
    if n > 0 {
      sets := sets + [Bitmap(Zeros(n), 0)];
      if first {
        AttachLiteralCorrectIff(links, list, |sets| - 1);
        list, links := Attach(list, |sets| - 1), AttachLiteral(links, |sets| - 1);
      }
    }
  }

  /** The pages that are left after `i` whole sets. */
  function Remaining(g: Geometry, o: nat, i: nat): int {
    if o == g.top then if i == 0 then g.count else 0 else WIDTH * (Pages(g, o + 1) - i)
  }

  /** A lower bucket consists of whole sets; the top bucket is one set, whole or not. */
  lemma BucketDivision(g: Geometry, o: nat, whole: nat)
    requires g.Valid() && o <= g.top && BucketBits(g, o) > 0 && whole == Pages(g, o) / BucketBits(g, o)
    ensures Remaining(g, o, 0) == Pages(g, o)
    ensures if o == g.top then whole == (if g.count == BucketBits(g, o) then 1 else 0) && g.count <= BucketBits(g, o)
            else whole == Sets(g, o) && BucketBits(g, o) == WIDTH && Remaining(g, o, whole) == 0
  {
    if o == g.top {
      var n, bits := g.count, BucketBits(g, o);
      if n < bits { SmallDivMod(n, bits); } else { DivUnique(n, 1, bits); }
    }
  }

  lemma RemainingStep(g: Geometry, o: nat, i: nat, whole: nat)
    requires g.Valid() && o <= g.top && i < whole
    requires if o == g.top then whole == (if g.count == BucketBits(g, o) then 1 else 0)
        else whole == Sets(g, o) && BucketBits(g, o) == WIDTH
    ensures Remaining(g, o, i) - BucketBits(g, o) == Remaining(g, o, i + 1) >= 0
  {
  }

  /** Address `a` is the start of a page of order `o` that overlapped nothing and is now live. */
  ghost predicate HandedOut(g: Geometry, o: nat, a: nat, before: set<Page>, after: set<Page>) {
    && a >= g.base
    && var p := Page(o, PageAt(g, o, a));
       && a == Start(g, p) && p.index < Pages(g, o)
       && p !in before && after == before + {p}
       && !Blocked(g, before, p)
  }

  class Pmap {
    const g: Geometry
    /** `bmap` nodes, by order and set index. */
    var maps: Maps
    /** Freelist of set indices of each order, head first. */
    var lists: seq<seq<nat>>
    /** Bytes in use. */
    var used: nat
    ghost var live: set<Page>

    ghost function State(): Store
      reads this
    {
      Store(maps, lists)
    }

    ghost predicate Ready()
      reads this
    {
      PhysStep.Consistent(g, State(), live)
    }

    ghost predicate Valid()
      reads this
    {
      Ready() && used == Bytes(live)
    }

    /** The top set has been lost: nothing is live and yet no allocation can succeed. */
    ghost predicate Stuck()
      reads this
    {
      Lost(g, State(), live)
    }

    /** `populate_pmap`: everything free, only the top bucket on a freelist. */
    constructor (g: Geometry)
      requires g.Valid()
      ensures Valid() && this.g == g && live == {} && !Stuck()
    {
      this.g := g;
      used := 0;
      live := {};
      var ms: Maps := [];
      var ls: seq<seq<nat>> := [];
      for o := 0 to g.top + 1
        invariant |ms| == o && |ls| == o
        invariant forall k :: 0 <= k < o ==> LevelShape(g, ms[k], k) && ls[k] == (if k == g.top then [0] else [])
        invariant forall k, s :: 0 <= k < o && 0 <= s < |ms[k]| ==> ms[k][s] == Bitmap(Zeros(SetSize(g, k)), 0)
      {
        var sets, list, _ := PopulateBucket(g, o);
        ms := ms + [sets];
        ls := ls + [list];
      }
      maps := ms;
      lists := ls;
      new;
      FreshIsConsistent(g, State());
    }

    /** `__alloc_page` once the freelist has a head: lines 290-299. */
    method TakeFirst(o: nat) returns (a: nat)
      requires Runnable(g, State()) && o <= g.top && lists[o] != []
      modifies this`maps, this`lists
      ensures (State(), PageAt(g, o, if a >= g.base then a else g.base)) == TakeStep(g, old(State()), o)
      ensures a == Start(g, Page(o, TakeStep(g, old(State()), o).1))
    {
      HeadHasRoom(g, State(), o);
      var s := lists[o][0];
      var b := Find(maps[o][s].bits, false);
      maps := Put(maps, o, s, b, true);
      if maps[o][s].used == |maps[o][s].bits| {
        lists := lists[o := Detach(lists[o], s)];
      }
      a := PageAddr(g, o, s, b);
      PageAddrCorrect(g, o, s, b);
      PageAtStart(g, Page(o, IndexOf(g, o, s, b)));
    }

    /** A set is cleared and listed: lines 281-286 and 329-330. */
    method OpenSet(o: nat, s: nat)
      requires Runnable(g, State()) && o <= g.top && s < Sets(g, o)
      modifies this`maps, this`lists
      ensures State() == Opened(old(State()), o, s)
    {
      assert LevelShape(g, maps[o], o);
      maps := maps[o := maps[o][s := Bitmap(Zeros(|maps[o][s].bits|), 0)]];
      lists := lists[o := Attach(lists[o], s)];
    }

    /** `__alloc_page` */
    method AllocWorker(o: nat) returns (r: Option<nat>)
      requires Runnable(g, State())
      modifies this`maps, this`lists
      ensures var step := AllocStep(g, old(State()), o);
              if step.None? then r == None && State() == old(State())
              else r == Some(Start(g, Page(o, step.value.1))) && State() == step.value.0
      decreases g.top + 1 - o
    {
      hide TakeStep, Opened;
      if o > g.top {
        return None;
      }
      if lists[o] == [] {
        var big := AllocWorker(o + 1);
        if big.None? {
          return None;
        }
        ghost var j := AllocStep(g, old(State()), o + 1).value.1;
        SetOfPage(g, o, j);
        var (s, _) := GetBit(g, o, big.value);
        OpenedRuns(g, State(), o, s);
        OpenSet(o, s);
      }
      var a := TakeFirst(o);
      r := Some(a);
    }

    /** `alloc_page`: the page handed out overlaps nothing that was live. */
    method AllocPage(o: nat) returns (r: Option<nat>)
      requires Ready()
      modifies this
      ensures Ready() && (old(Valid()) ==> Valid())
      ensures r.None? <==> old(AllBlocked(g, live, o) || Stuck())
      ensures r.None? ==> live == old(live) && used == old(used) && State() == old(State())
      ensures r.Some? ==> HandedOut(g, o, r.value, old(live), live)
      ensures r.Some? ==> used == old(used) + OrderSize(o)
      ensures r.Some? ==> (r.value - g.base) % OrderSize(o) == 0
                          && g.base <= r.value <= g.base + g.count * OrderSize(g.top) - OrderSize(o)
      ensures Runnable(g, old(State()))
      ensures r.Some? ==> AllocStep(g, old(State()), o) == Some((State(), PageAt(g, o, r.value)))
    {
      hide AllocStep, Core, Lists;
      ConsistentRuns(g, State(), live);
      ghost var st := State();
      AllocStepOk(g, st, live, o);
      r := AllocWorker(o);
      if r.Some? {
        used := used + OrderSize(o);
        ghost var p := Page(o, AllocStep(g, st, o).value.1);
        PageAtStart(g, p);
        InsideRam(g, p);
        live := live + {p};
        BytesWithout(live, p);
        assert live - {p} == old(live);
      }
    }

    /** `__free_page`; `pages` are the live pages, the one being freed or merged among them. */
    method FreeWorker(o: nat, a: nat, ghost pages: set<Page>) returns (ok: bool)
      requires PhysStep.Consistent(g, State(), pages) && a >= g.base
      requires o <= g.top ==> Page(o, PageAt(g, o, a)) in pages
      modifies this`maps, this`lists
      ensures ok <==> o <= g.top
      ensures State() == FreeStep(g, old(State()), o, PageAt(g, o, a))
      decreases g.top + 1 - o
    {
      hide PhysStep.Consistent, FreeStep, ClearedBit;
      if o > g.top {
        SameShape(g, State(), pages);
        NothingAbove(g, State(), o, PageAt(g, o, a));
        return false;
      }
      ghost var i := PageAt(g, o, a);
      FreeOne(g, State(), pages, o, a);
      var (s, b) := GetBit(g, o, a);
      ClearBit(o, s, b);
      if maps[o][s].used == 0 && |maps[o][s].bits| == OrderWidth(g, o + 1) {
        var up := PageAddr(g, o, s, b);
        var _ := FreeWorker(o + 1, up, pages - {Page(o, i)} + (if o < g.top then {Page(o + 1, s)} else {}));
      }
      ok := true;
    }

    /** Lines 236-243. */
    method ClearBit(o: nat, s: nat, b: nat)
      requires o < |maps| && o < |lists| && s < |maps[o]| && b < |maps[o][s].bits| && maps[o][s].used > 0
      modifies this`maps, this`lists
      ensures State() == ClearedBit(old(State()), o, s, b)
    {
      maps := Put(maps, o, s, b, false);
      lists := lists[o := Attach(lists[o], s)];
      if maps[o][s].used == 0 {
        lists := lists[o := Detach(lists[o], s)];
      }
    }

    /** `free_page`: the allocator gets stuck exactly when the last live page goes. */
    method FreePage(o: nat, a: nat)
      requires Valid() && a >= g.base
      requires o <= g.top ==> Page(o, PageAt(g, o, a)) in live
      modifies this
      ensures Valid() && live == old(live) - {Page(o, PageAt(g, o, a))}
      ensures o <= g.top ==> old(used) == used + OrderSize(o) && (Stuck() <==> live == {})
      ensures State() == FreeStep(g, old(State()), o, PageAt(g, o, a))
    {
      hide Core, Lists;
      ghost var p := Page(o, PageAt(g, o, a));
      if o <= g.top { FreeStepOk(g, State(), live, o, p.index); }
      AllInRange(g, State(), live);
      var ok := FreeWorker(o, a, live);
      if ok {
        BytesWithout(live, p);
        live := live - {p};
        used := used - OrderSize(o);
      }
    }

    /** `__mark_used` */
    method MarkWorker(o: nat, a: nat) returns (ok: bool)
      requires Runnable(g, State()) && a >= g.base && (o <= g.top ==> PageAt(g, o, a) < Pages(g, o))
      modifies this`maps, this`lists
      ensures (State(), ok) == MarkStep(g, old(State()), o, PageAt(g, o, a))
      decreases g.top + 1 - o
    {
      hide Opened, SetBit, Bit;
      if o > g.top {
        return false;
      }
      ghost var i := PageAt(g, o, a);
      MarkRuns(g, State(), o, i);
      hide MarkStep, PageAt;
      GetBitCorrect(g, o, a);
      PageAtParent(g, o, a);
      var (s, b) := GetBit(g, o, a);
      UnusedSetClear(g, maps, o, i);
      if maps[o][s].used == 0 {
        OpenedRuns(g, State(), o, s);
        OpenSet(o, s);
        UnusedSetClear(g, maps, o, i);
        var _ := MarkWorker(o + 1, a);
      }
      if maps[o][s].bits[b] {
        return false;
      }
      TakeBitOf(o, s, b);
      ok := true;
    }

    /** Lines 341-345. */
    method TakeBitOf(o: nat, s: nat, b: nat)
      requires o < |maps| && o < |lists| && s < |maps[o]| && b < |maps[o][s].bits|
      modifies this`maps, this`lists
      ensures State() == SetBit(old(State()), o, s, b)
    {
      maps := Put(maps, o, s, b, true);
      if maps[o][s].used == |maps[o][s].bits| {
        lists := lists[o := Detach(lists[o], s)];
      }
    }

    /**
     `mark_used`, for any page of the managed RAM: an occupied page is left alone, and any other page becomes live. If
     it lies in a larger live page, the allocator forgets that one, and the books are right afterwards exactly if
     there was none.
     */
    method MarkUsed(o: nat, a: nat)
      requires Ready() && a >= g.base && (o <= g.top ==> PageAt(g, o, a) < Pages(g, o))
      modifies this
      ensures var p := Page(o, PageAt(g, o, a));
              && Ready() && live == (if o <= g.top then MarkedLive(old(live), p) else old(live))
              && used == old(used) + (if o <= g.top && !Occupied(old(live), p) then OrderSize(o) else 0)
              && (old(Valid()) ==> (Valid() <==> !(o <= g.top && Inside(old(live), p))))
      ensures Runnable(g, old(State())) && State() == MarkStep(g, old(State()), o, PageAt(g, o, a)).0
    {
      hide MarkStep, Core, MarkedLive, Occupied, Inside;
      ghost var i := PageAt(g, o, a);
      ghost var p := Page(o, i);
      ConsistentRuns(g, State(), live);
      MarkConsistent(g, State(), live, o, i);
      if o <= g.top {
        if Occupied(live, p) {
          OccupiedNotInside(g, maps, live, p);
          OccupiedSame(live, p);
        } else {
          MarkedBytes(g, maps, live, p);
        }
      }
      var ok := MarkWorker(o, a);
      if ok {
        used := used + OrderSize(o);
      }
      live := if o <= g.top then MarkedLive(live, p) else live;
    }
  }

  lemma FreshIsConsistent(g: Geometry, st: Store)
    requires g.Valid() && |st.maps| == g.top + 1 && |st.lists| == g.top + 1
    requires forall k :: 0 <= k <= g.top ==>
        LevelShape(g, st.maps[k], k) && st.lists[k] == (if k == g.top then [0] else [])
    requires forall k, s :: 0 <= k <= g.top && 0 <= s < |st.maps[k]| ==>
        st.maps[k][s] == Bitmap(Zeros(SetSize(g, k)), 0)
    ensures PhysStep.Consistent(g, st, {})
  {
    forall o, i | 0 <= o <= g.top && 0 <= i < Pages(g, o) ensures BitRule(g, st.maps, {}, o, i) {
      FreshBit(g, st, o, i);
    }
    forall o | 0 <= o <= g.top ensures ListRule(g, st.maps, st.lists[o], {}, o) {
      assert LevelShape(g, st.maps[o], o);
    }
  }

  lemma FreshBit(g: Geometry, st: Store, o: nat, i: nat)
    requires g.Valid() && Shape(g, st.maps) && o <= g.top && i < Pages(g, o)
    requires forall k, s :: 0 <= k <= g.top && 0 <= s < |st.maps[k]| ==>
        st.maps[k][s] == Bitmap(Zeros(SetSize(g, k)), 0)
    ensures BitRule(g, st.maps, {}, o, i)
  {
    assert LevelShape(g, st.maps[o], o);
    assert st.maps[o][SetOf(g, o, i)] == Bitmap(Zeros(SetSize(g, o)), 0);
    if o > 0 {
      assert LevelShape(g, st.maps[o - 1], o - 1);
      assert Used(g, st.maps, o - 1, i) == 0;
    }
  }

  /** The start of a larger page falls into the set that it covers. */
  lemma SetOfPage(g: Geometry, o: nat, j: nat)
    requires g.Valid() && o < g.top && j < Pages(g, o + 1)
    ensures Start(g, Page(o + 1, j)) >= g.base && GetBit(g, o, Start(g, Page(o + 1, j))).0 == j < Sets(g, o)
  {
    var a := Start(g, Page(o + 1, j));
    PageAtStart(g, Page(o + 1, j));
    PageAtParent(g, o, a);
    GetBitCorrect(g, o, a);
  }

  lemma NothingAbove(g: Geometry, st: Store, o: nat, i: nat)
    requires Shape(g, st.maps) && |st.lists| == g.top + 1 && o > g.top
    ensures FreeStep(g, st, o, i) == st
  {
  }

  /** One order of a free: set and bit of the page, the state once the bit is cleared, and where the free goes on. */
  lemma FreeOne(g: Geometry, st: Store, live: set<Page>, o: nat, a: nat)
    requires PhysStep.Consistent(g, st, live) && a >= g.base && o <= g.top && Page(o, PageAt(g, o, a)) in live
    ensures g.Valid() && Shape(g, st.maps) && |st.lists| == g.top + 1
    ensures var i := PageAt(g, o, a);
            var (s, b) := GetBit(g, o, a);
            && s < |st.maps[o]| && b < |st.maps[o][s].bits| && st.maps[o][s].used > 0
            && var st' := ClearedBit(st, o, s, b);
            && Shape(g, st'.maps) && s < |st'.maps[o]| && |st'.maps[o][s].bits| == SetSize(g, o)
                && |st'.lists| == g.top + 1
            && PhysStep.Consistent(g, st', live - {Page(o, i)} + (if o < g.top
                && st'.maps[o][s].used == 0 then {Page(o + 1, s)} else {}))
            && FreeStep(g, st, o, i) == (if o < g.top && st'.maps[o][s].used == 0 then FreeStep(g, st', o + 1, s)
                else st')
            && PageAddr(g, o, s, b) >= g.base && (o < g.top ==> PageAt(g, o + 1, PageAddr(g, o, s, b)) == s)
  {
    hide Core, Bit, PageAddr, GetBit, PageAt, ClearedBit, FreeStep;
    var i := PageAt(g, o, a);
    ClearedBitOk(g, st, live, o, i);
    SameShape(g, st, live);
    FreeUnfolds(g, st, o, i);
    FreeAddress(g, o, a);
    var (s, b) := GetBit(g, o, a);
    assert LevelShape(g, st.maps[o], o) && LevelShape(g, ClearedBit(st, o, s, b).maps[o], o);
  }

  /** The address that `__free_page` hands on lies in the page covering the set. */
  lemma FreeAddress(g: Geometry, o: nat, a: nat)
    requires g.Valid() && o <= g.top && a >= g.base && PageAt(g, o, a) < Pages(g, o)
    ensures var i := PageAt(g, o, a);
            var (s, b) := GetBit(g, o, a);
            && (s, b) == (SetOf(g, o, i), BitOf(g, o, i)) && PageAddr(g, o, s, b) >= g.base
            && (o < g.top ==> PageAt(g, o + 1, PageAddr(g, o, s, b)) == s)
  {
    hide PageAt;
    var i := PageAt(g, o, a);
    GetBitCorrect(g, o, a);
    var (s, b) := GetBit(g, o, a);
    IndexBack(g, o, i);
    PageAddrCorrect(g, o, s, b);
    PageAtStart(g, Page(o, i));
    PageAtParent(g, o, PageAddr(g, o, s, b));
  }

  lemma IndexBack(g: Geometry, o: nat, i: nat)
    ensures IndexOf(g, o, SetOf(g, o, i), BitOf(g, o, i)) == i
  {
  }

  lemma SameShape(g: Geometry, st: Store, live: set<Page>)
    requires PhysStep.Consistent(g, st, live)
    ensures Shape(g, st.maps) && |st.lists| == g.top + 1
  {
  }

  lemma AllInRange(g: Geometry, st: Store, live: set<Page>)
    requires PhysStep.Consistent(g, st, live)
    ensures forall p :: p in live ==> p.order <= g.top
  {
    forall p | p in live ensures p.order <= g.top { assert LiveRule(g, st.maps, p); }
  }

  /** A mark from a consistent state leaves a consistent state. */
  lemma MarkConsistent(g: Geometry, st: Store, live: set<Page>, o: nat, i: nat)
    requires PhysStep.Consistent(g, st, live) && Runnable(g, st) && (o <= g.top ==> i < Pages(g, o))
    ensures var (st', ok) := MarkStep(g, st, o, i);
            && PhysStep.Consistent(g, st', if o <= g.top then MarkedLive(live, Page(o, i)) else live)
            && (ok <==> o <= g.top && !Occupied(live, Page(o, i)))
  {
    hide MarkStep, Core, MarkedLive, Occupied, Bit;
    MarkRuns(g, st, o, i);
    MarkStepOk(g, st, live, o, i);
    var (st', ok) := MarkStep(g, st, o, i);
    if ok {
      var live' := MarkedLive(live, Page(o, i));
      MarkedNonEmpty(live, Page(o, i));
      forall k | 0 <= k <= g.top ensures ListRule(g, st'.maps, st'.lists[k], live', k) {
        if k < o { ListsElsewhere(g, st.maps, st'.maps, st.lists[k], live, live', k); }
      }
    } else if o <= g.top {
      OccupiedSame(live, Page(o, i));
    }
  }

  lemma MarkedNonEmpty(live: set<Page>, p: Page)
    ensures MarkedLive(live, p) != {}
  {
    assert !Occupied(live, p) ==> p in MarkedLive(live, p);
  }

  /**
   Why a page inside a live page must not be marked, in every such state: after the mark the very next page of its
   order that is allocated lies in the live page too.
   */
  method MarkInsideThenAlloc(pm: Pmap, o: nat, a: nat) returns (r: Option<nat>)
    requires pm.Ready() && o <= pm.g.top && a >= pm.g.base && PageAt(pm.g, o, a) < Pages(pm.g, o)
    requires Inside(pm.live, Page(o, PageAt(pm.g, o, a)))
    modifies pm
    ensures r.Some? && r.value >= pm.g.base
    ensures exists q :: q in old(pm.live) && Overlap(pm.g, q, Page(o, PageAt(pm.g, o, r.value)))
  {
    hide MarkStep, AllocStep, Inside, MarkedLive;
    ghost var st, live := pm.State(), pm.live;
    ConsistentRuns(pm.g, st, live);
    InsideThenAlloc(pm.g, st, live, o, PageAt(pm.g, o, a));
    pm.MarkUsed(o, a);
    ghost var st1 := pm.State();
    AllocStepOk(pm.g, st1, pm.live, o);
    r := pm.AllocPage(o);
    ghost var p := Page(o, AllocStep(pm.g, st1, o).value.1);
    ghost var q :| q in live && q.order > o && Contains(q, Page(o, PageAt(pm.g, o, a))) && Contains(q, p);
    OverlapIffNested(pm.g, q, p);
  }

  /**
   The tail that `__attach_set` misses is reached: two marks in different sets of the lowest order, and one of the
   pages freed.
   */
  method TailReached() returns (pm: Pmap, ghost i: nat)
    ensures fresh(pm) && pm.Valid() && Page(0, i) in pm.live && HitsTail(pm.g, pm.State(), 0, i)
  {
    hide Core, Lists, MarkStep, Occupied, MarkedLive, Inside, HitsTail;
    var g := Geometry(4096, 1, 1, 2);
    pm := new Pmap(g);
    var far := Page(0, WIDTH);
    assert Pages(g, 0) == WIDTH * 2;
    PageAtStart(g, Page(0, 0));
    PageAtStart(g, far);
    MarkedApart({}, Page(0, 0));
    pm.MarkUsed(0, Start(g, Page(0, 0)));
    assert pm.live == {Page(0, 0)};
    MarkedApart({Page(0, 0)}, far);
    pm.MarkUsed(0, Start(g, far));
    assert pm.live == {Page(0, 0), far};
    TwoListed(g, pm.State(), pm.live);
    SameShape(g, pm.State(), pm.live);
    TailInUse(g, pm.State(), pm.live);
    i :| Page(0, i) in pm.live && HitsTail(g, pm.State(), 0, i);
  }

  /** Marking a page of the lowest order among others of that order. */
  lemma MarkedApart(live: set<Page>, p: Page)
    requires p !in live && p.order == 0 && forall q :: q in live ==> q.order == 0
    ensures MarkedLive(live, p) == live + {p} && !Occupied(live, p) && !Inside(live, p)
  {
  }

  lemma TwoListed(g: Geometry, st: Store, live: set<Page>)
    requires g == Geometry(4096, 1, 1, 2) && PhysStep.Consistent(g, st, live) && live == {Page(0, 0), Page(0, WIDTH)}
    ensures |st.lists[0]| >= 2
  {
    assert ListRule(g, st.maps, st.lists[0], live, 0);
    SetPartlyUsed(g, st.maps, live, 0);
    SetPartlyUsed(g, st.maps, live, WIDTH);
    assert 0 in st.lists[0] && 1 in st.lists[0];
  }

  lemma SetPartlyUsed(g: Geometry, m: Maps, live: set<Page>, i: nat)
    requires g.top == 1 && Core(g, m, live) && i + 1 < Pages(g, 0) && Page(0, i) in live && Page(0, i + 1) !in live
    requires i / WIDTH == (i + 1) / WIDTH
    ensures 0 < Used(g, m, 0, i / WIDTH) < WIDTH
  {
    assert BitRule(g, m, live, 0, i) && BitRule(g, m, live, 0, i + 1);
    assert LevelShape(g, m[0], 0);
  }

  /** The top set is lost with the last page: one page taken and given back, and there is none any more. */
  method LostWithLastPage() returns (pm: Pmap, r: Option<nat>)
    ensures fresh(pm) && pm.Valid() && pm.live == {} && r == None
  {
    hide Core, Lists, AllocStep, FreeStep;
    var g := Geometry(4096, 1, 1, 2);
    pm := new Pmap(g);
    FreshHasRoom(g);
    r := pm.AllocPage(1);
    PageAtStart(g, Page(1, PageAt(g, 1, r.value)));
    pm.FreePage(1, r.value);
    assert pm.live == {};
    r := pm.AllocPage(1);
  }

  lemma FreshHasRoom(g: Geometry)
    requires g.Valid()
    ensures !AllBlocked(g, {}, g.top)
  {
    assert !Blocked(g, {}, Page(g.top, 0));
  }

  // ------------------------------------------------------------------ whole runs

  datatype Request = Alloc(order: nat) | Free(k: nat) | Mark(order: nat, index: nat)

  /** Marks are of pages of the managed RAM. */
  predicate InRam(g: Geometry, q: Request) {
    q.Mark? && q.order <= g.top ==> q.index < Pages(g, q.order)
  }

  /** What the caller owes `mark_used`: a marked page does not lie in a larger page that is held. */
  predicate Legal(held: seq<Page>, q: Request) {
    q.Mark? ==> forall k :: 0 <= k < |held| && held[k].order > q.order ==> !Contains(held[k], Page(q.order, q.index))
  }

  ghost predicate Holds(pm: Pmap, held: seq<Page>)
    reads pm
  {
    && pm.Valid() && pm.live == SetOfPages(held)
    && forall i, j :: 0 <= i < j < |held| ==> held[i] != held[j]
  }

  ghost function SetOfPages(held: seq<Page>): set<Page> {
    set h | h in held
  }

  /** No two held pages share a byte. */
  ghost predicate Apart(g: Geometry, held: seq<Page>) {
    forall i, j :: 0 <= i < j < |held| ==> !Overlap(g, held[i], held[j])
  }

  /** One request, seen by the client that holds the pages: what it gets, and exactly when it gets nothing. */
  ghost predicate Served(g: Geometry, held: seq<Page>, stuck: bool, q: Request, held': seq<Page>) {
    var live := SetOfPages(held);
    match q
    case Alloc(o) =>
      if AllBlocked(g, live, o) || stuck then held' == held
      else exists i :: 0 <= i < Pages(g, o) && held' == held + [Page(o, i)] && !Blocked(g, live, Page(o, i))
    case Free(k) => held' == if k < |held| then held[..k] + held[k + 1..] else held
    case Mark(o, i) => held' == if o <= g.top && !Occupied(live, Page(o, i)) then held + [Page(o, i)] else held
  }

  /** The allocator is stuck exactly while nothing is held after something was. */
  ghost predicate StuckAt(trace: seq<seq<Page>>, n: nat, stuck0: bool)
    requires n < |trace|
  {
    trace[n] == [] && (stuck0 || exists j :: 0 <= j < n && trace[j] != [])
  }

  lemma StuckNext(trace: seq<seq<Page>>, n: nat, stuck0: bool, held': seq<Page>)
    requires n + 1 == |trace|
    ensures StuckAt(trace + [held'], n + 1, stuck0) <==> held' == [] && (StuckAt(trace, n, stuck0) || trace[n] != [])
  {
    var u := trace + [held'];
    if StuckAt(trace, n, stuck0) && !stuck0 {
      var j :| 0 <= j < n && trace[j] != [];
      assert u[j] != [];
    }
    if trace[n] != [] { assert u[n] != []; }
    if StuckAt(u, n + 1, stuck0) && !stuck0 {
      var j :| 0 <= j < n + 1 && u[j] != [];
      assert trace[j] != [];
    }
  }

  lemma EmptyHeld(held: seq<Page>)
    ensures held == [] <==> SetOfPages(held) == {}
  {
    if held != [] { assert held[0] in SetOfPages(held); }
  }

  lemma MarkAbove(g: Geometry, st: Store, o: nat, i: nat)
    requires |st.maps| == g.top + 1 && |st.lists| == g.top + 1 && o > g.top
    ensures MarkStep(g, st, o, i) == (st, false)
  {
  }

  lemma Longer(held: seq<Page>, p: Page)
    ensures SetOfPages(held + [p]) == SetOfPages(held) + {p}
  {
    assert forall h :: h in held + [p] <==> h in held || h == p;
  }

  method ServeAlloc(pm: Pmap, held: seq<Page>, o: nat) returns (held': seq<Page>)
    requires Holds(pm, held)
    modifies pm
    ensures Holds(pm, held') && Served(pm.g, held, old(pm.Stuck()), Alloc(o), held')
    ensures pm.Stuck() <==> held' == [] && (old(pm.Stuck()) || held != [])
  {
    hide AllocStep, Core, Lists, Blocked;
    var r := pm.AllocPage(o);
    held' := held;
    if r.Some? {
      var p := Page(o, PageAt(pm.g, o, r.value));
      held' := held + [p];
      Longer(held, p);
      assert forall h :: h in held ==> h in old(pm.live);
    } else {
      assert held != [] ==> held[0] in old(pm.live);
    }
  }

  method ServeFree(pm: Pmap, held: seq<Page>, k: nat) returns (held': seq<Page>)
    requires Holds(pm, held)
    modifies pm
    ensures Holds(pm, held') && Served(pm.g, held, old(pm.Stuck()), Free(k), held')
    ensures pm.Stuck() <==> held' == [] && (old(pm.Stuck()) || held != [])
  {
    EmptyHeld(held);
    held' := held;
    if k < |held| {
      assert held[k] in pm.live && LiveRule(pm.g, pm.maps, held[k]);
      PageAtStart(pm.g, held[k]);
      pm.FreePage(held[k].order, Start(pm.g, held[k]));
      held' := held[..k] + held[k + 1..];
      RemoveAt(held, k, held');
      EmptyHeld(held');
    }
  }

  /** Whether a mark was made shows in the byte counter; whether it was legal shows in the books. */
  method ServeMark(pm: Pmap, held: seq<Page>, p: Page) returns (held': seq<Page>)
    requires Holds(pm, held) && InRam(pm.g, Mark(p.order, p.index))
    modifies pm
    ensures pm.Ready() && pm.live == (if p.order <= pm.g.top then MarkedLive(SetOfPages(held), p) else SetOfPages(held))
    ensures Served(pm.g, held, old(pm.Stuck()), Mark(p.order, p.index), held')
    ensures pm.Stuck() <==> held' == [] && (old(pm.Stuck()) || held != [])
    ensures pm.Valid() <==> Legal(held, Mark(p.order, p.index))
    ensures Legal(held, Mark(p.order, p.index)) ==> Holds(pm, held')
  {
    hide MarkStep, Core, Lists, MarkedLive, Occupied, Inside;
    EmptyHeld(held);
    MarkedNonEmpty(pm.live, p);
    SameShape(pm.g, pm.State(), pm.live);
    if p.order > pm.g.top { MarkAbove(pm.g, pm.State(), p.order, p.index); }
    PageAtStart(pm.g, p);
    LegalIff(pm, held, p);
    var before := pm.used;
    pm.MarkUsed(p.order, Start(pm.g, p));
    held' := held;
    if pm.used > before {
      held' := held + [p];
      Longer(held, p);
    }
    MarkedEmpty(old(pm.live), p);
  }

  lemma MarkedEmpty(live: set<Page>, p: Page)
    ensures live == {} ==> !Occupied(live, p)
  {
  }

  /** A legal mark is one whose page lies in no larger live page. */
  lemma LegalIff(pm: Pmap, held: seq<Page>, p: Page)
    requires Holds(pm, held)
    ensures Legal(held, Mark(p.order, p.index)) <==> !(p.order <= pm.g.top && Inside(pm.live, p))
    ensures Legal(held, Mark(p.order, p.index)) ==>
              MarkedLive(pm.live, p) == if Occupied(pm.live, p) then pm.live else pm.live + {p}
    ensures !Occupied(pm.live, p) ==> p !in held
  {
    hide Core, Lists;
    AllInRange(pm.g, pm.State(), pm.live);
    forall k | 0 <= k < |held| ensures held[k] in pm.live {}
    if !Occupied(pm.live, p) { var q := AroundOne(pm.g, pm.maps, pm.live, p); }
  }

  method Serve(pm: Pmap, held: seq<Page>, q: Request) returns (held': seq<Page>, legal: bool)
    requires Holds(pm, held) && InRam(pm.g, q)
    modifies pm
    ensures Served(pm.g, held, old(pm.Stuck()), q, held') && legal == Legal(held, q)
    ensures pm.Stuck() <==> held' == [] && (old(pm.Stuck()) || held != [])
    ensures if legal then Holds(pm, held') else Overlooked(pm, held, q)
    ensures Apart(pm.g, held') <==> legal
  {
    hide Holds, Served, Contains, Apart, Pmap.Stuck;
    legal := Legal(held, q);
    if !legal { IllegalOverlaps(pm, held, q); }
    match q {
      case Alloc(o) => held' := ServeAlloc(pm, held, o);
      case Free(k) => held' := ServeFree(pm, held, k);
      case Mark(o, i) => held' := ServeMark(pm, held, Page(o, i));
    }
    if legal { HeldApart(pm, held'); }
  }

  lemma HeldApart(pm: Pmap, held: seq<Page>)
    requires Holds(pm, held)
    ensures Apart(pm.g, held)
  {
    forall i, j | 0 <= i < j < |held| ensures !Overlap(pm.g, held[i], held[j]) {
      assert held[i] in pm.live && held[j] in pm.live;
      LiveBytesDisjoint(pm.g, pm.maps, pm.live, held[i], held[j]);
    }
  }

  /** An illegal mark is made, and the held pages are then no longer apart. */
  lemma IllegalOverlaps(pm: Pmap, held: seq<Page>, q: Request)
    requires Holds(pm, held) && !Legal(held, q)
    ensures forall held', stuck :: Served(pm.g, held, stuck, q, held') ==> !Apart(pm.g, held')
  {
    var p := Page(q.order, q.index);
    LegalIff(pm, held, p);
    if Occupied(pm.live, p) { OccupiedNotInside(pm.g, pm.maps, pm.live, p); }
    var k :| 0 <= k < |held| && held[k].order > q.order && Contains(held[k], p);
    OverlapIffNested(pm.g, held[k], p);
    forall held', stuck | Served(pm.g, held, stuck, q, held') ensures !Apart(pm.g, held') {
      assert held'[k] == held[k] && held'[|held|] == p;
    }
  }

  /**
   After an illegal mark: consistent with the held page around the marked one forgotten, so that the books are wrong.
   */
  ghost predicate Overlooked(pm: Pmap, held: seq<Page>, q: Request)
    reads pm
  {
    && q.Mark? && pm.Ready() && !pm.Valid()
    && pm.live == (if q.order <= pm.g.top then MarkedLive(SetOfPages(held), Page(q.order, q.index))
        else SetOfPages(held))
  }
  /**
   Any script of requests, of mixed orders, up to the first illegal mark, if there is one: every request gets its due
   and the held pages are apart in every state. They are apart at the end, and the books right, exactly if no mark was
   illegal; the bitmaps then show exactly the held pages, and `used` is the sum of their sizes.
   */
  method Run(pm: Pmap, script: seq<Request>) returns (held: seq<Page>, n: nat, ghost trace: seq<seq<Page>>)
    requires pm.Valid() && pm.live == {} && forall j :: 0 <= j < |script| ==> InRam(pm.g, script[j])
    modifies pm
    ensures n <= |script| && |trace| == (if n < |script| then n + 2 else n + 1) && trace[0] == []
        && trace[|trace| - 1] == held
    ensures forall j :: 0 <= j < |trace| - 1 ==>
        Served(pm.g, trace[j], StuckAt(trace, j, old(pm.Stuck())), script[j], trace[j + 1])
    ensures forall j :: 0 <= j < n ==> Legal(trace[j], script[j]) && Apart(pm.g, trace[j])
    ensures n < |script| ==> !Legal(trace[n], script[n]) && Apart(pm.g, trace[n]) && Overlooked(pm, trace[n], script[n])
    ensures Apart(pm.g, held) <==> n == |script|
    ensures pm.Valid() <==> n == |script|
    ensures n == |script| ==> pm.live == SetOfPages(held) && pm.used == Bytes(pm.live) && ShowsHeld(pm.g, pm.maps, held)
  {
    hide Holds, Served, Legal, Apart, InRam, Overlooked, ShowsHeld, Pmap.Valid, Pmap.Ready, Pmap.Stuck, SetOfPages,
        StuckAt;
    held, n, trace := [], 0, [[]];
    ghost var stuck0 := pm.Stuck();
    NothingHeld(pm);
    var legal := true;
    while n < |script| && legal
      invariant n <= |script| && (legal || n < |script|) && |trace| == (if legal then n + 1 else n + 2)
          && trace[0] == [] && trace[|trace| - 1] == held
      invariant forall j :: 0 <= j < |trace| - 1 ==>
          Served(pm.g, trace[j], StuckAt(trace, j, stuck0), script[j], trace[j + 1])
      invariant pm.Stuck() <==> StuckAt(trace, |trace| - 1, stuck0)
      invariant forall j :: 0 <= j < n ==> Legal(trace[j], script[j]) && Apart(pm.g, trace[j])
      invariant Apart(pm.g, held) <==> legal
      invariant legal ==> Holds(pm, held)
      invariant !legal ==> !Legal(trace[n], script[n]) && Apart(pm.g, trace[n]) && Overlooked(pm, trace[n], script[n])
      decreases |script| - n, legal
    {
      held, legal := Serve(pm, held, script[n]);
      StuckNext(trace, n, stuck0, held);
      StuckPrefix(trace, held, stuck0);
      trace := trace + [held];
      if legal { n := n + 1; }
    }
    if legal { HeldShown(pm, held); } else { OverlookedMeans(pm, trace[n], script[n]); }
  }

  lemma StuckPrefix(trace: seq<seq<Page>>, held': seq<Page>, stuck0: bool)
    ensures forall j :: 0 <= j < |trace| ==> StuckAt(trace + [held'], j, stuck0) == StuckAt(trace, j, stuck0)
  {
    var u := trace + [held'];
    forall j | 0 <= j < |trace| ensures StuckAt(u, j, stuck0) == StuckAt(trace, j, stuck0) {
      forall i | 0 <= i < j ensures u[i] == trace[i] {}
    }
  }

  lemma OverlookedMeans(pm: Pmap, held: seq<Page>, q: Request)
    requires Overlooked(pm, held, q)
    ensures !pm.Valid()
  {
  }

  lemma NothingHeld(pm: Pmap)
    requires pm.Valid() && pm.live == {}
    ensures Holds(pm, []) && Apart(pm.g, []) && StuckAt([[]], 0, pm.Stuck()) == pm.Stuck()
  {
  }

  /** A bit is set exactly when a held page is its page or lies in it. */
  ghost predicate ShowsHeld(g: Geometry, m: Maps, held: seq<Page>) {
    && Shape(g, m)
    && forall o, i :: 0 <= o <= g.top && 0 <= i < Pages(g, o) ==> (Bit(g, m, o, i) <==>
        exists h :: h in held && Contains(Page(o, i), h))
  }

  lemma HeldShown(pm: Pmap, held: seq<Page>)
    requires Holds(pm, held)
    ensures pm.Valid() && pm.live == SetOfPages(held) && pm.used == Bytes(pm.live) && ShowsHeld(pm.g, pm.maps, held)
  {
    assert forall h :: h in held <==> h in pm.live;
    forall o, i | 0 <= o <= pm.g.top && 0 <= i < Pages(pm.g, o)
      ensures Bit(pm.g, pm.maps, o, i) <==> exists h :: h in held && Contains(Page(o, i), h)
    {
      BitIffLiveInside(pm.g, pm.maps, pm.live, o, i);
    }
  }

  lemma RemoveAt(xs: seq<Page>, k: nat, ys: seq<Page>)
    requires k < |xs| && ys == xs[..k] + xs[k + 1..]
    requires forall i, j :: 0 <= i < j < |xs| ==> xs[i] != xs[j]
    ensures (set h | h in ys) == (set h | h in xs) - {xs[k]}
    ensures forall i, j :: 0 <= i < j < |ys| ==> ys[i] != ys[j]
  {
    forall i | 0 <= i < |ys| ensures ys[i] == xs[if i < k then i else i + 1] {}
    forall h | h in xs && h != xs[k] ensures h in ys {
      var i :| 0 <= i < |xs| && xs[i] == h;
      assert ys[if i < k then i else i - 1] == h;
    }
  }
}
