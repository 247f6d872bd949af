/**
 The bitmaps of the physical page allocator (src/pmem.c) as values, the invariant that ties them to
 the set of live pages, and what that invariant means for byte ranges of RAM.

 Page `i` of order `o + 1` is covered by the 512 pages of set `i` of order `o`. A live page is one a
 client holds. While the allocator splits or merges, the page it is working on counts as live too.
 */
module PhysMap {
  import opened BitScan
  import opened FreeList

  const WIDTH: nat := 512
  const BASE_PAGE_SIZE: nat := 4096

  /** `top` is the highest order that has a bucket, `count` the number of its pages. */
  datatype Geometry = Geometry(base: nat, maxOrder: nat, top: nat, count: nat) {
    predicate Valid() {
      && base > 0 && top <= maxOrder && count > 0
      && (top < maxOrder ==> count < WIDTH)
    }
  }

  datatype Page = Page(order: nat, index: nat)

  /** A `struct mm_bmap` without its list pointers. */
  datatype Bitmap = Bitmap(bits: seq<bool>, used: nat)

  type Maps = seq<seq<Bitmap>>

  function OrderSize(o: nat): (r: nat)
    ensures r > 0
  {
    if o == 0 then BASE_PAGE_SIZE else WIDTH * OrderSize(o - 1)
  }

  /** Pages of order 0, 1 and 2 are the 4 KiB, 2 MiB and 1 GiB pages of Sv39: 12 bits, and 9 more for each order. */
  lemma OrderSizes()
    ensures OrderSize(0) == 4096 && OrderSize(1) == 0x20_0000 && OrderSize(2) == 0x4000_0000
  {
    assert OrderSize(1) == WIDTH * OrderSize(0);
  }

  function OrderWidth(g: Geometry, o: nat): nat {
    if o <= g.maxOrder then WIDTH else 0
  }

  /** How many pages of order `o` the managed RAM has. */
  function Pages(g: Geometry, o: nat): nat
    decreases g.top - o
  {
    if o > g.top then 0 else if o == g.top then g.count else WIDTH * Pages(g, o + 1)
  }

  function Sets(g: Geometry, o: nat): nat
    requires o <= g.top
  {
    if o == g.top then 1 else Pages(g, o + 1)
  }

  function SetSize(g: Geometry, o: nat): nat {
    if o == g.top then g.count else WIDTH
  }

  function SetOf(g: Geometry, o: nat, i: nat): nat {
    if o == g.top then 0 else i / WIDTH
  }

  function BitOf(g: Geometry, o: nat, i: nat): nat {
    if o == g.top then i else i % WIDTH
  }

  function IndexOf(g: Geometry, o: nat, s: nat, b: nat): nat {
    if o == g.top then b else s * WIDTH + b
  }

  // ---------------------------------------------------------------- invariant

  ghost predicate Shape(g: Geometry, m: Maps) {
    && |m| == g.top + 1
    && forall o :: 0 <= o <= g.top ==> LevelShape(g, m[o], o)
  }

  ghost predicate LevelShape(g: Geometry, level: seq<Bitmap>, o: nat)
    requires o <= g.top
  {
    && |level| == Sets(g, o)
    && forall s :: 0 <= s < |level| ==>
         |level[s].bits| == SetSize(g, o) && level[s].used == Count(level[s].bits)
  }

  ghost predicate Bit(g: Geometry, m: Maps, o: nat, i: nat)
    requires Shape(g, m) && o <= g.top && i < Pages(g, o)
  {
    m[o][SetOf(g, o, i)].bits[BitOf(g, o, i)]
  }

  ghost function Used(g: Geometry, m: Maps, o: nat, s: nat): nat
    requires Shape(g, m) && o <= g.top && s < Sets(g, o)
  {
    m[o][s].used
  }

  /** A set bit stands for a live page or for a page that is split because a smaller page is live. */
  ghost predicate BitRule(g: Geometry, m: Maps, live: set<Page>, o: nat, i: nat)
    requires Shape(g, m) && o <= g.top && i < Pages(g, o)
  {
    Bit(g, m, o, i) <==> (Page(o, i) in live || (o > 0 && Used(g, m, o - 1, i) > 0))
  }

  ghost predicate LiveRule(g: Geometry, m: Maps, p: Page)
    requires Shape(g, m)
  {
    && p.order <= g.top && p.index < Pages(g, p.order)
    && (p.order > 0 ==> Used(g, m, p.order - 1, p.index) == 0)
  }

  ghost predicate Core(g: Geometry, m: Maps, live: set<Page>) {
    && Shape(g, m)
    && (forall o, i :: 0 <= o <= g.top && 0 <= i < Pages(g, o) ==> BitRule(g, m, live, o, i))
    && (forall p :: p in live ==> LiveRule(g, m, p))
  }

  /**
   A set of a lower order is on its freelist exactly while it has both used and unused pages. The
   single top set is on its list while it is not full, except that an allocator without any live
   page may have lost it: freeing the last page detaches the set.
   */
  ghost predicate ListRule(g: Geometry, m: Maps, list: seq<nat>, live: set<Page>, o: nat)
    requires Shape(g, m) && o <= g.top
  {
    && Distinct(list)
    && (forall s :: s in list ==> s < Sets(g, o) && Used(g, m, o, s) < SetSize(g, o))
    && (o < g.top ==> forall s :: 0 <= s < Sets(g, o) ==> (s in list <==> 0 < Used(g, m, o, s) < WIDTH))
    && (o == g.top && live != {} && Used(g, m, o, 0) < g.count ==> 0 in list)
  }

  /** The list rule of order `o` but for set `s`, which is on the list whatever its use count. */
  ghost predicate ListRuleBut(g: Geometry, m: Maps, list: seq<nat>, o: nat, s: nat)
    requires Shape(g, m) && o <= g.top
  {
    && Distinct(list) && s in list
    && (forall t :: t in list ==> t < Sets(g, o) && Used(g, m, o, t) < SetSize(g, o))
    && (o < g.top ==> forall t :: 0 <= t < Sets(g, o) && t != s ==> (t in list <==> 0 < Used(g, m, o, t) < WIDTH))
  }

  /** The list rule for order `from` and every order above it. */
  ghost predicate Lists(g: Geometry, m: Maps, lists: seq<seq<nat>>, live: set<Page>, from: nat)
    requires Shape(g, m)
  {
    && |lists| == g.top + 1
    && forall o :: from <= o <= g.top ==> ListRule(g, m, lists[o], live, o)
  }

  // ------------------------------------------------------- single bit updates

  /** Write bit `b` of set `s` and keep the set's use count in step. */
  function Put(m: Maps, o: nat, s: nat, b: nat, v: bool): Maps
    requires o < |m| && s < |m[o]| && b < |m[o][s].bits| && (!v ==> m[o][s].used > 0)
  {
    m[o := m[o][s := Bitmap(m[o][s].bits[b := v], if v then m[o][s].used + 1 else m[o][s].used - 1)]]
  }

  lemma PutEffect(g: Geometry, m: Maps, o: nat, i: nat, v: bool)
    requires Shape(g, m) && o <= g.top && i < Pages(g, o) && Bit(g, m, o, i) != v
    ensures SetOf(g, o, i) < Sets(g, o) && BitOf(g, o, i) < SetSize(g, o)
    ensures !v ==> m[o][SetOf(g, o, i)].used > 0
    ensures var m' := Put(m, o, SetOf(g, o, i), BitOf(g, o, i), v);
            && Shape(g, m')
            && (forall o', i' :: 0 <= o' <= g.top && 0 <= i' < Pages(g, o') ==>
                  (Bit(g, m', o', i') <==> if o' == o && i' == i then v else Bit(g, m, o', i')))
            && (forall o', s' :: 0 <= o' <= g.top && 0 <= s' < Sets(g, o') ==>
                  Used(g, m', o', s') == Used(g, m, o', s') +
                    (if o' == o && s' == SetOf(g, o, i) then if v then 1 else -1 else 0))
  {
    var s, b := SetOf(g, o, i), BitOf(g, o, i);
    PutShape(g, m, o, i, v);
    var m': Maps := Put(m, o, s, b, v);
    assert LevelShape(g, m[o], o);
    forall o', i' | 0 <= o' <= g.top && 0 <= i' < Pages(g, o')
      ensures Bit(g, m', o', i') <==> if o' == o && i' == i then v else Bit(g, m, o', i')
    {
    }
  }

  lemma PutShape(g: Geometry, m: Maps, o: nat, i: nat, v: bool)
    requires Shape(g, m) && o <= g.top && i < Pages(g, o) && Bit(g, m, o, i) != v
    ensures SetOf(g, o, i) < Sets(g, o) && BitOf(g, o, i) < SetSize(g, o)
    ensures !v ==> m[o][SetOf(g, o, i)].used > 0
    ensures Shape(g, Put(m, o, SetOf(g, o, i), BitOf(g, o, i), v))
  {
    var s, b := SetOf(g, o, i), BitOf(g, o, i);
    assert LevelShape(g, m[o], o);
    CountUpdate(m[o][s].bits, b, v);
    assert LevelShape(g, Put(m, o, s, b, v)[o], o);
  }

  /** What `TakeCore` asks of the bitmaps, and what it makes of them. */
  ghost predicate Takeable(g: Geometry, m: Maps, live: set<Page>, o: nat, i: nat) {
    && Core(g, m, live) && o <= g.top && i < Pages(g, o) && !Bit(g, m, o, i)
    && SetOf(g, o, i) < Sets(g, o) && BitOf(g, o, i) < SetSize(g, o)
    && (o < g.top ==> Used(g, m, o, i / WIDTH) > 0 || Page(o + 1, i / WIDTH) in live)
  }

  lemma TakeBit(g: Geometry, m: Maps, live: set<Page>, o: nat, i: nat, o': nat, i': nat)
    requires Takeable(g, m, live, o, i) && o' <= g.top && i' < Pages(g, o')
    ensures var m' := Put(m, o, SetOf(g, o, i), BitOf(g, o, i), true);
            Shape(g, m') && BitRule(g, m', live - {Page(o + 1, i / WIDTH)} + {Page(o, i)}, o', i')
  {
    hide Put, Bit;
    PutEffect(g, m, o, i, true);
    assert BitRule(g, m, live, o', i');
    assert o' > 0 ==> Sets(g, o' - 1) == Pages(g, o');
  }

  lemma TakeLive(g: Geometry, m: Maps, live: set<Page>, o: nat, i: nat, p: Page)
    requires Takeable(g, m, live, o, i) && p in live - {Page(o + 1, i / WIDTH)} + {Page(o, i)}
    ensures var m' := Put(m, o, SetOf(g, o, i), BitOf(g, o, i), true); Shape(g, m') && LiveRule(g, m', p)
  {
    hide Put, Bit;
    PutEffect(g, m, o, i, true);
    assert BitRule(g, m, live, o, i);
    if p != Page(o, i) { assert LiveRule(g, m, p); }
  }

  /**
   Marking page `i` of order `o` inside a set that is already split, or whose covering page is live
   and is thereby split.
   */
  lemma TakeCore(g: Geometry, m: Maps, live: set<Page>, o: nat, i: nat)
    requires Core(g, m, live) && o <= g.top && i < Pages(g, o) && !Bit(g, m, o, i)
    requires o < g.top ==> Used(g, m, o, i / WIDTH) > 0 || Page(o + 1, i / WIDTH) in live
    ensures SetOf(g, o, i) < Sets(g, o) && BitOf(g, o, i) < SetSize(g, o)
    ensures Core(g, Put(m, o, SetOf(g, o, i), BitOf(g, o, i), true),
                 live - {Page(o + 1, i / WIDTH)} + {Page(o, i)})
  {
    hide Put, Bit;
    PutEffect(g, m, o, i, true);
    var m': Maps := Put(m, o, SetOf(g, o, i), BitOf(g, o, i), true);
    var live' := live - {Page(o + 1, i / WIDTH)} + {Page(o, i)};
    forall o', i' | 0 <= o' <= g.top && 0 <= i' < Pages(g, o') ensures BitRule(g, m', live', o', i') {
      TakeBit(g, m, live, o, i, o', i');
    }
    forall p | p in live' ensures LiveRule(g, m', p) {
      TakeLive(g, m, live, o, i, p);
    }
  }

  lemma ParentNotLive(g: Geometry, m: Maps, live: set<Page>, o: nat, i: nat)
    requires Core(g, m, live) && o < g.top && i < Pages(g, o) && Bit(g, m, o, i)
    ensures Used(g, m, o, i / WIDTH) > 0 && Page(o + 1, i / WIDTH) !in live
  {
    assert LevelShape(g, m[o], o);
    if Page(o + 1, i / WIDTH) in live {
      assert LiveRule(g, m, Page(o + 1, i / WIDTH));
    }
  }

  /** The live pages once page `i` of order `o` is cleared, which may hand its covering page over. */
  ghost function LiveAfter(g: Geometry, m: Maps, live: set<Page>, o: nat, i: nat): set<Page>
    requires Shape(g, m)
  {
    live - {Page(o, i)} +
      (if o < g.top && i / WIDTH < Sets(g, o) && Used(g, m, o, i / WIDTH) == 1 then {Page(o + 1, i / WIDTH)} else {})
  }

  lemma ReleaseBit(g: Geometry, m: Maps, live: set<Page>, o: nat, i: nat, o': nat, i': nat)
    requires Core(g, m, live) && Page(o, i) in live && o <= g.top && i < Pages(g, o) && Bit(g, m, o, i)
    requires SetOf(g, o, i) < Sets(g, o) && BitOf(g, o, i) < SetSize(g, o) && m[o][SetOf(g, o, i)].used > 0
    requires o' <= g.top && i' < Pages(g, o')
    ensures var m' := Put(m, o, SetOf(g, o, i), BitOf(g, o, i), false);
            Shape(g, m') && BitRule(g, m', LiveAfter(g, m, live, o, i), o', i')
  {
    hide Put, Bit;
    PutEffect(g, m, o, i, false);
    if o < g.top { ParentNotLive(g, m, live, o, i); }
    assert LiveRule(g, m, Page(o, i));
    assert BitRule(g, m, live, o', i');
    assert o' > 0 ==> Sets(g, o' - 1) == Pages(g, o');
  }

  lemma ReleaseLive(g: Geometry, m: Maps, live: set<Page>, o: nat, i: nat, p: Page)
    requires Core(g, m, live) && Page(o, i) in live && o <= g.top && i < Pages(g, o) && Bit(g, m, o, i)
    requires SetOf(g, o, i) < Sets(g, o) && BitOf(g, o, i) < SetSize(g, o) && m[o][SetOf(g, o, i)].used > 0
    requires p in LiveAfter(g, m, live, o, i)
    ensures var m' := Put(m, o, SetOf(g, o, i), BitOf(g, o, i), false); Shape(g, m') && LiveRule(g, m', p)
  {
    hide Put, Bit;
    PutEffect(g, m, o, i, false);
    if p in live { assert LiveRule(g, m, p); }
  }

  /**
   Clearing the bit of a live page. If that empties the set of a lower order, the page covering the
   set takes over as the live page, ready to be cleared in turn.
   */
  lemma ReleaseCore(g: Geometry, m: Maps, live: set<Page>, o: nat, i: nat)
    requires Core(g, m, live) && Page(o, i) in live
    ensures o <= g.top && i < Pages(g, o) && Bit(g, m, o, i)
    ensures SetOf(g, o, i) < Sets(g, o) && BitOf(g, o, i) < SetSize(g, o)
    ensures m[o][SetOf(g, o, i)].used > 0
    ensures var m' := Put(m, o, SetOf(g, o, i), BitOf(g, o, i), false);
            Core(g, m', live - {Page(o, i)} +
              (if o < g.top && m'[o][i / WIDTH].used == 0 then {Page(o + 1, i / WIDTH)} else {}))
    ensures o < g.top ==> Page(o + 1, i / WIDTH) !in live
  {
    hide Put, Bit;
    assert LiveRule(g, m, Page(o, i));
    assert BitRule(g, m, live, o, i);
    PutEffect(g, m, o, i, false);
    if o < g.top { ParentNotLive(g, m, live, o, i); }
    var m': Maps := Put(m, o, SetOf(g, o, i), BitOf(g, o, i), false);
    var live' := LiveAfter(g, m, live, o, i);
    assert o < g.top ==> Used(g, m', o, i / WIDTH) == Used(g, m, o, i / WIDTH) - 1;
    forall o', i' | 0 <= o' <= g.top && 0 <= i' < Pages(g, o') ensures BitRule(g, m', live', o', i') {
      ReleaseBit(g, m, live, o, i, o', i');
    }
    forall p | p in live' ensures LiveRule(g, m', p) {
      ReleaseLive(g, m, live, o, i, p);
    }
  }

  /** The freelist of the order whose bit was cleared. */
  lemma ListAfterRelease(g: Geometry, m: Maps, list: seq<nat>, live: set<Page>, live': set<Page>, o: nat, i: nat)
    requires Core(g, m, live) && o <= g.top && ListRule(g, m, list, live, o) && Page(o, i) in live
    requires i < Pages(g, o) && Bit(g, m, o, i)
    ensures SetOf(g, o, i) < Sets(g, o) && BitOf(g, o, i) < SetSize(g, o) && m[o][SetOf(g, o, i)].used > 0
    ensures var s := SetOf(g, o, i);
            var m' := Put(m, o, s, BitOf(g, o, i), false);
            && Shape(g, m')
            && ((o == g.top && m'[o][0].used == 0 ==> live' == {}) ==>
                ListRule(g, m', if m'[o][s].used == 0 then Detach(Attach(list, s), s) else Attach(list, s), live', o))
  {
    PutEffect(g, m, o, i, false);
    var m': Maps := Put(m, o, SetOf(g, o, i), BitOf(g, o, i), false);
    assert LevelShape(g, m'[o], o) && LevelShape(g, m[o], o);
  }

  /** The freelist of the order whose bit was set. */
  lemma ListAfterTake(g: Geometry, m: Maps, list: seq<nat>, live': set<Page>, o: nat, i: nat)
    requires Shape(g, m) && o <= g.top && i < Pages(g, o) && !Bit(g, m, o, i)
    requires ListRuleBut(g, m, list, o, SetOf(g, o, i))
    ensures SetOf(g, o, i) < Sets(g, o) && BitOf(g, o, i) < SetSize(g, o)
    ensures var s := SetOf(g, o, i);
            var m' := Put(m, o, s, BitOf(g, o, i), true);
            && Shape(g, m')
            && ListRule(g, m', if m'[o][s].used == |m'[o][s].bits| then Detach(list, s) else list, live', o)
  {
    PutEffect(g, m, o, i, true);
    var m': Maps := Put(m, o, SetOf(g, o, i), BitOf(g, o, i), true);
    assert LevelShape(g, m'[o], o) && LevelShape(g, m[o], o);
  }

  /** The freelists of the other orders are not affected by a change of one order. */
  lemma ListsElsewhere(g: Geometry, m: Maps, m': Maps, list: seq<nat>, live: set<Page>, live': set<Page>, o: nat)
    requires Shape(g, m) && Shape(g, m') && o <= g.top && m[o] == m'[o] && ListRule(g, m, list, live, o)
    requires o < g.top || live != {} || live' == {}
    ensures ListRule(g, m', list, live', o)
  {
    assert forall s :: 0 <= s < Sets(g, o) ==> Used(g, m', o, s) == Used(g, m, o, s);
  }

  // --------------------------------------------- what the invariant means for RAM

  /** The index of the page `k` orders up that covers page `i`. */
  function Ancestor(i: nat, k: nat): nat {
    if k == 0 then i else Ancestor(i, k - 1) / WIDTH
  }

  predicate Contains(big: Page, small: Page) {
    small.order <= big.order && Ancestor(small.index, big.order - small.order) == big.index
  }

  lemma {:induction false} AncestorInRange(g: Geometry, p: Page, k: nat)
    requires p.order + k <= g.top && p.index < Pages(g, p.order)
    ensures Ancestor(p.index, k) < Pages(g, p.order + k)
  {
    if k > 0 {
      AncestorInRange(g, p, k - 1);
    }
  }

  /** Every page above a live one is marked used because it is split. */
  lemma {:induction false} AncestorsSplit(g: Geometry, m: Maps, live: set<Page>, p: Page, k: nat)
    requires Core(g, m, live) && p in live && p.order + k <= g.top
    ensures Ancestor(p.index, k) < Pages(g, p.order + k)
    ensures Bit(g, m, p.order + k, Ancestor(p.index, k))
    ensures k > 0 ==> Used(g, m, p.order + k - 1, Ancestor(p.index, k)) > 0
  {
    assert LiveRule(g, m, p);
    AncestorInRange(g, p, k);
    assert BitRule(g, m, live, p.order + k, Ancestor(p.index, k));
    if k > 0 {
      AncestorsSplit(g, m, live, p, k - 1);
      assert LevelShape(g, m[p.order + k - 1], p.order + k - 1);
    }
  }

  /** A used set has a set bit, hence a used page of the same order. */
  lemma SetBitIn(g: Geometry, m: Maps, o: nat, s: nat) returns (i: nat)
    requires Shape(g, m) && o < g.top && s < Sets(g, o) && Used(g, m, o, s) > 0
    ensures i < Pages(g, o) && i / WIDTH == s && Bit(g, m, o, i)
  {
    assert LevelShape(g, m[o], o);
    var b :| 0 <= b < WIDTH && m[o][s].bits[b];
    i := s * WIDTH + b;
  }

  lemma {:induction false} LiveInside(g: Geometry, m: Maps, live: set<Page>, o: nat, i: nat) returns (p: Page)
    requires Core(g, m, live) && o <= g.top && i < Pages(g, o) && Bit(g, m, o, i)
    ensures p in live && Contains(Page(o, i), p)
    decreases o
  {
    assert BitRule(g, m, live, o, i);
    if Page(o, i) in live {
      p := Page(o, i);
    } else {
      var j := SetBitIn(g, m, o - 1, i);
      p := LiveInside(g, m, live, o - 1, j);
    }
  }

  /** A bit is set exactly when its page is live or contains a smaller live page. */
  lemma BitIffLiveInside(g: Geometry, m: Maps, live: set<Page>, o: nat, i: nat)
    requires Core(g, m, live) && o <= g.top && i < Pages(g, o)
    ensures Bit(g, m, o, i) <==> exists p :: p in live && Contains(Page(o, i), p)
  {
    hide BitRule, LiveRule, LevelShape, Bit;
    if Bit(g, m, o, i) {
      var p := LiveInside(g, m, live, o, i);
    }
    forall p | p in live && Contains(Page(o, i), p) ensures Bit(g, m, o, i) {
      AncestorsSplit(g, m, live, p, o - p.order);
    }
  }

  /** The bitmaps are a function of the live set alone: no trace is left of how it came about. */
  lemma MapsDependOnlyOnLive(g: Geometry, m: Maps, m': Maps, live: set<Page>)
    requires Core(g, m, live) && Core(g, m', live)
    ensures m == m'
  {
    forall o, s | 0 <= o <= g.top && 0 <= s < Sets(g, o) ensures m[o][s] == m'[o][s] {
      assert LevelShape(g, m[o], o) && LevelShape(g, m'[o], o);
      forall b | 0 <= b < SetSize(g, o) ensures m[o][s].bits[b] == m'[o][s].bits[b] {
        var i := IndexOf(g, o, s, b);
        BitIffLiveInside(g, m, live, o, i);
        BitIffLiveInside(g, m', live, o, i);
        assert Bit(g, m, o, i) == m[o][s].bits[b] && Bit(g, m', o, i) == m'[o][s].bits[b];
      }
      assert m[o][s].bits == m'[o][s].bits;
    }
    forall o | 0 <= o <= g.top ensures m[o] == m'[o] {
      assert LevelShape(g, m[o], o) && LevelShape(g, m'[o], o);
    }
  }

  lemma LiveNotNested(g: Geometry, m: Maps, live: set<Page>, p: Page, q: Page)
    requires Core(g, m, live) && p in live && q in live && Contains(p, q)
    ensures p == q
  {
    assert LiveRule(g, m, p);
    AncestorsSplit(g, m, live, q, p.order - q.order);
  }

  // ----------------------------------------------------------------- addresses

  function Start(g: Geometry, p: Page): nat {
    g.base + p.index * OrderSize(p.order)
  }

  function End(g: Geometry, p: Page): nat {
    Start(g, p) + OrderSize(p.order)
  }

  ghost predicate Overlap(g: Geometry, p: Page, q: Page) {
    Start(g, p) < End(g, q) && Start(g, q) < End(g, p)
  }

  lemma MulMono(a: nat, b: nat, c: nat)
    requires a <= b
    ensures a * c <= b * c
  {
  }

  /** The pages of every order make up the same RAM. */
  lemma {:induction false} SameRam(g: Geometry, o: nat)
    requires o <= g.top
    ensures Pages(g, o) * OrderSize(o) == g.count * OrderSize(g.top)
    decreases g.top - o
  {
    if o < g.top {
      SameRam(g, o + 1);
      Swap(Pages(g, o + 1), OrderSize(o));
    }
  }

  lemma Swap(a: nat, b: nat)
    ensures (WIDTH * a) * b == a * (WIDTH * b)
  {
  }

  /** A page is one of the equal parts that RAM is cut into, counted from its start. */
  lemma InsideRam(g: Geometry, p: Page)
    requires p.order <= g.top && p.index < Pages(g, p.order)
    ensures g.base <= Start(g, p) && (Start(g, p) - g.base) % OrderSize(p.order) == 0
    ensures Start(g, p) + OrderSize(p.order) <= g.base + g.count * OrderSize(g.top)
  {
    var size := OrderSize(p.order);
    SameRam(g, p.order);
    MulMono(p.index + 1, Pages(g, p.order), size);
    MultipleOf(p.index, size);
    assert (p.index + 1) * size == p.index * size + size;
  }

  lemma MultipleOf(i: nat, s: nat)
    requires s > 0
    ensures (i * s) % s == 0
  {
    var x := i * s;
    assert (i + 1) * s == x + s;
    DivUnique(x, i, s);
    assert x == x / s * s + x % s;
  }

  /** A page lies inside the page of the next order that its index falls in. */
  lemma ParentRange(g: Geometry, p: Page)
    ensures var q := Page(p.order + 1, p.index / WIDTH);
            Start(g, q) <= Start(g, p) && End(g, p) <= End(g, q)
  {
    var size, j := OrderSize(p.order), p.index / WIDTH;
    assert OrderSize(p.order + 1) == WIDTH * size;
    assert j * (WIDTH * size) == (j * WIDTH) * size;
    MulMono(j * WIDTH, p.index, size);
    MulMono(p.index + 1, j * WIDTH + WIDTH, size);
    assert (j * WIDTH + WIDTH) * size == (j * WIDTH) * size + WIDTH * size;
    assert (p.index + 1) * size == p.index * size + size;
  }

  lemma {:induction false} AncestorRange(g: Geometry, p: Page, k: nat)
    ensures var q := Page(p.order + k, Ancestor(p.index, k));
            Start(g, q) <= Start(g, p) && End(g, p) <= End(g, q)
  {
    hide Start, End;
    if k > 0 {
      AncestorRange(g, p, k - 1);
      ParentRange(g, Page(p.order + k - 1, Ancestor(p.index, k - 1)));
    }
  }

  lemma SameOrderApart(g: Geometry, o: nat, i: nat, j: nat)
    requires i < j
    ensures End(g, Page(o, i)) <= Start(g, Page(o, j))
  {
    MulMono(i + 1, j, OrderSize(o));
  }

  /** Pages of the allocator overlap in memory only if one is inside the other. */
  lemma OverlapIffNested(g: Geometry, p: Page, q: Page)
    ensures Overlap(g, p, q) <==> Contains(p, q) || Contains(q, p)
    decreases p.order < q.order
  {
    if p.order < q.order {
      OverlapIffNested(g, q, p);
    } else {
      var k := p.order - q.order;
      var a := Page(p.order, Ancestor(q.index, k));
      AncestorRange(g, q, k);
      if a.index < p.index { SameOrderApart(g, p.order, a.index, p.index); }
      if p.index < a.index { SameOrderApart(g, p.order, p.index, a.index); }
    }
  }

  /** No byte of RAM belongs to two live pages. */
  lemma LiveBytesDisjoint(g: Geometry, m: Maps, live: set<Page>, p: Page, q: Page)
    requires Core(g, m, live) && p in live && q in live && p != q
    ensures !Overlap(g, p, q)
  {
    OverlapIffNested(g, p, q);
    if Overlap(g, p, q) {
      if Contains(p, q) { LiveNotNested(g, m, live, p, q); } else { LiveNotNested(g, m, live, q, p); }
    }
  }

  /** `__get_bit`: the page of order `o` that an address falls in, then its set and bit. */
  function PageAt(g: Geometry, o: nat, a: nat): nat
    requires a >= g.base
  {
    (a - g.base) / OrderSize(o)
  }

  /** `bucket->bits` is the width of the next order, or the number of pages if there is no next order. */
  function BucketBits(g: Geometry, o: nat): nat {
    if OrderWidth(g, o + 1) == 0 then g.count else OrderWidth(g, o + 1)
  }

  function GetBit(g: Geometry, o: nat, a: nat): (nat, nat)
    requires a >= g.base && g.Valid()
  {
    var p := PageAt(g, o, a);
    (p / BucketBits(g, o), p % BucketBits(g, o))
  }

  /** `__page_addr` */
  function PageAddr(g: Geometry, o: nat, s: nat, b: nat): nat {
    g.base + s * OrderSize(o) * BucketBits(g, o) + b * OrderSize(o)
  }

  lemma SmallDivMod(x: nat, n: nat)
    requires x < n
    ensures x / n == 0 && x % n == x
  {
  }

  /** Set and bit computed from any address inside a page are those of the page. */
  lemma GetBitCorrect(g: Geometry, o: nat, a: nat)
    requires g.Valid() && o <= g.top && a >= g.base && PageAt(g, o, a) < Pages(g, o)
    ensures GetBit(g, o, a) == (SetOf(g, o, PageAt(g, o, a)), BitOf(g, o, PageAt(g, o, a)))
  {
    if o == g.top {
      SmallDivMod(PageAt(g, o, a), BucketBits(g, o));
    }
  }

  lemma PageAddrCorrect(g: Geometry, o: nat, s: nat, b: nat)
    requires g.Valid() && o <= g.top && s < Sets(g, o) && b < SetSize(g, o)
    ensures PageAddr(g, o, s, b) == Start(g, Page(o, IndexOf(g, o, s, b)))
    ensures IndexOf(g, o, s, b) < Pages(g, o)
    ensures SetOf(g, o, IndexOf(g, o, s, b)) == s && BitOf(g, o, IndexOf(g, o, s, b)) == b
  {
    if o < g.top {
      Regroup(s, OrderSize(o), b);
    } else {
      assert s == 0;
    }
  }

  lemma Regroup(s: nat, size: nat, b: nat)
    ensures s * size * WIDTH + b * size == (s * WIDTH + b) * size
  {
    assert (s * WIDTH + b) * size == s * WIDTH * size + b * size;
  }

  lemma DivUnique(x: nat, q: nat, d: nat)
    requires q * d <= x < (q + 1) * d
    ensures x / d == q
  {
    var r := x / d;
    if r < q { MulMono(r + 1, q, d); }
    if q < r { MulMono(q + 1, r, d); }
  }

  lemma PageAtStart(g: Geometry, p: Page)
    ensures PageAt(g, p.order, Start(g, p)) == p.index
  {
    DivUnique(p.index * OrderSize(p.order), p.index, OrderSize(p.order));
  }

  lemma PageAtParent(g: Geometry, o: nat, a: nat)
    requires a >= g.base
    ensures PageAt(g, o + 1, a) == PageAt(g, o, a) / WIDTH
  {
    var x, size := a - g.base, OrderSize(o);
    var q := x / size;
    var r := q / WIDTH;
    MulMono(r * WIDTH, q, size);
    MulMono(q + 1, (r + 1) * WIDTH, size);
    assert r * (WIDTH * size) == (r * WIDTH) * size;
    assert (r + 1) * (WIDTH * size) == ((r + 1) * WIDTH) * size;
    DivUnique(x, r, WIDTH * size);
  }

  // ------------------------------------------------------- when allocation can fail

  ghost predicate AllBlocked(g: Geometry, live: set<Page>, o: nat) {
    forall i :: 0 <= i < Pages(g, o) ==> Blocked(g, live, Page(o, i))
  }

  ghost predicate Blocked(g: Geometry, live: set<Page>, p: Page) {
    exists q :: q in live && Overlap(g, p, q)
  }

  /** If every larger block is taken and no set of this order has room, every block of this order is taken. */
  lemma BlockedBelow(g: Geometry, m: Maps, lists: seq<seq<nat>>, live: set<Page>, o: nat)
    requires Core(g, m, live) && Lists(g, m, lists, live, o) && o < g.top
    requires lists[o] == [] && AllBlocked(g, live, o + 1)
    ensures AllBlocked(g, live, o)
  {
    assert ListRule(g, m, lists[o], live, o);
    forall i | 0 <= i < Pages(g, o) ensures Blocked(g, live, Page(o, i)) {
      var s := i / WIDTH;
      var child, parent := Page(o, i), Page(o + 1, s);
      assert Blocked(g, live, parent);
      var q :| q in live && Overlap(g, parent, q);
      assert LevelShape(g, m[o], o);
      if Used(g, m, o, s) == 0 {
        BlockedFromAbove(g, m, live, o, i, q);
      } else {
        assert Bit(g, m, o, i);
        var p := LiveInside(g, m, live, o, i);
        OverlapIffNested(g, child, p);
      }
    }
  }

  /** What overlaps the page covering an unused set overlaps every page of the set. */
  lemma BlockedFromAbove(g: Geometry, m: Maps, live: set<Page>, o: nat, i: nat, q: Page)
    requires Core(g, m, live) && o < g.top && i < Pages(g, o) && Used(g, m, o, i / WIDTH) == 0
    requires q in live && Overlap(g, Page(o + 1, i / WIDTH), q)
    ensures Overlap(g, Page(o, i), q)
  {
    hide Start, End;
    var child, parent := Page(o, i), Page(o + 1, i / WIDTH);
    assert Ancestor(i, 1) == i / WIDTH;
    OverlapIffNested(g, parent, q);
    if Contains(parent, q) && q != parent { AncestorsSplit(g, m, live, q, o + 1 - q.order); }
    AncestorCompose(i, 1, q.order - o - 1);
    assert Contains(q, child);
    OverlapIffNested(g, child, q);
  }

  lemma BlockedAtTop(g: Geometry, m: Maps, live: set<Page>)
    requires Core(g, m, live) && Used(g, m, g.top, 0) == g.count
    ensures AllBlocked(g, live, g.top)
  {
    assert LevelShape(g, m[g.top], g.top);
    forall i | 0 <= i < g.count ensures Blocked(g, live, Page(g.top, i)) {
      assert Bit(g, m, g.top, i);
      var p := LiveInside(g, m, live, g.top, i);
      OverlapIffNested(g, Page(g.top, i), p);
    }
  }

  /** A page whose bit is clear and which is not inside a live page overlaps no live page. */
  lemma FreePageUnblocked(g: Geometry, m: Maps, live: set<Page>, o: nat, i: nat)
    requires Core(g, m, live) && o <= g.top && i < Pages(g, o) && !Bit(g, m, o, i)
    requires o < g.top ==> Used(g, m, o, i / WIDTH) > 0
    ensures !Blocked(g, live, Page(o, i))
  {
    hide Overlap, Bit, Ancestor;
    forall q | q in live ensures !Overlap(g, Page(o, i), q) {
      OverlapIffNested(g, Page(o, i), q);
      NotNested(g, m, live, o, i, q);
    }
  }

  lemma NotNested(g: Geometry, m: Maps, live: set<Page>, o: nat, i: nat, q: Page)
    requires Core(g, m, live) && o <= g.top && i < Pages(g, o) && !Bit(g, m, o, i) && q in live
    requires o < g.top ==> Used(g, m, o, i / WIDTH) > 0
    ensures !Contains(Page(o, i), q) && !Contains(q, Page(o, i))
  {
    hide Bit, BitRule, LiveRule;
    if Contains(Page(o, i), q) { AncestorsSplit(g, m, live, q, o - q.order); }
    if Contains(q, Page(o, i)) { InsideUsedSet(g, m, live, o, i, q); }
  }

  /** A page inside an unblocked page is unblocked. */
  lemma ChildUnblocked(g: Geometry, live: set<Page>, o: nat, i: nat)
    requires !Blocked(g, live, Page(o + 1, i / WIDTH))
    ensures !Blocked(g, live, Page(o, i))
  {
    assert Ancestor(i, 1) == i / WIDTH;
    AncestorRange(g, Page(o, i), 1);
    forall q | q in live ensures !Overlap(g, Page(o, i), q) {
      assert !Overlap(g, Page(o + 1, i / WIDTH), q);
    }
  }

  lemma InsideUsedSet(g: Geometry, m: Maps, live: set<Page>, o: nat, i: nat, q: Page)
    requires Core(g, m, live) && o <= g.top && i < Pages(g, o) && q in live && q != Page(o, i)
    requires o < g.top ==> Used(g, m, o, i / WIDTH) > 0
    ensures !Contains(q, Page(o, i))
  {
    if Contains(q, Page(o, i)) {
      assert LiveRule(g, m, q);
      var j := SetBitIn(g, m, o, i / WIDTH);
      var p := LiveInside(g, m, live, o, j);
      SiblingsShareAncestors(i, j, q.order - o);
      AncestorCompose(p.index, o - p.order, q.order - o);
      LiveNotNested(g, m, live, q, p);
      assert false;
    }
  }

  lemma {:induction false} SiblingsShareAncestors(i: nat, j: nat, k: nat)
    requires i / WIDTH == j / WIDTH && k > 0
    ensures Ancestor(i, k) == Ancestor(j, k)
  {
    if k > 1 { SiblingsShareAncestors(i, j, k - 1); }
  }

  lemma {:induction false} AncestorCompose(i: nat, k: nat, l: nat)
    ensures Ancestor(i, k + l) == Ancestor(Ancestor(i, k), l)
  {
    if l > 0 { AncestorCompose(i, k, l - 1); }
  }

  lemma {:induction false} EmptyTopMeansNoLive(g: Geometry, m: Maps, live: set<Page>)
    requires Core(g, m, live) && Used(g, m, g.top, 0) == 0
    ensures live == {}
  {
    assert LevelShape(g, m[g.top], g.top);
    forall p | p in live ensures false {
      assert LiveRule(g, m, p);
      AncestorsSplit(g, m, live, p, g.top - p.order);
    }
  }

  // ------------------------------------------------------------------ accounting

  ghost function Bytes(pages: set<Page>): nat {
    if pages == {} then 0 else var p :| p in pages; OrderSize(p.order) + Bytes(pages - {p})
  }

  lemma {:induction false} BytesWithout(pages: set<Page>, p: Page)
    requires p in pages
    ensures Bytes(pages) == OrderSize(p.order) + Bytes(pages - {p})
    decreases pages
  {
    var q :| q in pages && Bytes(pages) == OrderSize(q.order) + Bytes(pages - {q});
    if q != p {
      BytesWithout(pages - {q}, p);
      BytesWithout(pages - {p}, q);
      assert pages - {q} - {p} == pages - {p} - {q};
    }
  }
}
