/**
 The physical page allocator of src/pmem.c as steps on values: what one call of `__alloc_page`, `__free_page` and
 `__mark_used` makes of the bitmaps and freelists, and how the live pages follow. The methods of PhysMem take exactly
 these steps.
 */
module PhysStep {
  import opened Common
  import opened BitScan
  import opened FreeList
  import opened PhysMap

  /** Bitmap nodes by order and set, and the freelist of set indices of each order, head first. */
  datatype Store = Store(maps: Maps, lists: seq<seq<nat>>)

  /** Enough for the code to run: bitmaps of the right shape, and room in every listed set. */
  ghost predicate Runnable(g: Geometry, st: Store) {
    && g.Valid() && Shape(g, st.maps) && |st.lists| == g.top + 1
    && forall o :: 0 <= o <= g.top ==> ListOk(g, st.maps, st.lists[o], o)
  }

  ghost predicate ListOk(g: Geometry, m: Maps, list: seq<nat>, o: nat)
    requires Shape(g, m) && o <= g.top
  {
    Distinct(list) && forall s :: s in list ==> s < Sets(g, o) && Used(g, m, o, s) < SetSize(g, o)
  }

  /** Bitmaps and freelists are those of the live pages. */
  ghost predicate Consistent(g: Geometry, st: Store, live: set<Page>) {
    g.Valid() && Core(g, st.maps, live) && Lists(g, st.maps, st.lists, live, 0)
  }

  /** The top set has been lost: nothing is live and yet no allocation can succeed. */
  ghost predicate Lost(g: Geometry, st: Store, live: set<Page>) {
    |st.lists| == g.top + 1 && live == {} && st.lists[g.top] == []
  }

  lemma ConsistentRuns(g: Geometry, st: Store, live: set<Page>)
    requires Consistent(g, st, live)
    ensures Runnable(g, st)
  {
    forall o | 0 <= o <= g.top ensures ListOk(g, st.maps, st.lists[o], o) {
      assert ListRule(g, st.maps, st.lists[o], live, o);
    }
  }

  function Zeros(n: nat): (r: seq<bool>)
    ensures |r| == n && Count(r) == 0
  {
    seq(n, _ => false)
  }

  /** A set without used pages already looks as `bitmap_clear_all` leaves it. */
  lemma ClearingUnusedSet(g: Geometry, m: Maps, o: nat, s: nat)
    requires Shape(g, m) && o <= g.top && s < Sets(g, o) && Used(g, m, o, s) == 0
    ensures m[o][s] == Bitmap(Zeros(|m[o][s].bits|), 0)
    ensures m[o := m[o][s := Bitmap(Zeros(|m[o][s].bits|), 0)]] == m
  {
    assert LevelShape(g, m[o], o);
    assert m[o][s].bits == Zeros(|m[o][s].bits|);
    assert m[o][s := m[o][s]] == m[o];
  }

  // ------------------------------------------------------------------ the steps

  /** Set a bit; a set that is full then leaves its list: lines 290-297 and 341-345. */
  function SetBit(st: Store, o: nat, s: nat, b: nat): Store
    requires o < |st.maps| && o < |st.lists| && s < |st.maps[o]| && b < |st.maps[o][s].bits|
  {
    var m := Put(st.maps, o, s, b, true);
    Store(m, if m[o][s].used == |m[o][s].bits| then st.lists[o := Detach(st.lists[o], s)] else st.lists)
  }

  /** Clear a whole set and list it: lines 283-285 and 329-330. */
  function Opened(st: Store, o: nat, s: nat): Store
    requires o < |st.maps| && o < |st.lists| && s < |st.maps[o]|
  {
    Store(st.maps[o := st.maps[o][s := Bitmap(Zeros(|st.maps[o][s].bits|), 0)]], st.lists[o := Attach(st.lists[o], s)])
  }

  /** Clear a bit; the set is listed, or unlisted when it has no used page left: lines 236-243. */
  function ClearedBit(st: Store, o: nat, s: nat, b: nat): Store
    requires o < |st.maps| && o < |st.lists| && s < |st.maps[o]| && b < |st.maps[o][s].bits| && st.maps[o][s].used > 0
  {
    var m := Put(st.maps, o, s, b, false);
    var list := Attach(st.lists[o], s);
    Store(m, st.lists[o := if m[o][s].used == 0 then Detach(list, s) else list])
  }

  lemma SetBitRuns(g: Geometry, st: Store, o: nat, i: nat)
    requires Runnable(g, st) && o <= g.top && i < Pages(g, o) && !Bit(g, st.maps, o, i)
    ensures SetOf(g, o, i) < Sets(g, o) && BitOf(g, o, i) < SetSize(g, o)
    ensures var st' := SetBit(st, o, SetOf(g, o, i), BitOf(g, o, i));
            Runnable(g, st') && forall k :: 0 <= k <= g.top && k != o ==>
                st'.maps[k] == st.maps[k] && st'.lists[k] == st.lists[k]
  {
    PutEffect(g, st.maps, o, i, true);
    var s := SetOf(g, o, i);
    var st' := SetBit(st, o, s, BitOf(g, o, i));
    forall k | 0 <= k <= g.top ensures ListOk(g, st'.maps, st'.lists[k], k) {
      assert ListOk(g, st.maps, st.lists[k], k);
      assert LevelShape(g, st'.maps[k], k);
    }
  }

  lemma OpenedRuns(g: Geometry, st: Store, o: nat, s: nat)
    requires Runnable(g, st) && o <= g.top && s < Sets(g, o)
    ensures var st' := Opened(st, o, s);
            && Runnable(g, st') && st'.lists[o] != [] && Used(g, st'.maps, o, s) == 0
            && forall k :: 0 <= k <= g.top && k != o ==> st'.maps[k] == st.maps[k] && st'.lists[k] == st.lists[k]
  {
    var st' := Opened(st, o, s);
    assert LevelShape(g, st.maps[o], o);
    assert LevelShape(g, st'.maps[o], o);
    assert Pages(g, o) > 0 && SetSize(g, o) > 0;
    forall k | 0 <= k <= g.top ensures ListOk(g, st'.maps, st'.lists[k], k) {
      assert ListOk(g, st.maps, st.lists[k], k);
    }
    assert s in st'.lists[o];
  }

  /** The first unused page of the first listed set. */
  lemma HeadHasRoom(g: Geometry, st: Store, o: nat)
    requires Runnable(g, st) && o <= g.top && st.lists[o] != []
    ensures var s := st.lists[o][0]; s < Sets(g, o) && Find(st.maps[o][s].bits, false) < SetSize(g, o)
    ensures var s := st.lists[o][0]; var b := Find(st.maps[o][s].bits, false);
            var i := IndexOf(g, o, s, b);
            i < Pages(g, o) && SetOf(g, o, i) == s && BitOf(g, o, i) == b && !Bit(g, st.maps, o, i)
  {
    assert ListOk(g, st.maps, st.lists[o], o) && LevelShape(g, st.maps[o], o);
    var s := st.lists[o][0];
    assert s in st.lists[o];
    var bits := st.maps[o][s].bits;
    assert exists k :: 0 <= k < |bits| && !bits[k];
    PageAddrCorrect(g, o, s, Find(bits, false));
  }

  /** `__alloc_page` once the freelist has a head: lines 290-299. */
  ghost function TakeStep(g: Geometry, st: Store, o: nat): (r: (Store, nat))
    requires Runnable(g, st) && o <= g.top && st.lists[o] != []
    ensures Runnable(g, r.0) && r.1 < Pages(g, o) && !Bit(g, st.maps, o, r.1) && SetOf(g, o, r.1) == st.lists[o][0]
    ensures forall k :: 0 <= k <= g.top && k != o ==> r.0.maps[k] == st.maps[k] && r.0.lists[k] == st.lists[k]
  {
    HeadHasRoom(g, st, o);
    var s := st.lists[o][0];
    var b := Find(st.maps[o][s].bits, false);
    var i := IndexOf(g, o, s, b);
    SetBitRuns(g, st, o, i);
    (SetBit(st, o, s, b), i)
  }

  /** `__alloc_page`: the page handed out, by its index, and the state after it. */
  ghost function AllocStep(g: Geometry, st: Store, o: nat): (r: Option<(Store, nat)>)
    requires Runnable(g, st)
    ensures r.Some? ==> o <= g.top && Runnable(g, r.value.0) && r.value.1 < Pages(g, o)
    ensures r.Some? ==> forall k :: 0 <= k < o ==> r.value.0.maps[k] == st.maps[k] && r.value.0.lists[k] == st.lists[k]
    decreases g.top + 1 - o
  {
    if o > g.top then None
    else if st.lists[o] == [] then
      var up := AllocStep(g, st, o + 1);
      if up.None? then None
      else
        OpenedRuns(g, up.value.0, o, up.value.1);
        Some(TakeStep(g, Opened(up.value.0, o, up.value.1), o))
    else Some(TakeStep(g, st, o))
  }

  /** `__free_page`; a page that is not in use, which the source asserts against, changes nothing. */
  ghost function FreeStep(g: Geometry, st: Store, o: nat, i: nat): (r: Store)
    requires Shape(g, st.maps) && |st.lists| == g.top + 1
    ensures Shape(g, r.maps) && |r.lists| == g.top + 1 && forall k :: 0 <= k < o && k <= g.top ==>
        r.lists[k] == st.lists[k]
    decreases g.top + 1 - o
  {
    if o > g.top || i >= Pages(g, o) || !Bit(g, st.maps, o, i) then st
    else
      PutEffect(g, st.maps, o, i, false);
      var s := SetOf(g, o, i);
      var st' := ClearedBit(st, o, s, BitOf(g, o, i));
      if st'.maps[o][s].used == 0 && |st'.maps[o][s].bits| == OrderWidth(g, o + 1) then FreeStep(g, st', o + 1,
          i / WIDTH) else st'
  }

  /** `__mark_used` and whether it made the page used. */
  ghost function MarkStep(g: Geometry, st: Store, o: nat, i: nat): (r: (Store, bool))
    requires |st.maps| == g.top + 1 && |st.lists| == g.top + 1
    ensures |r.0.maps| == g.top + 1 && |r.0.lists| == g.top + 1
    decreases g.top + 1 - o
  {
    var s, b := SetOf(g, o, i), BitOf(g, o, i);
    if o > g.top || s >= |st.maps[o]| then (st, false)
    else
      var st1 := if st.maps[o][s].used == 0 then MarkStep(g, Opened(st, o, s), o + 1, i / WIDTH).0 else st;
      if s >= |st1.maps[o]| || b >= |st1.maps[o][s].bits| || st1.maps[o][s].bits[b] then (st1, false)
      else (SetBit(st1, o, s, b), true)
  }

  lemma UnusedSetClear(g: Geometry, m: Maps, o: nat, i: nat)
    requires Shape(g, m) && o <= g.top && i < Pages(g, o)
    ensures SetOf(g, o, i) < Sets(g, o) == |m[o]| && BitOf(g, o, i) < SetSize(g, o) == |m[o][SetOf(g, o, i)].bits|
    ensures Bit(g, m, o, i) <==> m[o][SetOf(g, o, i)].bits[BitOf(g, o, i)]
    ensures m[o][SetOf(g, o, i)].used == 0 ==> !Bit(g, m, o, i)
    ensures o < g.top ==> i / WIDTH < Pages(g, o + 1)
  {
    assert LevelShape(g, m[o], o);
  }

  /** Orders below `o` are the same. */
  ghost predicate SameBelow(g: Geometry, st: Store, st': Store, o: nat) {
    && |st.maps| == g.top + 1 && |st.lists| == g.top + 1 && |st'.maps| == g.top + 1 && |st'.lists| == g.top + 1
    && forall k :: 0 <= k < o && k <= g.top ==> st'.maps[k] == st.maps[k] && st'.lists[k] == st.lists[k]
  }

  /** One order of a mark. */
  ghost predicate MarkCase(g: Geometry, st: Store, o: nat, i: nat)
    requires Runnable(g, st) && o <= g.top && i < Pages(g, o) && SetOf(g, o, i) < |st.maps[o]|
        && BitOf(g, o, i) < |st.maps[o][SetOf(g, o, i)].bits|
  {
    var s, b := SetOf(g, o, i), BitOf(g, o, i);
    if st.maps[o][s].used > 0 then MarkStep(g, st, o, i) == if Bit(g, st.maps, o, i) then (st, false)
        else (SetBit(st, o, s, b), true)
    else
      var st1 := MarkStep(g, Opened(st, o, s), o + 1, i / WIDTH).0;
      && SameBelow(g, Opened(st, o, s), st1, o + 1)
      && MarkStep(g, st, o, i) == (SetBit(st1, o, s, b), true)
  }

  /** The code of a mark can always run, and stays away from lower orders. */
  lemma {:induction false} MarkRuns(g: Geometry, st: Store, o: nat, i: nat)
    requires Runnable(g, st) && (o <= g.top ==> i < Pages(g, o))
    ensures Runnable(g, MarkStep(g, st, o, i).0) && SameBelow(g, st, MarkStep(g, st, o, i).0, o)
    ensures o <= g.top ==>
        SetOf(g, o, i) < Sets(g, o) == |st.maps[o]| && BitOf(g, o, i) < SetSize(g,
        o) == |st.maps[o][SetOf(g, o, i)].bits|
    ensures o <= g.top ==> MarkCase(g, st, o, i)
    decreases g.top + 1 - o
  {
    hide Bit, Opened, SetBit, Runnable;
    if o <= g.top {
      var s, b := SetOf(g, o, i), BitOf(g, o, i);
      RunnableShape(g, st);
      UnusedSetClear(g, st.maps, o, i);
      if st.maps[o][s].used == 0 {
        OpenedRuns(g, st, o, s);
        var st0 := Opened(st, o, s);
        MarkRuns(g, st0, o + 1, i / WIDTH);
        var st1 := MarkStep(g, st0, o + 1, i / WIDTH).0;
        RunnableShape(g, st0);
        RunnableShape(g, st1);
        UnusedSetClear(g, st1.maps, o, i);
        SetBitRuns(g, st1, o, i);
      } else if !Bit(g, st.maps, o, i) {
        SetBitRuns(g, st, o, i);
      }
    }
  }

  lemma RunnableShape(g: Geometry, st: Store)
    requires Runnable(g, st)
    ensures g.Valid() && Shape(g, st.maps) && |st.maps| == g.top + 1 && |st.lists| == g.top + 1
  {
  }

  // ---------------------------------------------------------- steps and live pages

  /** A set on a freelist is split, so the page covering it is not live, and something inside it is. */
  lemma ListedSetIsSplit(g: Geometry, m: Maps, list: seq<nat>, live: set<Page>, o: nat, s: nat)
    requires Core(g, m, live) && o < g.top && ListRule(g, m, list, live, o) && s in list
    ensures Page(o + 1, s) !in live && live != {}
  {
    assert Page(o + 1, s) in live ==> LiveRule(g, m, Page(o + 1, s));
    var i := SetBitIn(g, m, o, s);
    var p := LiveInside(g, m, live, o, i);
  }

  lemma KeepOtherLists(g: Geometry, m: Maps, m': Maps, lists: seq<seq<nat>>, lists': seq<seq<nat>>,
                       live: set<Page>, live': set<Page>, o: nat, from: nat)
    requires Shape(g, m) && Shape(g, m') && o <= g.top && |lists| == g.top + 1
    requires |lists'| == |lists| && ListRule(g, m', lists'[o], live', o)
    requires forall k :: from <= k <= g.top && k != o ==> ListRule(g, m, lists[k], live, k)
    requires forall k :: 0 <= k <= g.top && k != o ==> m'[k] == m[k] && lists'[k] == lists[k]
    requires live != {} || o == g.top
    ensures Lists(g, m', lists', live', from)
  {
    forall k | from <= k <= g.top ensures ListRule(g, m', lists'[k], live', k) {
      if k != o { ListsElsewhere(g, m, m', lists[k], live, live', k); }
    }
  }

  lemma UsedTopMeansLive(g: Geometry, m: Maps, live: set<Page>)
    requires Core(g, m, live) && Used(g, m, g.top, 0) > 0
    ensures live != {}
  {
    assert LevelShape(g, m[g.top], g.top);
    var b :| 0 <= b < g.count && m[g.top][0].bits[b];
    assert Bit(g, m, g.top, b);
    var p := LiveInside(g, m, live, g.top, b);
  }

  lemma SplitPageNotLive(g: Geometry, m: Maps, live: set<Page>, o: nat, i: nat)
    requires Core(g, m, live) && o <= g.top && i < Pages(g, o)
    requires o < g.top ==> Used(g, m, o, i / WIDTH) > 0
    ensures Page(o + 1, i / WIDTH) !in live
  {
    assert Page(o + 1, i / WIDTH) in live ==> LiveRule(g, m, Page(o + 1, i / WIDTH));
  }

  /** A set that is split and not full is listed. */
  lemma SplitSetHasRoom(g: Geometry, m: Maps, list: seq<nat>, live: set<Page>, o: nat, i: nat)
    requires Shape(g, m) && o <= g.top && ListRule(g, m, list, live, o) && i < Pages(g, o)
    requires !Bit(g, m, o, i) && SetOf(g, o, i) < Sets(g, o) && Used(g, m, o, SetOf(g, o, i)) > 0
    requires o == g.top ==> live != {}
    ensures ListRuleBut(g, m, list, o, SetOf(g, o, i))
  {
    assert LevelShape(g, m[o], o);
  }

  lemma SomeMember(list: seq<nat>) returns (t: nat)
    requires list != []
    ensures t in list
  {
    t := list[0];
  }

  /** With nothing live every set is unused, and only the top set could have been listed. */
  lemma EmptiedTopList(g: Geometry, m: Maps, list: seq<nat>, live: set<Page>, o: nat, s: nat)
    requires Core(g, m, live) && live == {} && o <= g.top && s < Sets(g, o) && ListRule(g, m, list, live, o)
    requires o < g.top ==> Used(g, m, o, s) > 0
    requires Used(g, m, o, s) == 0 ==> s !in list
    ensures o == g.top && list == []
  {
    if o < g.top {
      var i := SetBitIn(g, m, o, s);
      var p := LiveInside(g, m, live, o, i);
      assert false;
    } else {
      if Used(g, m, o, s) > 0 { UsedTopMeansLive(g, m, live); }
      if list != [] { var t := SomeMember(list); }
    }
  }

  /** Setting the bit of a page in a split set, or in a set whose covering page is live and gives way to it. */
  lemma SetBitOk(g: Geometry, st: Store, live: set<Page>, o: nat, i: nat, from: nat)
    requires g.Valid() && Core(g, st.maps, live) && from <= o <= g.top && |st.lists| == g.top + 1
    requires i < Pages(g, o) && !Bit(g, st.maps, o, i) && SetOf(g, o, i) < Sets(g, o) && BitOf(g, o, i) < SetSize(g, o)
    requires forall k :: from <= k <= g.top && k != o ==> ListRule(g, st.maps, st.lists[k], live, k)
    requires ListRuleBut(g, st.maps, st.lists[o], o, SetOf(g, o, i))
    requires o < g.top ==> Used(g, st.maps, o, SetOf(g, o, i)) > 0 || Page(o + 1, i / WIDTH) in live
    ensures var st' := SetBit(st, o, SetOf(g, o, i), BitOf(g, o, i));
            var live' := live - {Page(o + 1, i / WIDTH)} + {Page(o, i)};
            Core(g, st'.maps, live') && Lists(g, st'.maps, st'.lists, live', from)
  {
    hide Bit, ListRuleBut;
    var s, live' := SetOf(g, o, i), live - {Page(o + 1, i / WIDTH)} + {Page(o, i)};
    var st' := SetBit(st, o, s, BitOf(g, o, i));
    TakeCore(g, st.maps, live, o, i);
    if o < g.top && Page(o + 1, i / WIDTH) !in live {
      var j := SetBitIn(g, st.maps, o, s);
      var p := LiveInside(g, st.maps, live, o, j);
    }
    ListAfterTake(g, st.maps, st.lists[o], live', o, i);
    KeepOtherLists(g, st.maps, st'.maps, st.lists, st'.lists, live, live', o, from);
  }

  /** What an allocation of order `o` means for the live pages. */
  ghost predicate Allocated(g: Geometry, st: Store, live: set<Page>, o: nat, r: Option<(Store, nat)>) {
    match r
    case None => AllBlocked(g, live, o) || Lost(g, st, live)
    case Some((st', i)) =>
      && i < Pages(g, o) && Page(o, i) !in live && !Blocked(g, live, Page(o, i)) && !Lost(g, st, live)
      && Consistent(g, st', live + {Page(o, i)})
  }

  lemma TakeStepOk(g: Geometry, st: Store, live: set<Page>, o: nat)
    requires Consistent(g, st, live) && Runnable(g, st) && o <= g.top && st.lists[o] != []
    ensures Allocated(g, st, live, o, Some(TakeStep(g, st, o)))
  {
    hide Bit, Blocked;
    var s := st.lists[o][0];
    var (st', i) := TakeStep(g, st, o);
    assert ListRule(g, st.maps, st.lists[o], live, o);
    HeadHasRoom(g, st, o);
    if o < g.top { ListedSetIsSplit(g, st.maps, st.lists[o], live, o, s); }
    FreePageUnblocked(g, st.maps, live, o, i);
    SplitPageNotLive(g, st.maps, live, o, i);
    SetBitOk(g, st, live, o, i, 0);
    ClearNotLive(g, st.maps, live, o, i);
    assert live - {Page(o + 1, i / WIDTH)} == live;
  }

  lemma ClearNotLive(g: Geometry, m: Maps, live: set<Page>, o: nat, i: nat)
    requires Core(g, m, live) && o <= g.top && i < Pages(g, o) && !Bit(g, m, o, i)
    ensures Page(o, i) !in live
  {
    assert BitRule(g, m, live, o, i);
  }

  /** Splitting a page that was just taken. */
  lemma SplitOk(g: Geometry, st: Store, live: set<Page>, o: nat, j: nat)
    requires Consistent(g, st, live) && Runnable(g, st) && o < g.top && st.lists[o] == [] && Page(o + 1, j) in live
    ensures j < Sets(g, o) && Runnable(g, Opened(st, o, j)) && Opened(st, o, j).lists[o] == [j]
    ensures var (st', i) := TakeStep(g, Opened(st, o, j), o);
            i / WIDTH == j && Page(o, i) !in live && Consistent(g, st', live - {Page(o + 1, j)} + {Page(o, i)})
  {
    hide Bit;
    LiveUnsplit(g, st.maps, live, o, j);
    ClearingUnusedSet(g, st.maps, o, j);
    OpenedRuns(g, st, o, j);
    var st1 := Opened(st, o, j);
    assert st1.maps == st.maps;
    assert ListRule(g, st.maps, st.lists[o], live, o);
    assert ListRuleBut(g, st1.maps, st1.lists[o], o, j);
    HeadHasRoom(g, st1, o);
    var (st', i) := TakeStep(g, st1, o);
    SetBitOk(g, st1, live, o, i, 0);
    ClearNotLive(g, st.maps, live, o, i);
  }

  lemma LiveUnsplit(g: Geometry, m: Maps, live: set<Page>, o: nat, j: nat)
    requires Core(g, m, live) && o < g.top && Page(o + 1, j) in live
    ensures j < Sets(g, o) && Used(g, m, o, j) == 0
  {
    assert LiveRule(g, m, Page(o + 1, j));
  }

  /** Allocation fails exactly when every page of the order overlaps a live page or the top set is lost. */
  lemma {:induction false} AllocStepOk(g: Geometry, st: Store, live: set<Page>, o: nat)
    requires Consistent(g, st, live) && Runnable(g, st)
    ensures Allocated(g, st, live, o, AllocStep(g, st, o))
    decreases g.top + 1 - o
  {
    hide Blocked;
    if o <= g.top {
      if st.lists[o] == [] {
        var up := AllocStep(g, st, o + 1);
        AllocStepOk(g, st, live, o + 1);
        if up.None? {
          if !Lost(g, st, live) {
            if o < g.top { BlockedBelow(g, st.maps, st.lists, live, o); } else { FullTop(g, st, live); }
          }
        } else {
          SplitAllocated(g, st, live, o);
        }
      } else {
        TakeStepOk(g, st, live, o);
      }
    }
  }

  lemma FullTop(g: Geometry, st: Store, live: set<Page>)
    requires Consistent(g, st, live) && st.lists[g.top] == [] && !Lost(g, st, live)
    ensures AllBlocked(g, live, g.top)
  {
    assert ListRule(g, st.maps, st.lists[g.top], live, g.top) && LevelShape(g, st.maps[g.top], g.top);
    BlockedAtTop(g, st.maps, live);
  }

  lemma SplitAllocated(g: Geometry, st: Store, live: set<Page>, o: nat)
    requires Consistent(g, st, live) && Runnable(g, st) && o < g.top && st.lists[o] == []
    requires AllocStep(g, st, o + 1).Some? && Allocated(g, st, live, o + 1, AllocStep(g, st, o + 1))
    ensures Allocated(g, st, live, o, AllocStep(g, st, o))
  {
    hide Blocked, Core, Lists, TakeStep, Bit;
    var (st1, j) := AllocStep(g, st, o + 1).value;
    SplitOk(g, st1, live + {Page(o + 1, j)}, o, j);
    var (st', i) := TakeStep(g, Opened(st1, o, j), o);
    ChildUnblocked(g, live, o, i);
    Swapped(live, Page(o + 1, j), Page(o, i));
  }

  lemma Swapped(live: set<Page>, p: Page, q: Page)
    requires p !in live
    ensures live + {p} - {p} + {q} == live + {q}
  {
  }

  /** What freeing the live page `i` of order `o` does to its own order. */
  lemma ClearedBitOk(g: Geometry, st: Store, live: set<Page>, o: nat, i: nat)
    requires Consistent(g, st, live) && Page(o, i) in live
    ensures o <= g.top && i < Pages(g, o) && Bit(g, st.maps, o, i)
    ensures SetOf(g, o, i) < Sets(g, o) && BitOf(g, o, i) < SetSize(g, o) && st.maps[o][SetOf(g, o, i)].used > 0
    ensures var s := SetOf(g, o, i);
            var st' := ClearedBit(st, o, s, BitOf(g, o, i));
            var live' := live - {Page(o, i)} + (if o < g.top && st'.maps[o][s].used == 0 then {Page(o + 1, s)} else {});
            Consistent(g, st', live') && (live' == {} ==> st'.lists[g.top] == [])
    ensures o < g.top ==> Page(o + 1, i / WIDTH) !in live
  {
    hide Bit;
    ReleaseCore(g, st.maps, live, o, i);
    var s := SetOf(g, o, i);
    var st' := ClearedBit(st, o, s, BitOf(g, o, i));
    var live' := live - {Page(o, i)} + (if o < g.top && st'.maps[o][s].used == 0 then {Page(o + 1, s)} else {});
    assert ListRule(g, st.maps, st.lists[o], live, o);
    if o == g.top && st'.maps[o][0].used == 0 { EmptyTopMeansNoLive(g, st'.maps, live'); }
    ListAfterRelease(g, st.maps, st.lists[o], live, live', o, i);
    KeepOtherLists(g, st.maps, st'.maps, st.lists, st'.lists, live, live', o, 0);
    if live' == {} { EmptiedTopList(g, st'.maps, st'.lists[o], live', o, s); }
  }

  /** A set that becomes empty hands the free on to the page that covers it, except in the top order. */
  lemma FreeUnfolds(g: Geometry, st: Store, o: nat, i: nat)
    requires g.Valid() && Shape(g, st.maps) && |st.lists| == g.top + 1 && o <= g.top && i < Pages(g, o)
        && Bit(g, st.maps, o, i)
    ensures SetOf(g, o, i) < Sets(g, o) && BitOf(g, o, i) < SetSize(g, o) && st.maps[o][SetOf(g, o, i)].used > 0
    ensures var s := SetOf(g, o, i);
            var st' := ClearedBit(st, o, s, BitOf(g, o, i));
            && Shape(g, st'.maps)
            && FreeStep(g, st, o, i) == if o < g.top && st'.maps[o][s].used == 0 then FreeStep(g, st', o + 1, s)
                else st'
  {
    PutEffect(g, st.maps, o, i, false);
    assert LevelShape(g, ClearedBit(st, o, SetOf(g, o, i), BitOf(g, o, i)).maps[o], o);
  }

  /** Freeing a live page, through all the merging above it: exactly that page stops being live. */
  lemma {:induction false} FreeStepOk(g: Geometry, st: Store, live: set<Page>, o: nat, i: nat)
    requires Consistent(g, st, live) && Page(o, i) in live
    ensures Consistent(g, FreeStep(g, st, o, i), live - {Page(o, i)})
    ensures live == {Page(o, i)} ==> Lost(g, FreeStep(g, st, o, i), {})
    decreases g.top + 1 - o
  {
    hide Bit, FreeStep, ListRule;
    ClearedBitOk(g, st, live, o, i);
    var s := SetOf(g, o, i);
    FreeUnfolds(g, st, o, i);
    var st' := ClearedBit(st, o, s, BitOf(g, o, i));
    if o < g.top && st'.maps[o][s].used == 0 {
      var live' := live - {Page(o, i)} + {Page(o + 1, s)};
      FreeStepOk(g, st', live', o + 1, s);
      assert live' - {Page(o + 1, s)} == live - {Page(o, i)};
    } else {
      assert live - {Page(o, i)} + {} == live - {Page(o, i)};
    }
  }

  // ------------------------------------------------------------------ marking

  /** Some live page lies in `p`. */
  ghost predicate Occupied(live: set<Page>, p: Page) {
    exists q :: q in live && Contains(p, q)
  }

  /** Some live page is larger than `p` and contains it. */
  ghost predicate Inside(live: set<Page>, p: Page) {
    exists q :: q in live && q.order > p.order && Contains(q, p)
  }

  /**
   What the allocator takes for live once `p` has been marked. An occupied page is left alone. A page inside a larger
   live page is marked like a free one, and the larger page is forgotten: its bit now only says that it is split.
   */
  ghost function MarkedLive(live: set<Page>, p: Page): set<Page> {
    if Occupied(live, p) then live else live - Around(live, p) + {p}
  }

  ghost function Around(live: set<Page>, p: Page): set<Page> {
    set q | q in live && Contains(q, p)
  }

  lemma OccupiedIffBit(g: Geometry, m: Maps, live: set<Page>, o: nat, i: nat)
    requires Core(g, m, live) && o <= g.top && i < Pages(g, o)
    ensures Occupied(live, Page(o, i)) <==> Bit(g, m, o, i)
  {
    BitIffLiveInside(g, m, live, o, i);
  }

  /** A page of a split set lies in no larger live page. */
  lemma SplitNotInside(g: Geometry, m: Maps, live: set<Page>, o: nat, i: nat)
    requires Core(g, m, live) && o <= g.top && i < Pages(g, o) && !Bit(g, m, o, i)
    requires o < g.top ==> Used(g, m, o, i / WIDTH) > 0
    ensures MarkedLive(live, Page(o, i)) == live + {Page(o, i)} && !Inside(live, Page(o, i))
  {
    hide Bit;
    OccupiedIffBit(g, m, live, o, i);
    ClearNotLive(g, m, live, o, i);
    forall q | q in live ensures !Contains(q, Page(o, i)) {
      InsideUsedSet(g, m, live, o, i, q);
    }
    assert Around(live, Page(o, i)) == {};
  }

  /** Below a page without used pages, marking is marking the page above, which then gives way. */
  lemma MarkedUp(g: Geometry, m: Maps, live: set<Page>, o: nat, i: nat)
    requires Core(g, m, live) && o < g.top && i < Pages(g, o) && Used(g, m, o, i / WIDTH) == 0
    ensures i / WIDTH < Pages(g, o + 1) && Page(o + 1, i / WIDTH) in MarkedLive(live, Page(o + 1, i / WIDTH))
    ensures MarkedLive(live, Page(o + 1, i / WIDTH)) - {Page(o + 1, i / WIDTH)} + {Page(o, i)} == MarkedLive(live,
        Page(o, i))
    ensures !Bit(g, m, o, i)
  {
    var p, parent := Page(o, i), Page(o + 1, i / WIDTH);
    assert LevelShape(g, m[o], o);
    OccupiedIffBit(g, m, live, o, i);
    forall q | q in live ensures Contains(q, p) <==> Contains(q, parent) {
      AroundUp(live, o, i, q);
    }
    if Occupied(live, parent) {
      var q :| q in live && Contains(parent, q);
      if q != parent { AncestorsSplit(g, m, live, q, o + 1 - q.order); }
      forall x | x in live && Contains(x, parent) ensures x == parent { LiveNotNested(g, m, live, x, parent); }
      assert Around(live, p) == {parent};
    } else {
      assert Contains(parent, parent) && Around(live, p) == Around(live, parent);
      assert parent !in live;
    }
  }

  lemma AroundUp(live: set<Page>, o: nat, i: nat, q: Page)
    requires q in live && q != Page(o, i)
    ensures Contains(q, Page(o, i)) <==> Contains(q, Page(o + 1, i / WIDTH))
  {
    assert Ancestor(i, 1) == i / WIDTH;
    if q.order > o {
      AncestorCompose(i, 1, q.order - o - 1);
    }
  }

  /**
   Marking, over all orders it visits: the page is made used unless it is occupied, and the live pages follow
   `MarkedLive`.
   */
  lemma {:induction false} MarkStepOk(g: Geometry, st: Store, live: set<Page>, o: nat, i: nat)
    requires Runnable(g, st) && Core(g, st.maps, live) && Lists(g, st.maps, st.lists, live, o)
    requires o <= g.top ==> i < Pages(g, o)
    ensures var (st', ok) := MarkStep(g, st, o, i);
            var live' := if o <= g.top then MarkedLive(live, Page(o, i)) else live;
            && Core(g, st'.maps, live') && Lists(g, st'.maps, st'.lists, live', o)
            && (ok <==> o <= g.top && !Occupied(live, Page(o, i))) && (!ok ==> st' == st)
    decreases g.top + 1 - o, 1
  {
    hide Bit, MarkedLive, Occupied, SetBit, Opened;
    if o <= g.top {
      MarkRuns(g, st, o, i);
      hide MarkStep;
      var s := SetOf(g, o, i);
      assert ListRule(g, st.maps, st.lists[o], live, o);
      OccupiedIffBit(g, st.maps, live, o, i);
      if st.maps[o][s].used > 0 {
        if !Bit(g, st.maps, o, i) {
          if o == g.top { UsedTopMeansLive(g, st.maps, live); }
          SplitSetHasRoom(g, st.maps, st.lists[o], live, o, i);
          SplitPageNotLive(g, st.maps, live, o, i);
          SplitNotInside(g, st.maps, live, o, i);
          SetBitOk(g, st, live, o, i, o);
          assert live - {Page(o + 1, i / WIDTH)} == live;
        } else {
          OccupiedSame(live, Page(o, i));
        }
      } else {
        MarkEmptySet(g, st, live, o, i);
      }
    }
  }

  lemma OccupiedSame(live: set<Page>, p: Page)
    requires Occupied(live, p)
    ensures MarkedLive(live, p) == live
  {
  }

  /** Marking a page of a set without used pages. */
  lemma {:induction false} MarkEmptySet(g: Geometry, st: Store, live: set<Page>, o: nat, i: nat)
    requires Runnable(g, st) && Core(g, st.maps, live) && Lists(g, st.maps, st.lists, live, o)
    requires o <= g.top && i < Pages(g, o) && st.maps[o][SetOf(g, o, i)].used == 0
    ensures var (st', ok) := MarkStep(g, st, o, i);
            var live' := MarkedLive(live, Page(o, i));
            && Core(g, st'.maps, live') && Lists(g, st'.maps, st'.lists, live', o)
            && ok && !Occupied(live, Page(o, i))
    decreases g.top + 1 - o, 0
  {
    hide Bit, MarkedLive, Occupied, MarkStep, SetBit;
    var s := SetOf(g, o, i);
    MarkRuns(g, st, o, i);
    ClearingUnusedSet(g, st.maps, o, s);
    OpenedRuns(g, st, o, s);
    var st0 := Opened(st, o, s);
    var st1 := MarkStep(g, st0, o + 1, i / WIDTH).0;
    var live1 := if o < g.top then MarkedLive(live, Page(o + 1, i / WIDTH)) else live;
    OpenedLists(g, st, live, o, s);
    OpenedListIs(st, o, s);
    hide Opened;
    if o < g.top { MarkedUp(g, st.maps, live, o, i); } else { MarkedTop(g, st.maps, live, i); }
    MarkStepOk(g, st0, live, o + 1, i / WIDTH);
    MarkRuns(g, st0, o + 1, i / WIDTH);
    OccupiedIffBit(g, st.maps, live, o, i);
    SameOrderBits(g, st.maps, st1.maps, o, i);
    assert ListRule(g, st.maps, st.lists[o], live, o);
    OpenedList(g, st.maps, st1.maps, st.lists[o], live, o, s);
    SetBitOk(g, st1, live1, o, i, o);
  }

  lemma OpenedListIs(st: Store, o: nat, s: nat)
    requires o < |st.maps| && o < |st.lists| && s < |st.maps[o]|
    ensures Opened(st, o, s).lists[o] == Attach(st.lists[o], s)
  {
  }

  lemma OpenedLists(g: Geometry, st: Store, live: set<Page>, o: nat, s: nat)
    requires Shape(g, st.maps) && Lists(g, st.maps, st.lists, live, o) && o <= g.top && s < Sets(g, o)
        && Used(g, st.maps, o, s) == 0
    ensures var st' := Opened(st, o, s); st'.maps == st.maps && Lists(g, st'.maps, st'.lists, live, o + 1)
  {
    ClearingUnusedSet(g, st.maps, o, s);
    var st' := Opened(st, o, s);
    forall k | o + 1 <= k <= g.top ensures ListRule(g, st'.maps, st'.lists[k], live, k) {
      assert ListRule(g, st.maps, st.lists[k], live, k);
    }
  }

  lemma MarkedTop(g: Geometry, m: Maps, live: set<Page>, i: nat)
    requires Core(g, m, live) && i < Pages(g, g.top) && Used(g, m, g.top, 0) == 0
    ensures live - {Page(g.top + 1, i / WIDTH)} + {Page(g.top, i)} == MarkedLive(live, Page(g.top, i))
        && !Bit(g, m, g.top, i)
  {
    EmptyTopMeansNoLive(g, m, live);
    assert LevelShape(g, m[g.top], g.top);
  }

  lemma SameOrderBits(g: Geometry, m: Maps, m': Maps, o: nat, i: nat)
    requires Shape(g, m) && Shape(g, m') && o <= g.top && i < Pages(g, o) && m'[o] == m[o]
    ensures Bit(g, m', o, i) <==> Bit(g, m, o, i)
    ensures SetOf(g, o, i) < Sets(g, o) && BitOf(g, o, i) < SetSize(g, o)
        && Used(g, m', o, SetOf(g, o, i)) == Used(g, m, o, SetOf(g, o, i))
  {
    assert LevelShape(g, m[o], o);
  }

  /** The freelist of a set that has been opened and not yet used. */
  lemma OpenedList(g: Geometry, m: Maps, m': Maps, list: seq<nat>, live: set<Page>, o: nat, s: nat)
    requires Shape(g, m) && Shape(g, m') && o <= g.top && m'[o] == m[o] && s < Sets(g, o)
    requires ListRule(g, m, list, live, o) && Used(g, m, o, s) == 0 && SetSize(g, o) > 0
    ensures ListRuleBut(g, m', Attach(list, s), o, s)
  {
    assert forall t :: 0 <= t < Sets(g, o) ==> Used(g, m', o, t) == Used(g, m, o, t);
  }

  /** An occupied page lies in no larger live page. */
  lemma OccupiedNotInside(g: Geometry, m: Maps, live: set<Page>, p: Page)
    requires Core(g, m, live) && Occupied(live, p)
    ensures !Inside(live, p)
  {
    var q :| q in live && Contains(p, q);
    forall x | x in live && x.order > p.order ensures !Contains(x, p) {
      if Contains(x, p) {
        AncestorCompose(q.index, p.order - q.order, x.order - p.order);
        LiveNotNested(g, m, live, x, q);
      }
    }
  }

  /** The pages a mark forgets: one if the page lies in a larger live page, and otherwise none. */
  lemma AroundOne(g: Geometry, m: Maps, live: set<Page>, p: Page) returns (q: Page)
    requires Core(g, m, live) && !Occupied(live, p)
    ensures Inside(live, p) ==> q in live && q.order > p.order && Contains(q, p) && Around(live, p) == {q}
    ensures !Inside(live, p) ==> Around(live, p) == {}
    ensures p !in live
  {
    assert Contains(p, p);
    q := p;
    forall x | x in live && Contains(x, p) ensures x.order > p.order { assert x.order == p.order ==> x == p; }
    if Inside(live, p) {
      q :| q in live && q.order > p.order && Contains(q, p);
      forall x | x in live && Contains(x, p) ensures x == q { AroundUnique(g, m, live, p, q, x); }
    }
  }

  lemma AroundUnique(g: Geometry, m: Maps, live: set<Page>, p: Page, q: Page, x: Page)
    requires Core(g, m, live) && q in live && x in live && Contains(q, p) && Contains(x, p)
    ensures x == q
    decreases q.order > x.order
  {
    if q.order > x.order {
      AroundUnique(g, m, live, p, x, q);
    } else {
      AncestorCompose(p.index, q.order - p.order, x.order - q.order);
      LiveNotNested(g, m, live, x, q);
    }
  }

  /** A mark adds the page to the bytes accounted for and takes the forgotten page out of what is live. */
  lemma MarkedBytes(g: Geometry, m: Maps, live: set<Page>, p: Page)
    requires Core(g, m, live) && !Occupied(live, p)
    ensures Bytes(MarkedLive(live, p)) <= Bytes(live) + OrderSize(p.order)
    ensures Bytes(MarkedLive(live, p)) == Bytes(live) + OrderSize(p.order) <==> !Inside(live, p)
  {
    var q := AroundOne(g, m, live, p);
    var rest := live - Around(live, p);
    if Inside(live, p) { BytesWithout(live, q); }
    assert live - {} == live;
    assert rest + {p} - {p} == rest;
    BytesWithout(rest + {p}, p);
  }

  /**
   Marking a page inside a larger live page: the mark is made, and the very next page of that order to be allocated is
   a sibling of it, inside the live page too.
   */
  lemma InsideThenAlloc(g: Geometry, st: Store, live: set<Page>, o: nat, i: nat)
    requires Consistent(g, st, live) && Runnable(g, st) && o <= g.top && i < Pages(g, o) && Inside(live, Page(o, i))
    ensures MarkStep(g, st, o, i).1 && Runnable(g, MarkStep(g, st, o, i).0)
    ensures var r := AllocStep(g, MarkStep(g, st, o, i).0, o);
            && r.Some?
            && exists q ::
                 q in live && q.order > o && Contains(q, Page(o, i)) && Contains(q, Page(o, r.value.1))
  {
    hide MarkStep, Bit, Core, Lists, AllocStep, TakeStep, Runnable;
    var q :| q in live && q.order > o && Contains(q, Page(o, i));
    InsideUnused(g, st, live, o, i, q);
    MarkRuns(g, st, o, i);
    MarkEmptyHead(g, st, o, i);
    var st' := MarkStep(g, st, o, i).0;
    var j := TakeStep(g, st', o).1;
    AllocFromHead(g, st', o);
    SiblingsShareAncestors(i, j, q.order - o);
  }

  lemma AllocFromHead(g: Geometry, st: Store, o: nat)
    requires Runnable(g, st) && o <= g.top && st.lists[o] != []
    ensures AllocStep(g, st, o) == Some(TakeStep(g, st, o))
  {
  }

  /** The set of a page inside a larger live page has no used page and is not listed. */
  lemma InsideUnused(g: Geometry, st: Store, live: set<Page>, o: nat, i: nat, q: Page)
    requires Consistent(g, st, live) && o <= g.top && i < Pages(g, o) && q in live && q.order > o
        && Contains(q, Page(o, i))
    ensures o < g.top && Used(g, st.maps, o, i / WIDTH) == 0 && i / WIDTH !in st.lists[o]
  {
    assert LiveRule(g, st.maps, q);
    assert LevelShape(g, st.maps[o], o) && ListRule(g, st.maps, st.lists[o], live, o);
    if Used(g, st.maps, o, i / WIDTH) > 0 { InsideUsedSet(g, st.maps, live, o, i, q); }
  }

  /** Marking a page of a set that has no used page and is not listed puts the set at the head of its list. */
  lemma MarkEmptyHead(g: Geometry, st: Store, o: nat, i: nat)
    requires Runnable(g, st) && o < g.top && i < Pages(g, o) && Used(g, st.maps, o, i / WIDTH) == 0
        && i / WIDTH !in st.lists[o]
    ensures var r := MarkStep(g, st, o, i); r.1 && r.0.lists[o] != [] && r.0.lists[o][0] == i / WIDTH
  {
    hide Bit, MarkStep;
    var s := i / WIDTH;
    MarkRuns(g, st, o, i);
    OpenedRuns(g, st, o, s);
    OpenedListIs(st, o, s);
    var st0 := Opened(st, o, s);
    var st1 := MarkStep(g, st0, o + 1, s).0;
    assert LevelShape(g, st0.maps[o], o);
    assert st1.maps[o] == st0.maps[o] && st1.lists[o] == [s] + st.lists[o];
  }
}
