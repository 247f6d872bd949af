/**
 The freelists of the physical page allocator as the `next`, `prev` and `head` pointers of src/pmem.c. Every call of
 `__alloc_page` and `__mark_used` treats the pointers as the lists of PhysStep; a call of `__free_page` does so exactly
 unless one of the sets it clears a bit of is the tail of a longer list.
 */
module PhysLinks {
  import opened Common
  import opened BitScan
  import opened FreeList
  import opened PhysMap
  import opened PhysStep

  /** Bitmap nodes, and the list pointers of each order. */
  datatype Nodes = Nodes(maps: Maps, links: seq<Links>)

  /** The pointers spell the lists. */
  ghost predicate Spells(n: Nodes, st: Store) {
    && n.maps == st.maps && |n.links| == |st.lists|
    && forall o :: 0 <= o < |n.links| ==> Represents(n.links[o], st.lists[o])
  }

  /** `__attach_set` would be called for the tail of a list of two or more sets. */
  ghost predicate IsTail(list: seq<nat>, s: nat) {
    |list| >= 2 && list[|list| - 1] == s
  }

  /** Attaching a listed tail and detaching it again leaves a list without end. */
  lemma ReattachedTail(l: Links, xs: seq<nat>)
    requires Represents(l, xs) && |xs| >= 2
    ensures var s := xs[|xs| - 1];
            var l' := DetachLiteral(AttachLiteral(l, s), s);
            !Represents(l', Detach(xs, s)) && xs[|xs| - 2] in l'.next && l'.next[xs[|xs| - 2]] == xs[0]
  {
    var s := xs[|xs| - 1];
    var l' := DetachLiteral(AttachLiteral(l, s), s);
    assert NextOk(l.next, xs, |xs| - 1) && PrevOk(l.prev, xs, |xs| - 1) && NextOk(l.next, xs, |xs| - 2);
    DetachAt(xs, |xs| - 1);
    var ys := Detach(xs, s);
    assert ys[|ys| - 1] == xs[|xs| - 2] && !NextOk(l'.next, ys, |ys| - 1);
  }

  /** A set is attached and, if `empty`, detached again: the pointer code is right exactly if the set was not a tail. */
  lemma ClearedListIff(l: Links, xs: seq<nat>, s: nat, empty: bool)
    requires Represents(l, xs)
    ensures var l1 := AttachLiteral(l, s);
            Represents(if empty then DetachLiteral(l1, s) else l1, if empty then Detach(Attach(xs, s), s)
                else Attach(xs, s))
            <==> !IsTail(xs, s)
  {
    AttachLiteralCorrectIff(l, xs, s);
    if empty {
      if IsTail(xs, s) {
        ReattachedTail(l, xs);
      } else {
        var ys := Attach(xs, s);
        var k :| 0 <= k < |ys| && ys[k] == s;
        DetachLiteralCorrect(AttachLiteral(l, s), ys, k);
      }
    }
  }

  lemma {:induction false} DetachAbsent(xs: seq<nat>, s: nat)
    requires s !in xs
    ensures Detach(xs, s) == xs
  {
    if xs != [] { DetachAbsent(xs[1..], s); }
  }

  lemma DetachAgrees(l: Links, xs: seq<nat>, s: nat)
    requires Represents(l, xs)
    ensures Represents(DetachLiteral(l, s), Detach(xs, s))
  {
    hide Detach, DetachLiteral, Represents;
    if s in xs {
      var k :| 0 <= k < |xs| && xs[k] == s;
      DetachLiteralCorrect(l, xs, k);
    } else {
      DetachAbsent(xs, s);
      DetachUnlinked(l, xs, s);
    }
  }

  lemma DetachUnlinked(l: Links, xs: seq<nat>, s: nat)
    requires Represents(l, xs) && s !in xs
    ensures DetachLiteral(l, s) == l
  {
  }

  // ------------------------------------------------------------------ freeing

  /** `__free_page` on the pointers. */
  ghost function FreeLinks(g: Geometry, n: Nodes, o: nat, i: nat): (r: Nodes)
    requires Shape(g, n.maps) && |n.links| == g.top + 1
    ensures Shape(g, r.maps) && |r.links| == g.top + 1 && forall k :: 0 <= k < o && k <= g.top ==>
        r.links[k] == n.links[k]
    decreases g.top + 1 - o
  {
    if o > g.top || i >= Pages(g, o) || !Bit(g, n.maps, o, i) then n
    else
      PutEffect(g, n.maps, o, i, false);
      var s := SetOf(g, o, i);
      var n' := ClearedNode(n, o, s, BitOf(g, o, i));
      if n'.maps[o][s].used == 0 && |n'.maps[o][s].bits| == OrderWidth(g, o + 1) then FreeLinks(g, n', o + 1,
          i / WIDTH) else n'
  }

  /** Lines 236-243 on the pointers. */
  function ClearedNode(n: Nodes, o: nat, s: nat, b: nat): Nodes
    requires o < |n.maps| && o < |n.links| && s < |n.maps[o]| && b < |n.maps[o][s].bits| && n.maps[o][s].used > 0
  {
    var m := Put(n.maps, o, s, b, false);
    var l := AttachLiteral(n.links[o], s);
    Nodes(m, n.links[o := if m[o][s].used == 0 then DetachLiteral(l, s) else l])
  }

  /**
   Freeing page `i` of order `o` attaches the tail of a list of two or more sets: the page's own set, or, as the set
   has no other used page and is merged, one that the free comes to further up.
   */
  ghost predicate HitsTail(g: Geometry, st: Store, o: nat, i: nat)
    requires Shape(g, st.maps) && |st.lists| == g.top + 1
    decreases g.top + 1 - o
  {
    && o <= g.top && i < Pages(g, o) && Bit(g, st.maps, o, i)
    && (IsTail(st.lists[o], SetOf(g, o, i)) || (o < g.top && Used(g, st.maps, o, i / WIDTH) == 1
        && HitsTail(g, st, o + 1, i / WIDTH)))
  }

  /** From order `o` on, the pointers spell the lists. */
  ghost predicate SpellsFrom(n: Nodes, st: Store, o: nat) {
    && n.maps == st.maps && |n.links| == |st.lists|
    && forall k :: o <= k < |n.links| ==> Represents(n.links[k], st.lists[k])
  }

  lemma {:induction false} HitsAbove(g: Geometry, st: Store, st': Store, o: nat, i: nat)
    requires Shape(g, st.maps) && |st.lists| == g.top + 1 && Shape(g, st'.maps) && |st'.lists| == g.top + 1
    requires forall k :: o <= k <= g.top ==> st'.maps[k] == st.maps[k] && st'.lists[k] == st.lists[k]
    ensures HitsTail(g, st', o, i) == HitsTail(g, st, o, i)
    decreases g.top + 1 - o
  {
    if o <= g.top && i < Pages(g, o) {
      assert LevelShape(g, st.maps[o], o);
      HitsAbove(g, st, st', o + 1, i / WIDTH);
    }
  }

  lemma {:induction false} FreeFromIff(g: Geometry, n: Nodes, st: Store, o: nat, i: nat)
    requires g.Valid() && Shape(g, st.maps) && |st.lists| == g.top + 1 && SpellsFrom(n, st, o)
    ensures FreeLinks(g, n, o, i).maps == FreeStep(g, st, o, i).maps
    ensures SpellsFrom(FreeLinks(g, n, o, i), FreeStep(g, st, o, i), o) <==> !HitsTail(g, st, o, i)
    decreases g.top + 1 - o
  {
    hide Represents, ClearedBit, ClearedNode, FreeStep, FreeLinks;
    if o <= g.top && i < Pages(g, o) && Bit(g, st.maps, o, i) {
      var s, b := SetOf(g, o, i), BitOf(g, o, i);
      FreeUnfolds(g, st, o, i);
      LinksUnfold(g, n, o, i);
      var st1, n1 := ClearedBit(st, o, s, b), ClearedNode(n, o, s, b);
      OneFree(g, n, st, o, i);
      if o < g.top && st1.maps[o][s].used == 0 {
        FreeFromIff(g, n1, st1, o + 1, s);
        HitsAbove(g, st, st1, o + 1, s);
        SpellsNext(FreeLinks(g, n1, o + 1, s), FreeStep(g, st1, o + 1, s), o);
      } else {
        SpellsNext(n1, st1, o);
      }
    } else {
      NothingFreed(g, n, st, o, i);
    }
  }

  lemma NothingFreed(g: Geometry, n: Nodes, st: Store, o: nat, i: nat)
    requires Shape(g, st.maps) && |st.lists| == g.top + 1 && n.maps == st.maps && |n.links| == g.top + 1
    requires !(o <= g.top && i < Pages(g, o) && Bit(g, st.maps, o, i))
    ensures FreeStep(g, st, o, i) == st && FreeLinks(g, n, o, i) == n
  {
  }

  lemma SpellsNext(n: Nodes, st: Store, o: nat)
    requires n.maps == st.maps && |n.links| == |st.lists| && o < |n.links|
    ensures SpellsFrom(n, st, o) <==> Represents(n.links[o], st.lists[o]) && SpellsFrom(n, st, o + 1)
  {
  }

  lemma LinksUnfold(g: Geometry, n: Nodes, o: nat, i: nat)
    requires g.Valid() && Shape(g, n.maps) && |n.links| == g.top + 1 && o <= g.top && i < Pages(g, o)
        && Bit(g, n.maps, o, i)
    ensures SetOf(g, o, i) < Sets(g, o) && BitOf(g, o, i) < SetSize(g, o) && n.maps[o][SetOf(g, o, i)].used > 0
    ensures var s := SetOf(g, o, i);
            var n' := ClearedNode(n, o, s, BitOf(g, o, i));
            && Shape(g, n'.maps)
            && FreeLinks(g, n, o, i) == if o < g.top && n'.maps[o][s].used == 0 then FreeLinks(g, n', o + 1, s) else n'
  {
    PutEffect(g, n.maps, o, i, false);
    assert LevelShape(g, ClearedNode(n, o, SetOf(g, o, i), BitOf(g, o, i)).maps[o], o);
  }

  /** One order of a free on lists and pointers. */
  lemma OneFree(g: Geometry, n: Nodes, st: Store, o: nat, i: nat)
    requires Shape(g, st.maps) && |st.lists| == g.top + 1 && SpellsFrom(n, st, o) && o <= g.top && i < Pages(g, o)
    requires SetOf(g, o, i) < Sets(g, o) && BitOf(g, o, i) < SetSize(g, o) && st.maps[o][SetOf(g, o, i)].used > 0
    ensures var s, b := SetOf(g, o, i), BitOf(g, o, i);
            var st1, n1 := ClearedBit(st, o, s, b), ClearedNode(n, o, s, b);
            && n1.maps == st1.maps && |st1.lists| == |st.lists| && |n1.links| == |n.links| && SpellsFrom(n1, st1, o + 1)
            && (st1.maps[o][s].used == 0 <==> Used(g, st.maps, o, s) == 1)
            && (Represents(n1.links[o], st1.lists[o]) <==> !IsTail(st.lists[o], s))
            && forall k :: o < k <= g.top ==> st1.maps[k] == st.maps[k] && st1.lists[k] == st.lists[k]
  {
    hide Represents, Attach, Detach, AttachLiteral, DetachLiteral, IsTail;
    ClearedListIff(n.links[o], st.lists[o], SetOf(g, o, i), st.maps[o][SetOf(g, o, i)].used == 1);
  }

  /** `__free_page` as written keeps the lists exactly if it attaches no tail of a longer list. */
  lemma FreeAgreesIff(g: Geometry, n: Nodes, st: Store, o: nat, i: nat)
    requires g.Valid() && Shape(g, st.maps) && |st.lists| == g.top + 1 && Spells(n, st)
    ensures Spells(FreeLinks(g, n, o, i), FreeStep(g, st, o, i)) <==> !HitsTail(g, st, o, i)
  {
    hide Represents;
    FreeFromIff(g, n, st, o, i);
    var n', st' := FreeLinks(g, n, o, i), FreeStep(g, st, o, i);
    assert Spells(n', st') <==> SpellsFrom(n', st', o);
  }

  /** It happens: whenever two sets of the lowest order are listed, some live page of the last one hits the tail. */
  lemma TailInUse(g: Geometry, st: Store, live: set<Page>)
    requires Consistent(g, st, live) && g.top > 0 && |st.lists[0]| >= 2
    ensures exists i :: Page(0, i) in live && HitsTail(g, st, 0, i)
  {
    var s := st.lists[0][|st.lists[0]| - 1];
    assert ListRule(g, st.maps, st.lists[0], live, 0) && s in st.lists[0];
    var i := SetBitIn(g, st.maps, 0, s);
    assert BitRule(g, st.maps, live, 0, i);
    assert Page(0, i) in live && HitsTail(g, st, 0, i);
  }

  // ------------------------------------------------------- after a missed tail

  /** From the head, `next` runs through `ys` and back to the head, and `prev` the other way. */
  ghost predicate Ring(l: Links, ys: seq<nat>) {
    && Distinct(ys) && ys != [] && l.head == Some(ys[0])
    && forall i :: 0 <= i < |ys| ==> RingNext(l, ys, i) && RingPrev(l, ys, i)
  }

  ghost predicate RingNext(l: Links, ys: seq<nat>, i: nat)
    requires i < |ys|
  {
    ys[i] in l.next && l.next[ys[i]] == ys[if i + 1 < |ys| then i + 1 else 0]
  }

  ghost predicate RingPrev(l: Links, ys: seq<nat>, i: nat)
    requires i < |ys|
  {
    ys[i] in l.prev && l.prev[ys[i]] == ys[if i > 0 then i - 1 else |ys| - 1]
  }

  /** Attaching a listed tail closes the list to a ring, with the tail at its head. */
  lemma TailMakesRing(l: Links, xs: seq<nat>)
    requires Represents(l, xs) && |xs| >= 2
    ensures Ring(AttachLiteral(l, xs[|xs| - 1]), [xs[|xs| - 1]] + xs[..|xs| - 1])
  {
    var n := |xs| - 1;
    var l', ys := AttachLiteral(l, xs[n]), [xs[n]] + xs[..n];
    assert NextOk(l.next, xs, n) && PrevOk(l.prev, xs, n);
    forall i | 0 <= i < |ys| ensures RingNext(l', ys, i) && RingPrev(l', ys, i) {
      if i > 0 { assert NextOk(l.next, xs, i - 1) && PrevOk(l.prev, xs, i - 1); }
    }
  }

  /** Detaching the head of a ring leaves a ring. */
  lemma RingShrinks(l: Links, ys: seq<nat>)
    requires Ring(l, ys) && |ys| >= 2
    ensures Ring(DetachLiteral(l, ys[0]), ys[1..])
  {
    var l', zs, n := DetachLiteral(l, ys[0]), ys[1..], |ys|;
    assert RingNext(l, ys, 0) && RingPrev(l, ys, 0);
    forall i | 0 <= i < |zs| ensures RingNext(l', zs, i) && RingPrev(l', zs, i) {
      assert RingNext(l, ys, i + 1) && RingPrev(l, ys, i + 1);
    }
  }

  /** The head is detached `k` times over, as allocations do that fill one set after the other. */
  ghost function Drained(l: Links, k: nat): Links
    decreases k
  {
    if k == 0 || l.head.None? then l else Drained(DetachLiteral(l, l.head.value), k - 1)
  }

  /** A ring is never drained: its last set stays at the head. */
  lemma {:induction false} RingStays(l: Links, ys: seq<nat>)
    requires Ring(l, ys)
    ensures Drained(l, |ys|).head == Some(ys[|ys| - 1])
    decreases |ys|
  {
    if |ys| == 1 {
      assert RingNext(l, ys, 0) && RingPrev(l, ys, 0);
      assert Drained(l, 1) == DetachLiteral(l, ys[0]);
    } else {
      RingShrinks(l, ys);
      RingStays(DetachLiteral(l, ys[0]), ys[1..]);
    }
  }

  /**
   In a full set `bitmap_find_first` gives a bit behind the set: the address is that of the second page of the next
   set.
   */
  lemma FullSetOverruns(g: Geometry, o: nat, s: nat, bits: seq<bool>)
    requires g.Valid() && o < g.top && |bits| == WIDTH && forall b :: 0 <= b < |bits| ==> bits[b]
    ensures PageAddr(g, o, s, Find(bits, false)) == Start(g, Page(o, (s + 1) * WIDTH + 1))
  {
    assert Find(bits, false) == WIDTH + 1;
    Regroup(s, OrderSize(o), WIDTH + 1);
    assert s * WIDTH + (WIDTH + 1) == (s + 1) * WIDTH + 1;
  }

  /**
   What a free that runs into a missed tail leads to, once all sets of the list have been filled: the next allocation
   takes the set at the head, which is full, and hands out a page of the set behind it. If that one was listed too,
   the page is in use.
   */
  lemma HandsOutUsedPage(g: Geometry, m: Maps, o: nat, l: Links, xs: seq<nat>)
    requires g.Valid() && Shape(g, m) && o < g.top && Represents(l, xs) && |xs| >= 2
    requires forall s :: s in xs ==> s < Sets(g, o) && Used(g, m, o, s) == WIDTH
    ensures var s, head := xs[|xs| - 2], Drained(AttachLiteral(l, xs[|xs| - 1]), |xs|).head;
            && head == Some(s) && s < |m[o]|
            && PageAddr(g, o, s, Find(m[o][s].bits, false)) == Start(g, Page(o, (s + 1) * WIDTH + 1))
            && (s + 1 in xs ==> (s + 1) * WIDTH + 1 < Pages(g, o) && Bit(g, m, o, (s + 1) * WIDTH + 1))
  {
    hide Represents, Drained, AttachLiteral, Ring, Bit, PageAddr, Start;
    var n := |xs| - 1;
    var s := xs[n - 1];
    assert s in xs;
    FullBits(g, m, o, s);
    TailMakesRing(l, xs);
    var ys := [xs[n]] + xs[..n];
    RingStays(AttachLiteral(l, xs[n]), ys);
    assert |ys| == |xs| && ys[n] == s;
    FullSetOverruns(g, o, s, m[o][s].bits);
    if s + 1 in xs { NextSetBit(g, m, o, s + 1); }
  }

  lemma FullBits(g: Geometry, m: Maps, o: nat, s: nat)
    requires Shape(g, m) && o < g.top && s < Sets(g, o) && Used(g, m, o, s) == WIDTH
    ensures s < |m[o]| && |m[o][s].bits| == WIDTH && forall b :: 0 <= b < WIDTH ==> m[o][s].bits[b]
  {
    assert LevelShape(g, m[o], o);
  }

  lemma NextSetBit(g: Geometry, m: Maps, o: nat, s: nat)
    requires g.Valid() && Shape(g, m) && o < g.top && s < Sets(g, o) && Used(g, m, o, s) == WIDTH
    ensures s * WIDTH + 1 < Pages(g, o) && Bit(g, m, o, s * WIDTH + 1)
  {
    assert LevelShape(g, m[o], o);
    PageAddrCorrect(g, o, s, 1);
  }

  // ------------------------------------------------------- allocating and marking

  /** Lines 290-297 and 341-345 on the pointers. */
  function SetNode(n: Nodes, o: nat, s: nat, b: nat): Nodes
    requires o < |n.maps| && o < |n.links| && s < |n.maps[o]| && b < |n.maps[o][s].bits|
  {
    var m := Put(n.maps, o, s, b, true);
    Nodes(m, if m[o][s].used == |m[o][s].bits| then n.links[o := DetachLiteral(n.links[o], s)] else n.links)
  }

  /** A set is cleared and attached; `__alloc_page` forgets its pointers first. */
  function OpenedNode(n: Nodes, o: nat, s: nat, forget: bool): Nodes
    requires o < |n.maps| && o < |n.links| && s < |n.maps[o]|
  {
    var l := if forget then n.links[o].(next := n.links[o].next - {s}, prev := n.links[o].prev - {s}) else n.links[o];
    Nodes(n.maps[o := n.maps[o][s := Bitmap(Zeros(|n.maps[o][s].bits|), 0)]], n.links[o := AttachLiteral(l, s)])
  }

  lemma SetAgrees(n: Nodes, st: Store, o: nat, s: nat, b: nat)
    requires Spells(n, st) && o < |st.maps| && o < |st.lists| && s < |st.maps[o]| && b < |st.maps[o][s].bits|
    ensures Spells(SetNode(n, o, s, b), SetBit(st, o, s, b))
  {
    hide Represents, DetachLiteral, Detach;
    DetachAgrees(n.links[o], st.lists[o], s);
  }

  /** Opening a set that is no tail of a longer list, and not listed at all if its pointers are forgotten. */
  lemma OpenedAgrees(n: Nodes, st: Store, o: nat, s: nat, forget: bool)
    requires Spells(n, st) && o < |st.maps| && o < |st.lists| && s < |st.maps[o]|
    requires !IsTail(st.lists[o], s) && (forget ==> s !in st.lists[o])
    ensures Spells(OpenedNode(n, o, s, forget), Opened(st, o, s))
  {
    hide Represents, AttachLiteral, Attach;
    if forget { ForgetUnlinked(n.links[o], st.lists[o], s); }
    AttachLiteralCorrectIff(n.links[o], st.lists[o], s);
  }

  lemma ForgetUnlinked(l: Links, xs: seq<nat>, s: nat)
    requires Represents(l, xs) && s !in xs
    ensures l.(next := l.next - {s}, prev := l.prev - {s}) == l
  {
  }

  /** Lines 290-299 on the pointers; a head that is no set of the bucket cannot be followed. */
  ghost function TakeLinks(g: Geometry, n: Nodes, o: nat): Option<(Nodes, nat)>
    requires o < |n.maps| && o < |n.links|
  {
    if n.links[o].head.None? || n.links[o].head.value >= |n.maps[o]| then None
    else
      var s := n.links[o].head.value;
      var b := Find(n.maps[o][s].bits, false);
      if b >= |n.maps[o][s].bits| then None else Some((SetNode(n, o, s, b), IndexOf(g, o, s, b)))
  }

  /** `__alloc_page` on the pointers. */
  ghost function AllocLinks(g: Geometry, n: Nodes, o: nat): (r: Option<(Nodes, nat)>)
    requires |n.maps| == g.top + 1 && |n.links| == g.top + 1
    ensures r.Some? ==> |r.value.0.maps| == g.top + 1 && |r.value.0.links| == g.top + 1
    decreases g.top + 1 - o
  {
    if o > g.top then None
    else if n.links[o].head.None? then
      var up := AllocLinks(g, n, o + 1);
      if up.None? || up.value.1 >= |up.value.0.maps[o]| then None
          else TakeLinks(g, OpenedNode(up.value.0, o, up.value.1, true), o)
    else TakeLinks(g, n, o)
  }

  lemma TakeAgrees(g: Geometry, n: Nodes, st: Store, o: nat)
    requires Runnable(g, st) && Spells(n, st) && o <= g.top && st.lists[o] != []
    ensures var r := TakeLinks(g, n, o);
            r.Some? && r.value.1 == TakeStep(g, st, o).1 && Spells(r.value.0, TakeStep(g, st, o).0)
  {
    hide Bit, SetNode, SetBit;
    HeadHasRoom(g, st, o);
    var s := st.lists[o][0];
    assert Represents(n.links[o], st.lists[o]) && LevelShape(g, st.maps[o], o);
    SetAgrees(n, st, o, s, Find(st.maps[o][s].bits, false));
  }

  /** `__alloc_page` as written does what it does on the lists: it attaches only sets that are not listed. */
  lemma {:induction false} AllocAgrees(g: Geometry, n: Nodes, st: Store, o: nat)
    requires Runnable(g, st) && Spells(n, st)
    ensures var r, step := AllocLinks(g, n, o), AllocStep(g, st, o);
            if step.None? then r.None? else r.Some? && r.value.1 == step.value.1 && Spells(r.value.0, step.value.0)
    decreases g.top + 1 - o
  {
    hide TakeLinks, TakeStep, OpenedNode, Opened;
    if o <= g.top {
      assert Represents(n.links[o], st.lists[o]);
      if st.lists[o] == [] {
        AllocAgrees(g, n, st, o + 1);
        var up, step := AllocLinks(g, n, o + 1), AllocStep(g, st, o + 1);
        if step.Some? {
          var (st1, j) := step.value;
          OpenedRuns(g, st1, o, j);
          SetsThere(g, st1.maps, o);
          OpenedAgrees(up.value.0, st1, o, j, true);
          TakeAgrees(g, OpenedNode(up.value.0, o, j, true), Opened(st1, o, j), o);
        }
      } else {
        TakeAgrees(g, n, st, o);
      }
    }
  }

  lemma SetsThere(g: Geometry, m: Maps, o: nat)
    requires Shape(g, m) && o <= g.top
    ensures |m[o]| == Sets(g, o)
  {
    assert LevelShape(g, m[o], o);
  }

  /** `__mark_used` on the pointers. */
  ghost function MarkLinks(g: Geometry, n: Nodes, o: nat, i: nat): (r: (Nodes, bool))
    requires |n.maps| == g.top + 1 && |n.links| == g.top + 1
    ensures |r.0.maps| == g.top + 1 && |r.0.links| == g.top + 1
    decreases g.top + 1 - o
  {
    var s, b := SetOf(g, o, i), BitOf(g, o, i);
    if o > g.top || s >= |n.maps[o]| then (n, false)
    else
      var n1 := if n.maps[o][s].used == 0 then MarkLinks(g, OpenedNode(n, o, s, false), o + 1, i / WIDTH).0 else n;
      if s >= |n1.maps[o]| || b >= |n1.maps[o][s].bits| || n1.maps[o][s].bits[b] then (n1, false)
          else (SetNode(n1, o, s, b), true)
  }

  /** From order `o` on, no set without used pages is the tail of a longer list. */
  ghost predicate NoEmptyTail(g: Geometry, st: Store, o: nat)
    requires Shape(g, st.maps) && |st.lists| == g.top + 1
  {
    forall k, s :: o <= k <= g.top && 0 <= s < Sets(g, k) && Used(g, st.maps, k, s) == 0 ==> !IsTail(st.lists[k], s)
  }

  lemma ConsistentTails(g: Geometry, st: Store, live: set<Page>)
    requires Consistent(g, st, live)
    ensures NoEmptyTail(g, st, 0)
  {
    forall k, s | 0 <= k <= g.top && 0 <= s < Sets(g, k) && Used(g, st.maps, k, s) == 0
        ensures !IsTail(st.lists[k], s) {
      assert ListRule(g, st.maps, st.lists[k], live, k);
      var xs := st.lists[k];
      assert |xs| >= 2 ==> xs[0] in xs && xs[|xs| - 1] in xs && xs[0] != xs[|xs| - 1];
    }
  }

  lemma TailsAbove(g: Geometry, st: Store, st': Store, o: nat)
    requires Shape(g, st.maps) && |st.lists| == g.top + 1 && Shape(g, st'.maps) && |st'.lists| == g.top + 1
        && NoEmptyTail(g, st, o)
    requires forall k :: 0 <= k <= g.top && k != o ==> st'.maps[k] == st.maps[k] && st'.lists[k] == st.lists[k]
    ensures NoEmptyTail(g, st', o + 1)
  {
    forall k, t | o + 1 <= k <= g.top && 0 <= t < Sets(g, k) && Used(g, st'.maps, k, t) == 0
        ensures !IsTail(st'.lists[k], t) {
      assert Used(g, st.maps, k, t) == 0;
    }
  }

  lemma {:induction false} MarkAgreesFrom(g: Geometry, n: Nodes, st: Store, o: nat, i: nat)
    requires Runnable(g, st) && Spells(n, st) && NoEmptyTail(g, st, o) && (o <= g.top ==> i < Pages(g, o))
    ensures MarkLinks(g, n, o, i).1 == MarkStep(g, st, o, i).1 && Spells(MarkLinks(g, n, o, i).0,
        MarkStep(g, st, o, i).0)
    decreases g.top + 1 - o
  {
    hide SetNode, SetBit, OpenedNode, Opened, Bit, IsTail, ListOk;
    if o <= g.top {
      var s, b := SetOf(g, o, i), BitOf(g, o, i);
      UnusedSetClear(g, st.maps, o, i);
      if st.maps[o][s].used == 0 {
        OpenedAgrees(n, st, o, s, false);
        OpenedRuns(g, st, o, s);
        var st0, n0 := Opened(st, o, s), OpenedNode(n, o, s, false);
        TailsAbove(g, st, st0, o);
        MarkAgreesFrom(g, n0, st0, o + 1, i / WIDTH);
        MarkRuns(g, st0, o + 1, i / WIDTH);
        var st1 := MarkStep(g, st0, o + 1, i / WIDTH).0;
        UnusedSetClear(g, st0.maps, o, i);
        assert st1.maps[o] == st0.maps[o];
        SetAgrees(MarkLinks(g, n0, o + 1, i / WIDTH).0, st1, o, s, b);
      } else if !Bit(g, st.maps, o, i) {
        SetAgrees(n, st, o, s, b);
      }
    }
  }

  /** `__mark_used` as written does what it does on the lists: it attaches only sets without used pages. */
  lemma MarkAgrees(g: Geometry, n: Nodes, st: Store, live: set<Page>, o: nat, i: nat)
    requires Consistent(g, st, live) && Runnable(g, st) && Spells(n, st) && (o <= g.top ==> i < Pages(g, o))
    ensures MarkLinks(g, n, o, i).1 == MarkStep(g, st, o, i).1 && Spells(MarkLinks(g, n, o, i).0,
        MarkStep(g, st, o, i).0)
  {
    ConsistentTails(g, st, live);
    assert NoEmptyTail(g, st, o);
    MarkAgreesFrom(g, n, st, o, i);
  }
}
