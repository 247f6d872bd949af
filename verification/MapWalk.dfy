/**
 What `map_region` maps and what the hardware makes of it: a range of virtual pages as the address translation of
 section 4.3.2 of the RISC-V Privileged Architecture sees it.
 */
module MapWalk {
  import opened Common
  import PhysMap
  import opened PageTable
  import opened MapRegion
  import opened Sv39

  /** Memory whose words are the page tables `m`. */
  ghost predicate Holds(hw: Words, m: Tables, w: Owners, root: nat) {
    AllWritten(hw) && Decoded(hw) == m && Formed(m, w) && root in hw && IsRoot(w, root)
  }

  /** Flags of a page that can be read or executed. */
  predicate Usable(flags: bv8) {
    flags & 0x01 != 0 && (flags & 0x02 != 0 || flags & 0x08 != 0)
  }

  /** The hardware refuses a page that can be written but not read. */
  predicate WriteOnly(flags: bv8) {
    flags & 0x04 != 0 && flags & 0x02 == 0
  }

  /** RAM begins where a page of order `o` may begin. */
  predicate BaseSuits(g: PhysMap.Geometry, o: nat)
    requires o <= 2
  {
    g.base % (if o == 0 then 4096 else if o == 1 then 0x20_0000 else 0x4000_0000) == 0
  }

  /** A physical page is aligned to its own size exactly if the base of RAM is. */
  lemma AlignedIff(g: PhysMap.Geometry, p: Piece)
    requires p.order <= 2 && Starts(g, p) && g.base % 4096 == 0
    ensures p.page % Span(p.order) == 0 <==> BaseSuits(g, p.order)
  {
    hide Behind, PhysMap.OrderSize;
    PhysMap.OrderSizes();
    BehindOrder(g, p);
    Multiples(g.base, p.page, Behind(g, p).index, p.order);
  }

  lemma Multiples(base: nat, page: nat, i: nat, o: nat)
    requires o <= 2 && base % 4096 == 0
    requires page * 4096 == base + i * (if o == 0 then 4096 else if o == 1 then 0x20_0000 else 0x4000_0000)
    ensures page % Span(o) == 0 <==> base % (if o == 0 then 4096 else if o == 1 then 0x20_0000 else 0x4000_0000) == 0
  {
    if o == 1 {
      Megapages(base / 4096, page, i);
    } else if o == 2 {
      Gigapages(base / 4096, page, i);
    }
  }

  lemma Megapages(q: nat, page: nat, i: nat)
    requires page == q + i * 512
    ensures page % 512 == 0 <==> (q * 4096) % 0x20_0000 == 0
  {
    var a, b := q / 512, q % 512;
    assert page == (a + i) * 512 + b;
    assert q * 4096 == a * 0x20_0000 + b * 4096;
  }

  lemma Gigapages(q: nat, page: nat, i: nat)
    requires page == q + i * 262144
    ensures page % 262144 == 0 <==> (q * 4096) % 0x4000_0000 == 0
  {
    var a, b := q / 262144, q % 262144;
    assert page == (a + i) * 262144 + b;
    assert q * 4096 == a * 0x4000_0000 + b * 4096;
  }

  lemma SmallerSuits(g: PhysMap.Geometry, o: nat, q: nat)
    requires q <= o <= 2 && BaseSuits(g, o)
    ensures BaseSuits(g, q)
  {
  }

  lemma {:induction false} FirstIsLargest(s: seq<Piece>, start: nat, v: nat, k: nat)
    requires Cut(s, start, v) && k < |s|
    ensures s[k].order <= s[0].order <= 2
  {
    assert Aligned(s[0]);
    if k > 0 { FirstIsLargest(s, start, v, k - 1); }
  }

  /** How one page of a mapped range is translated: to its target, or not at all. */
  lemma PageWalk(g: PhysMap.Geometry, hw: Words, w: Owners, m0: Tables, m: Tables, root: nat, s: seq<Piece>,
      start: nat, v: nat, end: nat, flags: bv8, x: Vpn) returns (k: nat)
    requires Holds(hw, m, w, root) && Usable(flags) && g.base % 4096 == 0
    requires Progress(m0, m, root, s, start, v, end, flags) && Backed(g, s) && start <= x < v
    ensures k < |s| && s[k].v <= x < s[k].v + Span(s[k].order) && s[k].order <= 2
    ensures Target(m, root, x).Some?
    ensures Walk(hw, root, x, 2) == if BaseSuits(g, s[k].order) && !WriteOnly(flags)
              then Hw(Target(m, root, x).value, s[k].order, flags) else Fault
  {
    hide Walk, Formed, Decoded, AllWritten, Find, Backed, Starts, BaseSuits;
    k := RangeTranslates(m0, m, root, s, start, v, end, flags, x);
    assert Aligned(s[k]);
    assert Starts(g, s[k]) by { PieceStarts(g, s, k); }
    AlignedIff(g, s[k]);
    TranslationAgrees(hw, w, root, x);
  }

  lemma PieceStarts(g: PhysMap.Geometry, s: seq<Piece>, k: nat)
    requires Backed(g, s) && k < |s|
    ensures Starts(g, s[k])
  {
  }

  /**
   The hardware translates every page of a mapped range exactly if RAM begins at a multiple of the largest page in it
   and the pages are not write-only. Whatever it translates, it takes to where the kernel's entries lead.
   */
  lemma RangeWalk(g: PhysMap.Geometry, hw: Words, w: Owners, m0: Tables, m: Tables, root: nat, s: seq<Piece>,
      start: nat, v: nat, end: nat, flags: bv8)
    requires Holds(hw, m, w, root) && Usable(flags) && g.base % 4096 == 0 && v <= 134217728
    requires Progress(m0, m, root, s, start, v, end, flags) && Backed(g, s)
    ensures s != [] ==> s[0].order <= 2
    ensures (forall x: Vpn :: start <= x < v ==> Walk(hw, root, x, 2).Hw?) <==>
            s == [] || (BaseSuits(g, s[0].order) && !WriteOnly(flags))
    ensures forall x: Vpn :: start <= x < v && Walk(hw, root, x, 2).Hw? ==>
              Target(m, root, x) == Some(Walk(hw, root, x, 2).page)
  {
    hide Walk, Holds, Backed, BaseSuits, Target, Find;
    forall x: Vpn | start <= x < v
      ensures s != [] && s[0].order <= 2
      ensures BaseSuits(g, s[0].order) && !WriteOnly(flags) ==> Walk(hw, root, x, 2).Hw?
      ensures Walk(hw, root, x, 2).Hw? ==> Target(m, root, x) == Some(Walk(hw, root, x, 2).page) && !WriteOnly(flags)
    {
      var k := PageWalk(g, hw, w, m0, m, root, s, start, v, end, flags, x);
      FirstIsLargest(s, start, v, k);
      if BaseSuits(g, s[0].order) { SmallerSuits(g, s[0].order, s[k].order); }
    }
    if s != [] {
      CutBounds(s, start, v, 0);
      assert Aligned(s[0]);
      var k := PageWalk(g, hw, w, m0, m, root, s, start, v, end, flags, start);
      if k > 0 { CutOrder(s, start, v, 0, k); }
    }
  }
}
