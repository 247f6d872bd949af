/**
 `map_region` and `unmap_region` of src/regions.c: backing a range of virtual pages with physical pages
 of falling order, and giving every one of them back.
 */
module MapRegion {
  import opened Common
  import PhysMap
  import PhysMem
  import PhysStep
  import opened PageTable
  import opened Vmem
  import Spaces

  const BASE := 4096

  /** A page of the range: virtual page number, order, and the physical page behind it. */
  datatype Piece = Piece(v: nat, order: nat, page: nat)

  ghost predicate Aligned(p: Piece) {
    p.order <= 2 && p.v % Span(p.order) == 0 && p.v + Span(p.order) <= 134217728
  }

  /** `s` cuts the pages from `start` to `end` into aligned pieces of non-increasing order. */
  ghost predicate Cut(s: seq<Piece>, start: nat, end: nat) {
    && (forall k :: 0 <= k < |s| ==> Aligned(s[k]))
    && (forall k :: 0 < k < |s| ==> s[k - 1].v + Span(s[k - 1].order) == s[k].v && s[k].order <= s[k - 1].order)
    && (if s == [] then start == end else s[0].v == start && s[|s| - 1].v + Span(s[|s| - 1].order) == end)
  }

  /** Every page of `p` leads to the physical page behind it. */
  ghost predicate Leads(m: Tables, root: nat, p: Piece, flags: bv8) {
    forall x: Vpn :: p.v <= x < p.v + Span(p.order) ==> Find(m, root, x) == Some(Hit(p.page, p.order, flags))
  }

  /** Nothing is mapped between `a` and `b`. */
  ghost predicate Bare(m: Tables, root: nat, a: nat, b: nat) {
    forall x: Vpn :: a <= x < b ==> Find(m, root, x) == None
  }

  /** Outside `a` to `b` the address space is as before. */
  ghost predicate SameOutside(m: Tables, m': Tables, root: nat, a: nat, b: nat) {
    forall x: Vpn :: !(a <= x < b) ==> Find(m', root, x) == Find(m, root, x)
  }

  lemma PageRange(p: Piece, x: Vpn)
    requires Aligned(p) && p.v < 134217728
    ensures SamePage(p.v, x, p.order) <==> p.v <= x < p.v + Span(p.order)
  {
  }

  /** The pieces of a cut lie one behind the other. */
  lemma {:induction false} CutOrder(s: seq<Piece>, start: nat, end: nat, i: nat, j: nat)
    requires Cut(s, start, end) && i < j < |s|
    ensures s[i].v + Span(s[i].order) <= s[j].v
    decreases j
  {
    if i < j - 1 {
      CutOrder(s, start, end, i, j - 1);
    }
  }

  lemma {:induction false} CutBounds(s: seq<Piece>, start: nat, end: nat, k: nat)
    requires Cut(s, start, end) && k < |s|
    ensures start <= s[k].v && s[k].v + Span(s[k].order) <= end
  {
    if k > 0 { CutOrder(s, start, end, 0, k); }
    if k < |s| - 1 { CutOrder(s, start, end, k, |s| - 1); }
  }

  // ------------------------------------------------------------- physical pages

  /** The page of the physical allocator behind a piece. */
  ghost function Behind(g: PhysMap.Geometry, p: Piece): PhysMap.Page {
    PhysMap.Page(p.order, if p.page * BASE >= g.base then PhysMap.PageAt(g, p.order, p.page * BASE) else 0)
  }

  ghost function AllBehind(g: PhysMap.Geometry, s: seq<Piece>): set<PhysMap.Page> {
    set k | 0 <= k < |s| :: Behind(g, s[k])
  }

  /** The physical page of a piece is where the page of its order behind it starts. */
  ghost predicate Starts(g: PhysMap.Geometry, p: Piece) {
    p.page * BASE >= g.base && p.order <= g.top && p.page * BASE == PhysMap.Start(g, Behind(g, p))
  }

  /** Every piece has a physical page of its own. */
  ghost predicate Backed(g: PhysMap.Geometry, s: seq<Piece>) {
    && (forall k :: 0 <= k < |s| ==> Starts(g, s[k]))
    && (forall i, j :: 0 <= i < j < |s| ==> Behind(g, s[i]) != Behind(g, s[j]))
  }

  lemma {:induction false} WholePages(o: nat)
    ensures PhysMap.OrderSize(o) % BASE == 0
  {
    if o > 0 { WholePages(o - 1); }
  }

  /** Physical addresses of pages are multiples of the base page size when RAM starts at one. */
  lemma PageAligned(g: PhysMap.Geometry, p: PhysMap.Page)
    requires g.base % BASE == 0
    ensures PhysMap.Start(g, p) % BASE == 0
  {
    WholePages(p.order);
    var q := PhysMap.OrderSize(p.order) / BASE;
    assert p.index * PhysMap.OrderSize(p.order) == (p.index * q) * BASE;
  }

  lemma NewPiece(g: PhysMap.Geometry, o: nat, a: nat, before: set<PhysMap.Page>, after: set<PhysMap.Page>, v: nat)
    requires g.base % BASE == 0 && PhysMem.HandedOut(g, o, a, before, after)
    ensures a / BASE * BASE == a >= g.base && o <= g.top
    ensures var p := Piece(v, o, a / BASE);
            Starts(g, p) && Behind(g, p) !in before && after == before + {Behind(g, p)}
                && PhysMem.HandedOut(g, o, p.page * BASE, before, after)
  {
    PageAligned(g, PhysMap.Page(o, PhysMap.PageAt(g, o, a)));
  }

  /** What an attempt to map one page finds: page tables, pages for tables, and the pages of the physical allocator. */
  datatype Scene = Scene(tables: Tables, avail: seq<nat>, live: set<PhysMap.Page>, stuck: bool)

  ghost function SceneOf(pm: PhysMem.Pmap, pt: PageTables): Scene
    reads pm, pt
  {
    Scene(pt.tables, pt.avail, pm.live, pm.Stuck())
  }

  /** No page of order `o` can be had. */
  ghost predicate NoPage(g: PhysMap.Geometry, a: Scene, o: nat) {
    PhysMap.AllBlocked(g, a.live, o) || a.stuck
  }

  /** A page of order `o` cannot be mapped at `v`: there is none, the entry is taken, or tables cannot be made. */
  ghost predicate Hindered(g: PhysMap.Geometry, a: Scene, root: nat, v: Vpn, o: nat)
    requires o <= 2
  {
    NoPage(g, a, o) || Taken(a.tables, root, v, o) || Missing(a.tables, root, v, 2, o) > |a.avail|
  }

  /**
   An attempt to map a page of order `order` at `at`: what it found, the page it mapped or those it lost, and what it
   left.
   */
  datatype Try = Try(at: nat, order: nat, before: Scene, page: Option<nat>, lost: set<PhysMap.Page>, after: Scene)

  /**
   What an attempt does, exactly: it fails if it is hindered, and the missing tables are made as far as there are
   pages. A page that was had and could not be mapped is lost; without a page nothing happens.
   */
  ghost predicate Tried(g: PhysMap.Geometry, root: nat, flags: bv8, t: Try) {
    && t.order <= 2 && t.at < 134217728 && Drawn(t.before.tables, t.before.avail, t.after.tables, t.after.avail)
    && (t.page.None? <==> Hindered(g, t.before, root, t.at, t.order))
    && (t.lost == {} <==> t.page.Some? || NoPage(g, t.before, t.order))
    && (NoPage(g, t.before, t.order) ==> t.after == t.before)
    && (!NoPage(g, t.before, t.order) ==> |t.after.avail| == Left(t.before, root, t.at, t.order))
    && (if t.page.Some? then Placed(g, root, flags, t) else Failed(g, root, t))
  }

  /** The pages for tables that are left once the missing ones are made. */
  ghost function Left(a: Scene, root: nat, v: Vpn, o: nat): nat
    requires o <= 2
  {
    var lack := Missing(a.tables, root, v, 2, o);
    if lack > |a.avail| then 0 else |a.avail| - lack
  }

  /** One new page is live, and behind the page at `at`; nothing else is mapped or unmapped. */
  ghost predicate Placed(g: PhysMap.Geometry, root: nat, flags: bv8, t: Try)
    requires t.page.Some? && t.at < 134217728
  {
    var p := Piece(t.at, t.order, t.page.value);
    && Starts(g, p)
    && Behind(g, p) !in t.before.live && t.after.live == t.before.live + {Behind(g, p)}
    && (forall x: Vpn :: SamePage(t.at, x, t.order) ==> Find(t.before.tables, root, x) == None)
    && forall x: Vpn :: Find(t.after.tables, root, x) ==
         if SamePage(t.at, x, t.order) then Some(Hit(p.page, t.order, flags)) else Find(t.before.tables, root, x)
  }

  ghost predicate Failed(g: PhysMap.Geometry, root: nat, t: Try) {
    && t.lost !! t.before.live && t.after.live == t.before.live + t.lost && |t.lost| <= 1
        && (forall p :: p in t.lost ==> p.order == t.order)
    && forall x: Vpn :: Find(t.after.tables, root, x) == Find(t.before.tables, root, x)
  }

  /** Lines 683-689: one physical page, mapped; if the mapping fails, the page is lost. */
  method MapOne(pm: PhysMem.Pmap, pt: PageTables, root: nat, v: Vpn, order: nat, flags: bv8)
    returns (r: Option<nat>, ghost lost: set<PhysMap.Page>)
    requires pm.Valid() && pm.g.base % BASE == 0 && pt.Valid() && root in pt.tables && MayMap(pt.own, root, v)
    requires order <= 2 && Find(pt.tables, root, v) == None && flags & 1 == 1
    modifies pm, pt
    ensures pm.Valid() && pt.Valid() && root in pt.tables && Extends(old(pt.own), pt.own)
    ensures Tried(pm.g, root, flags | 0xC0, Try(v, order, old(SceneOf(pm, pt)), r, lost, SceneOf(pm, pt)))
    ensures r.None? && order == 0 ==>
              PhysMap.AllBlocked(pm.g, pm.live, 0) || pm.Stuck() || Missing(pt.tables, root, v, 2, 0) > |pt.avail|
  {
    hide Formed, Extends, OtherTops, PhysMem.HandedOut, PhysStep.Consistent, PhysStep.Lost, PhysStep.AllocStep, Drawn,
        Taken;
    hide Missing, Find, SameMaps, Mapped, Reflected, Packed, AllPacked, Marked, PhysMap.AllBlocked, Behind, Tried,
        PageTables.Valid;
    if order == 0 { NoBaseTaken(pt, root, v); }
    lost := {};
    ghost var before, w := SceneOf(pm, pt), pt.own;
    var a := pm.AllocPage(order);
    if a.None? {
      KeepsItself(pt.own);
      TriedWithout(pm.g, root, flags | 0xC0, v, order, before, SceneOf(pm, pt));
      return None, lost;
    }
    NewPiece(pm.g, order, a.value, before.live, pm.live, v);
    var page := a.value / BASE;
    MapRootOf(pt.own, root, v);
    NothingLarger(pt.tables, root, v, order);
    var st := pt.MapPage(root, page, v, flags, order);
    if st != Ok {
      lost := {Behind(pm.g, Piece(v, order, page))};
      BehindOrder(pm.g, Piece(v, order, page));
      SameHere(before.tables, w, pt.tables, root);
      TriedInVain(pm.g, root, flags | 0xC0, Try(v, order, before, None, lost, SceneOf(pm, pt)));
      return None, lost;
    }
    r := Some(page);
    TriedWell(pm.g, w, root, flags | 0xC0, Try(v, order, before, r, lost, SceneOf(pm, pt)));
  }

  lemma NoBaseTaken(pt: PageTables, root: nat, v: Vpn)
    requires pt.Valid() && root in pt.tables && MayMap(pt.own, root, v) && Find(pt.tables, root, v) == None
    ensures !Taken(pt.tables, root, v, 0)
  {
    NotTakenAtBase(pt.tables, pt.own, root, v);
  }

  lemma NothingLarger(m: Tables, root: nat, v: Vpn, order: nat)
    requires Find(m, root, v) == None
    ensures NoLarger(m, root, v, order)
  {
  }

  lemma TriedWithout(g: PhysMap.Geometry, root: nat, flags: bv8, v: Vpn, order: nat, before: Scene, after: Scene)
    requires order <= 2 && NoPage(g, before, order) && after == before
    ensures Tried(g, root, flags, Try(v, order, before, None, {}, after))
  {
    hide Find, Taken, Missing, NoPage;
    DrawnNone(before.tables, before.avail);
  }

  lemma TriedInVain(g: PhysMap.Geometry, root: nat, flags: bv8, t: Try)
    requires t.order <= 2 && t.at < 134217728 && t.page.None? && !NoPage(g, t.before, t.order) && |t.lost| == 1
    requires Hindered(g, t.before, root, t.at, t.order) && Drawn(t.before.tables, t.before.avail, t.after.tables,
        t.after.avail)
    requires |t.after.avail| == Left(t.before, root, t.at, t.order) && Failed(g, root, t)
    ensures Tried(g, root, flags, t)
  {
  }

  lemma TriedWell(g: PhysMap.Geometry, w: Owners, root: nat, flags: bv8, t: Try)
    requires t.order <= 2 && t.at < 134217728 && t.page.Some? && t.lost == {}
        && !Hindered(g, t.before, root, t.at, t.order)
    requires Drawn(t.before.tables, t.before.avail, t.after.tables, t.after.avail)
        && |t.after.avail| == Left(t.before, root, t.at, t.order)
    requires var p := Piece(t.at, t.order, t.page.value);
             && Starts(g, p)
             && Behind(g, p) !in t.before.live && t.after.live == t.before.live + {Behind(g, p)}
    requires Mapped(t.before.tables, w, t.after.tables, root, t.at, t.order, Hit(t.page.value, t.order, flags))
    ensures Tried(g, root, flags, t)
  {
    hide Find, Taken, Missing, NoPage, Drawn, Behind, Starts;
  }

  lemma BehindOrder(g: PhysMap.Geometry, p: Piece)
    ensures Behind(g, p).order == p.order
  {
  }

  lemma MapRootOf(w: Owners, root: nat, v: Vpn)
    requires MayMap(w, root, v)
    ensures IsRoot(w, root)
  {
  }

  lemma SameHere(m: Tables, w: Owners, m': Tables, root: nat)
    requires SameMaps(m, w, m') && root in m && IsRoot(w, root)
    ensures forall x: Vpn :: Find(m', root, x) == Find(m, root, x)
  {
  }

  // ---------------------------------------------------------------- the mapping loop

  lemma CutExtended(s: seq<Piece>, start: nat, v: nat, p: Piece)
    requires Cut(s, start, v) && Aligned(p) && p.v == v && (s != [] ==> p.order <= s[|s| - 1].order)
    ensures Cut(s + [p], start, v + Span(p.order))
  {
    hide Aligned, Span;
    var t := s + [p];
    assert t[|s|] == p && t[|t| - 1] == p;
    forall k | 0 < k < |t|
      ensures t[k - 1].v + Span(t[k - 1].order) == t[k].v && t[k].order <= t[k - 1].order
    {
      assert t[k - 1] == s[k - 1];
    }
  }

  lemma BackedExtended(g: PhysMap.Geometry, s: seq<Piece>, p: Piece, before: set<PhysMap.Page>)
    requires Backed(g, s) && AllBehind(g, s) <= before && Behind(g, p) !in before
    requires Starts(g, p)
    ensures Backed(g, s + [p]) && AllBehind(g, s + [p]) == AllBehind(g, s) + {Behind(g, p)}
  {
    var t := s + [p];
    assert forall k :: 0 <= k < |s| ==> t[k] == s[k] && Behind(g, s[k]) in AllBehind(g, s);
    assert AllBehind(g, t) == AllBehind(g, s) + {Behind(g, p)} by {
      assert t[|s|] == p;
    }
  }

  /** What the range looks like when the pieces `s` are mapped and `[v, end)` is not. */
  ghost predicate Progress(m0: Tables, m: Tables, root: nat, s: seq<Piece>, start: nat, v: nat, end: nat, flags: bv8) {
    && Cut(s, start, v) && (forall k :: 0 <= k < |s| ==> Leads(m, root, s[k], flags))
    && Bare(m, root, v, end) && SameOutside(m0, m, root, start, end)
  }

  lemma ProgressKept(m0: Tables, m: Tables, m': Tables, root: nat, s: seq<Piece>, start: nat, v: nat, end: nat,
      flags: bv8)
    requires Progress(m0, m, root, s, start, v, end, flags) && forall x: Vpn :: Find(m', root, x) == Find(m, root, x)
    ensures Progress(m0, m', root, s, start, v, end, flags)
  {
    hide Find, Cut;
    forall k | 0 <= k < |s| ensures Leads(m', root, s[k], flags) { assert Leads(m, root, s[k], flags); }
  }

  lemma ProgressExtended(m0: Tables, m: Tables, m': Tables, root: nat, s: seq<Piece>, start: nat, v: nat, end: nat,
                         flags: bv8, p: Piece)
    requires Progress(m0, m, root, s, start, v, end, flags) && Aligned(p) && p.v == v < end
        && v + Span(p.order) <= end <= 134217728
    requires (s != [] ==> p.order <= s[|s| - 1].order) && start <= v
    requires forall x: Vpn :: Find(m', root, x) == if SamePage(v, x, p.order) then Some(Hit(p.page, p.order, flags))
        else Find(m, root, x)
    ensures Progress(m0, m', root, s + [p], start, v + Span(p.order), end, flags)
  {
    hide Find;
    forall x: Vpn ensures SamePage(v, x, p.order) <==> v <= x < v + Span(p.order) { PageRange(p, x); }
    CutExtended(s, start, v, p);
    var t := s + [p];
    forall k | 0 <= k < |t| ensures Leads(m', root, t[k], flags) {
      if k < |s| {
        assert Leads(m, root, s[k], flags);
        CutBounds(s, start, v, k);
      }
    }
  }

  /** Order `q` could serve the next page of a range. */
  ghost predicate Suits(q: nat, at: nat, end: nat) {
    at + Span(q) <= end && at % Span(q) == 0
  }

  /** The largest order up to `o` that suits the place. */
  ghost function Best(at: nat, o: nat, end: nat): (q: nat)
    ensures q <= o && (q == 0 || (at + Span(q) <= end && at % Span(q) == 0))
    ensures forall r :: q < r <= o ==> at + Span(r) > end || at % Span(r) != 0
  {
    if o == 0 || Suits(o, at, end) then o else Best(at, o - 1, end)
  }

  /** Where the loop is after the attempts `ts`, and the largest order it may still use; -1 if there is none. */
  ghost function Cursor(ts: seq<Try>, start: nat, order: nat): (nat, int) {
    if ts == [] then (start, order)
    else
      var t := ts[|ts| - 1];
      if t.page.Some? then (t.at + Span(t.order), t.order) else (t.at, t.order - 1)
  }

  /** Attempt `i` is made where the attempts before it have led, with the largest order that suits the place. */
  ghost predicate OnTime(ts: seq<Try>, i: nat, start: nat, order: nat, end: nat)
    requires i < |ts|
  {
    var (at, o) := Cursor(ts[..i], start, order);
    o >= 0 && at < end && ts[i].at == at && ts[i].order == Best(at, o, end)
  }

  /** Attempt `i` finds what the one before it left. */
  ghost predicate InSequence(ts: seq<Try>, i: nat, first: Scene)
    requires i < |ts|
  {
    ts[i].before == if i == 0 then first else ts[i - 1].after
  }

  /** The whole loop of `map_region`: nothing happens but these attempts, from the scene `first` to the scene `last`. */
  ghost predicate Log(g: PhysMap.Geometry, root: nat, flags: bv8, ts: seq<Try>, first: Scene, last: Scene, start: nat,
      order: nat, end: nat) {
    && last == (if ts == [] then first else ts[|ts| - 1].after)
    && forall i :: 0 <= i < |ts| ==>
        Tried(g, root, flags, ts[i]) && OnTime(ts, i, start, order, end) && InSequence(ts, i, first)
  }

  lemma LogMore(g: PhysMap.Geometry, root: nat, flags: bv8, ts: seq<Try>, first: Scene, last: Scene, start: nat,
      order: nat, end: nat, t: Try)
    requires Log(g, root, flags, ts, first, last, start, order, end) && Tried(g, root, flags, t) && t.before == last
    requires var (at, o) := Cursor(ts, start, order); o >= 0 && at < end && t.at == at && t.order == Best(at, o, end)
    ensures Log(g, root, flags, ts + [t], first, t.after, start, order, end)
  {
    hide Tried;
    var us := ts + [t];
    forall i | 0 <= i < |us| ensures Tried(g, root, flags, us[i]) && OnTime(us, i, start, order, end)
        && InSequence(us, i, first) {
      assert us[..i] == ts[..i];
      if i < |ts| { assert OnTime(ts, i, start, order, end); } else { assert ts[..i] == ts; }
    }
  }

  /** The pieces that a run of attempts has mapped. */
  ghost function Done(ts: seq<Try>): seq<Piece> {
    if ts == [] then []
    else
      var t := ts[|ts| - 1];
      Done(ts[..|ts| - 1]) + if t.page.Some? then [Piece(t.at, t.order, t.page.value)] else []
  }

  ghost function LostBy(ts: seq<Try>): set<PhysMap.Page> {
    if ts == [] then {} else LostBy(ts[..|ts| - 1]) + ts[|ts| - 1].lost
  }

  lemma Added(ts: seq<Try>, t: Try, start: nat, order: nat)
    ensures Done(ts + [t]) == Done(ts) + if t.page.Some? then [Piece(t.at, t.order, t.page.value)] else []
    ensures LostBy(ts + [t]) == LostBy(ts) + t.lost
    ensures Cursor(ts + [t], start, order) == if t.page.Some? then (t.at + Span(t.order), t.order)
        else (t.at, t.order - 1)
  {
    assert (ts + [t])[..|ts|] == ts;
  }

  lemma BestIs(at: nat, o: nat, c: nat, end: nat)
    requires o <= c && (forall r :: o < r <= c ==> !Suits(r, at, end)) && (o == 0 || Suits(o, at, end))
    ensures Best(at, c, end) == o
  {
    hide Span;
  }

  lemma StaysMappable(w: Owners, w': Owners, root: nat, x: Vpn)
    requires Extends(w, w') && MayMap(w, root, x)
    ensures MayMap(w', root, x)
  {
  }

  /**
   `map_region` on a range of pages, from order `order` down. `log` tells of every attempt, and nothing else happens.
   If the range could not be mapped completely, even a single page was refused at the end.
   */
  method MapPages(pm: PhysMem.Pmap, pt: PageTables, root: nat, start: nat, n: nat, order: nat, flags: bv8)
    returns (ok: bool, ghost s: seq<Piece>, ghost v: nat, ghost leaked: set<PhysMap.Page>, ghost log: seq<Try>)
    requires pm.Valid() && pm.g.base % BASE == 0 && pt.Valid() && root in pt.tables && order <= 2 && flags & 1 == 1
    requires start + n <= 134217728 && Bare(pt.tables, root, start, start + n)
    requires forall x: Vpn :: start <= x < start + n ==> MayMap(pt.own, root, x)
    modifies pm, pt
    ensures pm.Valid() && pt.Valid() && root in pt.tables && Extends(old(pt.own), pt.own)
    ensures Progress(old(pt.tables), pt.tables, root, s, start, v, start + n, flags | 0xC0)
    ensures start <= v <= start + n && (ok <==> v == start + n)
    ensures Backed(pm.g, s) && Accounted(pm.live, old(pm.live), AllBehind(pm.g, s), leaked)
    ensures OneToOne(pm.g, pt.tables, root, s, start, v)
    ensures Log(pm.g, root, flags | 0xC0, log, old(SceneOf(pm, pt)), SceneOf(pm, pt), start, order, start + n)
    ensures s == Done(log) && leaked == LostBy(log) && v == Cursor(log, start, order).0
    ensures !ok ==> Cursor(log, start, order).1 == -1 && v < start + n &&
                    (PhysMap.AllBlocked(pm.g, pm.live, 0) || pm.Stuck()
                        || Missing(pt.tables, root, v, 2, 0) > |pt.avail|)
  {
    hide PageTables.Valid, PhysMem.Pmap.Valid, PhysMem.Pmap.Stuck, MayMap, Missing, Log, Tried, Done, LostBy, Cursor,
        Best, Suits, Passed;
    hide Extends, Find, Progress, Backed, AllBehind, PhysMap.AllBlocked, Bare, Behind, Accounted, OneToOne;
    ghost var m0, w0, live0, first := pt.tables, pt.own, pm.live, SceneOf(pm, pt);
    ghost var end := start + n;
    var o, left, at := order, n, start;
    s, v, leaked, log := [], start, {}, [];
    NothingTried(pm.g, root, flags | 0xC0, first, start, order, end);
    Untouched(m0, root, start, end, flags | 0xC0);
    KeepsItself(w0);
    Unbacked(pm.g);
    while left > 0
      invariant 0 <= o <= 2 && left == end - at && at == v && start <= v <= end && (s != [] ==> o <= s[|s| - 1].order)
      invariant pm.Valid() && pt.Valid() && root in pt.tables && Extends(w0, pt.own)
      invariant Progress(m0, pt.tables, root, s, start, v, end, flags | 0xC0)
      invariant Backed(pm.g, s) && Accounted(pm.live, live0, AllBehind(pm.g, s), leaked)
      invariant Log(pm.g, root, flags | 0xC0, log, first, SceneOf(pm, pt), start, order, end)
      invariant s == Done(log) && leaked == LostBy(log) && at == Cursor(log, start, order).0
      invariant Passed(log, start, order, o, at, end)
      decreases left, o
    {
      var size := Span(o);
      var done := false;
      SuitsIs(o, at, end);
      if size <= left && at % size == 0 {
        ghost var w1, a := pt.own, SceneOf(pm, pt);
        StaysMappable(w0, w1, root, at);
        NextIsBare(m0, a.tables, root, s, start, v, end, flags | 0xC0);
        var page;
        ghost var lost;
        page, lost := MapOne(pm, pt, root, at, o, flags);
        ExtendsTwice(w0, w1, pt.own);
        ghost var t := Try(at, o, a, page, lost, SceneOf(pm, pt));
        PassedBest(log, start, order, o, at, end);
        LogMore(pm.g, root, flags | 0xC0, log, first, a, start, order, end, t);
        Added(log, t, start, order);
        log := log + [t];
        if page.Some? {
          ghost var p := Piece(at, o, page.value);
          StepPlaced(pm.g, root, flags | 0xC0, t, m0, s, start, end, live0, leaked);
          s, v := s + [p], v + size;
          at, left := at + size, left - size;
          PassedAnew(log, start, order, o, at, end);
          done := true;
        } else {
          StepFailed(pm.g, root, flags | 0xC0, t, m0, s, start, end, live0, leaked);
          leaked := leaked + lost;
        }
      }
      if !done {
        if o == 0 {
          MappedOneToOne(pm, m0, pt.tables, root, s, start, v, end, flags | 0xC0, live0, leaked);
          return false, s, v, leaked, log;
        }
        PassedNext(log, start, order, o, at, end);
        o := o - 1;
      }
    }
    MappedOneToOne(pm, m0, pt.tables, root, s, start, v, end, flags | 0xC0, live0, leaked);
    ok := true;
  }

  lemma MappedOneToOne(pm: PhysMem.Pmap, m0: Tables, m: Tables, root: nat, s: seq<Piece>, start: nat, v: nat,
      end: nat, flags: bv8, live0: set<PhysMap.Page>, leaked: set<PhysMap.Page>)
    requires pm.Valid() && Progress(m0, m, root, s, start, v, end, flags) && Backed(pm.g, s)
    requires Accounted(pm.live, live0, AllBehind(pm.g, s), leaked)
    ensures OneToOne(pm.g, m, root, s, start, v)
  {
    hide PhysMem.Pmap.Valid, Progress, Backed, Apart, OneToOne, Behind, AllBehind;
    BackedApart(pm, s);
    RangeOneToOne(pm.g, m0, m, root, s, start, v, end, flags);
  }

  /** The loop has come down to order `o`: higher ones do not suit the place, or were refused there. */
  ghost predicate Passed(ts: seq<Try>, start: nat, order: nat, o: nat, at: nat, end: nat) {
    var c := Cursor(ts, start, order);
    at == c.0 && o <= c.1 && forall q :: o < q <= c.1 ==> !Suits(q, at, end)
  }

  lemma PassedBest(ts: seq<Try>, start: nat, order: nat, o: nat, at: nat, end: nat)
    requires Passed(ts, start, order, o, at, end) && Suits(o, at, end)
    ensures var c := Cursor(ts, start, order); c.0 == at && c.1 >= 0 && Best(at, c.1, end) == o
  {
    BestIs(at, o, Cursor(ts, start, order).1, end);
  }

  /** The next lower order, after this one did not suit or was refused. */
  lemma PassedNext(ts: seq<Try>, start: nat, order: nat, o: nat, at: nat, end: nat)
    requires o > 0 && Cursor(ts, start, order).0 == at
    requires (Passed(ts, start, order, o, at, end) && !Suits(o, at, end)) || Cursor(ts, start, order).1 == o - 1
    ensures Passed(ts, start, order, o - 1, at, end)
  {
  }

  lemma PassedAnew(ts: seq<Try>, start: nat, order: nat, o: nat, at: nat, end: nat)
    requires Cursor(ts, start, order) == (at, o)
    ensures Passed(ts, start, order, o, at, end)
  {
  }

  lemma SuitsIs(o: nat, at: nat, end: nat)
    ensures Suits(o, at, end) <==> at + Span(o) <= end && at % Span(o) == 0
  {
  }

  lemma NothingTried(g: PhysMap.Geometry, root: nat, flags: bv8, first: Scene, start: nat, order: nat, end: nat)
    ensures Log(g, root, flags, [], first, first, start, order, end) && Done([]) == [] && LostBy([]) == {}
    ensures Passed([], start, order, order, start, end)
  {
  }

  /** A page was mapped. */
  lemma StepPlaced(g: PhysMap.Geometry, root: nat, flags: bv8, t: Try, m0: Tables, s: seq<Piece>, start: nat, end: nat,
                   live0: set<PhysMap.Page>, leaked: set<PhysMap.Page>)
    requires Tried(g, root, flags, t) && t.page.Some? && start <= t.at && Suits(t.order, t.at, end) && end <= 134217728
    requires Progress(m0, t.before.tables, root, s, start, t.at, end, flags)
        && (s != [] ==> t.order <= s[|s| - 1].order)
    requires Backed(g, s) && Accounted(t.before.live, live0, AllBehind(g, s), leaked)
    ensures var s' := s + [Piece(t.at, t.order, t.page.value)];
            && Progress(m0, t.after.tables, root, s', start, t.at + Span(t.order), end, flags)
            && Backed(g, s') && Accounted(t.after.live, live0, AllBehind(g, s'), leaked) && t.lost == {}
  {
    hide Find, Progress, Backed, AllBehind, Accounted, Behind, Hindered, NoPage, Drawn;
    var p := Piece(t.at, t.order, t.page.value);
    ProgressExtended(m0, t.before.tables, t.after.tables, root, s, start, t.at, end, flags, p);
    AccountedPiece(t.before.live, live0, AllBehind(g, s), leaked, Behind(g, p));
    BackedExtended(g, s, p, t.before.live);
  }

  /** A page was refused, and lost if there was one. */
  lemma StepFailed(g: PhysMap.Geometry, root: nat, flags: bv8, t: Try, m0: Tables, s: seq<Piece>, start: nat, end: nat,
                   live0: set<PhysMap.Page>, leaked: set<PhysMap.Page>)
    requires Tried(g, root, flags, t) && t.page.None? && Progress(m0, t.before.tables, root, s, start, t.at, end, flags)
    requires Accounted(t.before.live, live0, AllBehind(g, s), leaked)
    ensures Progress(m0, t.after.tables, root, s, start, t.at, end, flags)
    ensures Accounted(t.after.live, live0, AllBehind(g, s), leaked + t.lost)
  {
    hide Find, Progress, AllBehind, Accounted, Hindered, NoPage, Drawn;
    AccountedLost(t.before.live, live0, AllBehind(g, s), leaked, t.lost);
    ProgressKept(m0, t.before.tables, t.after.tables, root, s, start, t.at, end, flags);
  }

  /** The live pages are those from before, those behind the pieces, and those lost. */
  ghost predicate Accounted(live: set<PhysMap.Page>, live0: set<PhysMap.Page>, behind: set<PhysMap.Page>,
      lost: set<PhysMap.Page>) {
    behind !! live0 && lost !! live0 + behind && live == live0 + behind + lost
  }

  lemma AccountedPiece(live: set<PhysMap.Page>, live0: set<PhysMap.Page>, behind: set<PhysMap.Page>,
      lost: set<PhysMap.Page>, p: PhysMap.Page)
    requires Accounted(live, live0, behind, lost) && p !in live
    ensures Accounted(live + {p}, live0, behind + {p}, lost) && behind <= live
  {
  }

  lemma AccountedLost(live: set<PhysMap.Page>, live0: set<PhysMap.Page>, behind: set<PhysMap.Page>,
      lost: set<PhysMap.Page>, more: set<PhysMap.Page>)
    requires Accounted(live, live0, behind, lost) && more !! live
    ensures Accounted(live + more, live0, behind, lost + more) && live0 + behind <= live
  {
  }

  lemma Untouched(m: Tables, root: nat, start: nat, end: nat, flags: bv8)
    requires Bare(m, root, start, end)
    ensures Progress(m, m, root, [], start, start, end, flags)
  {
  }

  lemma Unbacked(g: PhysMap.Geometry)
    ensures Backed(g, []) && AllBehind(g, []) == {} && forall live :: Accounted(live, live, {}, {})
  {
  }

  lemma NextIsBare(m0: Tables, m: Tables, root: nat, s: seq<Piece>, start: nat, v: Vpn, end: nat, flags: bv8)
    requires Progress(m0, m, root, s, start, v, end, flags) && v < end
    ensures Find(m, root, v) == None
  {
  }

  lemma ExtendsTwice(w: Owners, w1: Owners, w2: Owners)
    requires Extends(w, w1) && Extends(w1, w2)
    ensures Extends(w, w2)
  {
  }

  /** Every address of a mapped range translates, through exactly one of its pieces. */
  lemma {:induction false} RangeTranslates(m0: Tables, m: Tables, root: nat, s: seq<Piece>, start: nat, v: nat,
      end: nat, flags: bv8, x: Vpn)
    returns (k: nat)
    requires Progress(m0, m, root, s, start, v, end, flags) && start <= x < v
    ensures k < |s| && s[k].v <= x < s[k].v + Span(s[k].order) && Find(m, root,
        x) == Some(Hit(s[k].page, s[k].order, flags))
    ensures forall j :: 0 <= j < |s| && j != k ==> !(s[j].v <= x < s[j].v + Span(s[j].order))
  {
    hide Find;
    k := 0;
    while x >= s[k].v + Span(s[k].order)
      invariant k < |s| && s[k].v <= x
      decreases |s| - k
    {
      k := k + 1;
    }
    assert Leads(m, root, s[k], flags);
    forall j | 0 <= j < |s| && j != k ensures !(s[j].v <= x < s[j].v + Span(s[j].order)) {
      if j < k { CutOrder(s, start, v, j, k); } else { CutOrder(s, start, v, k, j); }
    }
  }

  /** The physical page that virtual page `x` leads to. */
  ghost function Target(m: Tables, root: nat, x: Vpn): Option<nat> {
    match Find(m, root, x)
    case None => None
    case Some(h) => Some(h.page + x % Span(h.order))
  }

  /** Base page `t` of RAM lies inside the page of the physical allocator behind `p`. */
  ghost predicate InBlock(g: PhysMap.Geometry, p: Piece, t: nat) {
    PhysMap.Start(g, Behind(g, p)) <= t * 4096 && t * 4096 + 4096 <= PhysMap.End(g, Behind(g, p))
  }

  /** Page `x` belongs to piece `k` and leads into the block behind it. */
  ghost predicate LeadsInto(g: PhysMap.Geometry, m: Tables, root: nat, s: seq<Piece>, x: Vpn, k: nat) {
    && k < |s| && s[k].v <= x < s[k].v + Span(s[k].order)
    && Target(m, root, x).Some? && InBlock(g, s[k], Target(m, root, x).value)
  }

  ghost predicate Served(g: PhysMap.Geometry, m: Tables, root: nat, s: seq<Piece>, x: Vpn) {
    exists k: nat :: LeadsInto(g, m, root, s, x, k)
  }

  /** Every page of the range leads into the block that was handed out for it, and no two lead to the same page. */
  ghost predicate OneToOne(g: PhysMap.Geometry, m: Tables, root: nat, s: seq<Piece>, start: nat, v: nat) {
    && (forall x: Vpn :: start <= x < v ==> Served(g, m, root, s, x))
    && forall x: Vpn, y: Vpn :: start <= x < y < v ==> Target(m, root, x) != Target(m, root, y)
  }

  /** A page of order `o` maps as many base pages as the physical page of that order has. */
  lemma SameSizes(o: nat)
    requires o <= 2
    ensures PhysMap.OrderSize(o) == Span(o) * 4096
  {
    PhysMap.OrderSizes();
  }

  lemma TargetOf(g: PhysMap.Geometry, m: Tables, root: nat, p: Piece, flags: bv8, x: Vpn)
    requires Aligned(p) && Starts(g, p) && p.v <= x < p.v + Span(p.order) && Leads(m, root, p, flags)
    ensures Target(m, root, x) == Some(p.page + (x - p.v)) && InBlock(g, p, p.page + (x - p.v))
  {
    hide Find;
    SameSizes(p.order);
    assert x % Span(p.order) == x - p.v by { Offset(p, x); }
  }

  lemma Offset(p: Piece, x: nat)
    requires Aligned(p) && p.v <= x < p.v + Span(p.order)
    ensures x % Span(p.order) == x - p.v
  {
  }

  /** The blocks behind the pieces have no byte in common. */
  ghost predicate Apart(g: PhysMap.Geometry, s: seq<Piece>) {
    forall i, j :: 0 <= i < j < |s| ==> !PhysMap.Overlap(g, Behind(g, s[i]), Behind(g, s[j]))
  }

  lemma BackedApart(pm: PhysMem.Pmap, s: seq<Piece>)
    requires pm.Valid() && Backed(pm.g, s) && AllBehind(pm.g, s) <= pm.live
    ensures Apart(pm.g, s)
  {
    hide PhysMap.Core, PhysMap.Lists, PhysMap.Overlap, Behind;
    forall i, j | 0 <= i < j < |s| ensures !PhysMap.Overlap(pm.g, Behind(pm.g, s[i]), Behind(pm.g, s[j])) {
      assert Behind(pm.g, s[i]) in AllBehind(pm.g, s) && Behind(pm.g, s[j]) in AllBehind(pm.g, s);
      PhysMap.LiveBytesDisjoint(pm.g, pm.maps, pm.live, Behind(pm.g, s[i]), Behind(pm.g, s[j]));
    }
  }

  /** A mapped range with blocks of its own leads to each base page of RAM at most once. */
  lemma RangeOneToOne(g: PhysMap.Geometry, m0: Tables, m: Tables, root: nat, s: seq<Piece>, start: nat, v: nat,
      end: nat, flags: bv8)
    requires Progress(m0, m, root, s, start, v, end, flags) && Backed(g, s) && Apart(g, s)
    ensures OneToOne(g, m, root, s, start, v)
  {
    hide Progress, Find, Behind, Starts, Target, InBlock, LeadsInto;
    forall x: Vpn | start <= x < v ensures Served(g, m, root, s, x) {
      var k := LeadsIn(g, m0, m, root, s, start, v, end, flags, x);
    }
    forall x: Vpn, y: Vpn | start <= x < y < v ensures Target(m, root, x) != Target(m, root, y) {
      TargetsDiffer(g, m0, m, root, s, start, v, end, flags, x, y);
    }
  }

  lemma LeadsIn(g: PhysMap.Geometry, m0: Tables, m: Tables, root: nat, s: seq<Piece>, start: nat, v: nat,
      end: nat, flags: bv8, x: Vpn) returns (k: nat)
    requires Progress(m0, m, root, s, start, v, end, flags) && Backed(g, s) && start <= x < v
    ensures LeadsInto(g, m, root, s, x, k) && Target(m, root, x) == Some(s[k].page + (x - s[k].v))
  {
    hide Find, Behind, Starts, Target, InBlock;
    k := RangeTranslates(m0, m, root, s, start, v, end, flags, x);
    TargetOf(g, m, root, s[k], flags, x);
  }

  lemma TargetsDiffer(g: PhysMap.Geometry, m0: Tables, m: Tables, root: nat, s: seq<Piece>, start: nat, v: nat,
      end: nat, flags: bv8, x: Vpn, y: Vpn)
    requires Progress(m0, m, root, s, start, v, end, flags) && Backed(g, s) && Apart(g, s) && start <= x < y < v
    ensures Target(m, root, x) != Target(m, root, y)
  {
    hide Progress, Find, Starts, Target, InBlock, Apart;
    var i := LeadsIn(g, m0, m, root, s, start, v, end, flags, x);
    var j := LeadsIn(g, m0, m, root, s, start, v, end, flags, y);
    if i != j { NotInBoth(g, s, i, j, s[i].page + (x - s[i].v)); }
  }

  /** No base page of RAM lies inside the blocks of two pieces. */
  lemma NotInBoth(g: PhysMap.Geometry, s: seq<Piece>, i: nat, j: nat, t: nat)
    requires Apart(g, s) && i < |s| && j < |s| && i != j && InBlock(g, s[i], t)
    ensures !InBlock(g, s[j], t)
  {
    hide Behind, PhysMap.OrderSize;
    if i < j {
      assert !PhysMap.Overlap(g, Behind(g, s[i]), Behind(g, s[j]));
    } else {
      assert !PhysMap.Overlap(g, Behind(g, s[j]), Behind(g, s[i]));
    }
  }

  // -------------------------------------------------------------- the unmapping loop

  /** The place behind the first `k` pieces. */
  ghost function Place(s: seq<Piece>, start: nat, k: nat): nat
    requires k <= |s|
  {
    if k == 0 then start else s[k - 1].v + Span(s[k - 1].order)
  }

  /** The end of a range of `n` pages lies between two pieces, after `k` of them. */
  ghost predicate EndsAt(s: seq<Piece>, start: nat, n: nat, k: nat) {
    k <= |s| && Place(s, start, k) == start + n
  }

  lemma PlaceOrder(s: seq<Piece>, start: nat, v: nat, i: nat, j: nat)
    requires Cut(s, start, v) && i < j <= |s|
    ensures Place(s, start, i) < Place(s, start, j) <= v && Place(s, start, |s|) == v
  {
    if i > 0 { if i < j - 1 { CutOrder(s, start, v, i - 1, j - 1); } } else { CutBounds(s, start, v, j - 1); }
    CutBounds(s, start, v, j - 1);
  }

  lemma PlaceIs(s: seq<Piece>, start: nat, v: nat, k: nat)
    requires Cut(s, start, v) && k <= |s|
    ensures Place(s, start, k) == (if k < |s| then s[k].v else v) && start <= Place(s, start, k) <= v
  {
    if k > 0 { CutBounds(s, start, v, k - 1); }
    if k < |s| { CutBounds(s, start, v, k); }
  }

  /** The first `k` pieces of `s` are gone, the others still lead to their pages, and nothing else has changed. */
  ghost predicate Regress(m0: Tables, m: Tables, root: nat, s: seq<Piece>, k: nat, start: nat, flags: bv8) {
    && k <= |s| && (forall j :: k <= j < |s| ==> Leads(m, root, s[j], flags))
    && Bare(m, root, start, Place(s, start, k)) && SameOutside(m0, m, root, start, Place(s, start, k))
  }

  lemma RegressStart(m: Tables, root: nat, s: seq<Piece>, start: nat, flags: bv8)
    requires forall k :: 0 <= k < |s| ==> Leads(m, root, s[k], flags)
    ensures Regress(m, m, root, s, 0, start, flags) && Place(s, start, 0) == start
  {
    hide Find;
  }

  lemma RegressStep(m0: Tables, m: Tables, w: Owners, m': Tables, root: nat, s: seq<Piece>, k: nat, start: nat,
      v: nat, flags: bv8)
    requires Cut(s, start, v) && k < |s| && Regress(m0, m, root, s, k, start, flags) && s[k].v < 134217728
    requires Unmapped(m, w, m', root, s[k].v, s[k].order)
    ensures Regress(m0, m', root, s, k + 1, start, flags)
  {
    hide Find;
    var p := s[k];
    forall x: Vpn ensures SamePage(p.v, x, p.order) <==> p.v <= x < p.v + Span(p.order) { PageRange(p, x); }
    PlaceIs(s, start, v, k);
    forall j | k + 1 <= j < |s| ensures Leads(m', root, s[j], flags) {
      assert Leads(m, root, s[j], flags);
      CutOrder(s, start, v, k, j);
    }
  }

  lemma AtPiece(m0: Tables, m: Tables, root: nat, s: seq<Piece>, k: nat, start: nat, v: nat, flags: bv8)
    requires Cut(s, start, v) && Regress(m0, m, root, s, k, start, flags)
    ensures k < |s| ==>
              && s[k].v < 134217728 && Place(s, start, k) == s[k].v && Place(s, start,
                  k + 1) == s[k].v + Span(s[k].order)
              && s[k].order <= 2 && Find(m, root, s[k].v) == Some(Hit(s[k].page, s[k].order, flags))
    ensures k == |s| && v < 134217728 ==> Place(s, start, k) == v && Find(m, root, v) == Find(m0, root, v)
  {
    hide Find;
    PlaceIs(s, start, v, k);
    if k < |s| { assert Leads(m, root, s[k], flags); }
  }

  lemma FreedOne(g: PhysMap.Geometry, s: seq<Piece>, k: nat, live0: set<PhysMap.Page>, live: set<PhysMap.Page>)
    requires Backed(g, s) && k < |s| && AllBehind(g, s) <= live0 && live == live0 - AllBehind(g, s[..k])
    ensures Behind(g, s[k]) in live && s[k].page * BASE >= g.base && s[k].order <= g.top
    ensures live - {Behind(g, s[k])} == live0 - AllBehind(g, s[..k + 1])
  {
    assert Behind(g, s[k]) in AllBehind(g, s);
    assert forall j :: 0 <= j < k ==> s[..k][j] == s[j] && s[..k + 1][j] == s[j];
    assert s[..k + 1][k] == s[k];
    assert AllBehind(g, s[..k + 1]) == AllBehind(g, s[..k]) + {Behind(g, s[k])};
  }

  /** Sizes are counted in 64 bits; these are the pages that many bytes make. */
  const WRAP: nat := 0x10_0000_0000_0000

  /**
   What is left of a range of `n` pages from `start` when the loop is at `at`: beyond the end of the range the count
   has wrapped.
   */
  ghost function LeftOf(start: nat, n: nat, at: nat): int {
    if at <= start + n then start + n - at else start + n - at + WRAP
  }

  /** Lines 804-815: what is mapped at `at` is unmapped and its page freed; none if nothing is. */
  method FreePiece(pm: PhysMem.Pmap, pt: PageTables, root: nat, at: Vpn, ghost m0: Tables,
      ghost live0: set<PhysMap.Page>,
                   ghost s: seq<Piece>, ghost k: nat, ghost start: nat, ghost v: nat,
                       ghost flags: bv8) returns (o: Option<nat>)
    requires pm.Valid() && pt.Valid() && root in pt.tables && IsRoot(pt.own, root) && Cut(s, start, v) && k <= |s|
    requires Regress(m0, pt.tables, root, s, k, start, flags) && Backed(pm.g, s) && AllBehind(pm.g, s) <= live0
    requires pm.live == live0 - AllBehind(pm.g, s[..k])
    requires Find(pt.tables, root, at) == if k < |s| then Some(Hit(s[k].page, s[k].order, flags)) else None
    requires k < |s| ==> at == s[k].v
    modifies pm, pt
    ensures pm.Valid() && pt.Valid() && root in pt.tables && pt.own == old(pt.own)
    ensures if k < |s| then o == Some(s[k].order)
        else o == None && pt.tables == old(pt.tables) && pm.live == old(pm.live)
    ensures k < |s| ==>
        Regress(m0, pt.tables, root, s, k + 1, start, flags) && pm.live == live0 - AllBehind(pm.g, s[..k + 1])
  {
    hide Formed, Unmapped, OtherTops, Find, Backed, AllBehind, Regress, Packed, PhysMem.Pmap.Valid, PhysStep.FreeStep,
        Marked, AllPacked;
    hide Cut, Reflected, BranchesStay;
    var c := pt.FindEntry(root, at);
    if c.None? {
      return None;
    }
    ghost var m1 := pt.tables;
    var entry, order := pt.tables[c.value.table][c.value.index], c.value.level;
    FreedOne(pm.g, s, k, live0, pm.live);
    var _ := pt.UnmapPage(root, at);
    RegressStep(m0, m1, pt.own, pt.tables, root, s, k, start, v, flags);
    pm.FreePage(order, entry.page * BASE);
    o := Some(order);
  }

  /**
   `unmap_region` on a range that begins with the pieces `s`: pieces are unmapped and their physical pages freed, each
   exactly once, up to the end of the range if it lies between two pieces. If it does not, the count wraps and the
   loop goes on to the first page that is not mapped.
   */
  method UnmapPages(pm: PhysMem.Pmap, pt: PageTables, root: nat, start: nat, n: nat, ghost s: seq<Piece>,
      ghost v: nat, ghost flags: bv8)
    returns (ghost k: nat)
    requires pm.Valid() && pt.Valid() && root in pt.tables && IsRoot(pt.own, root) && start + n <= 134217728
    requires Cut(s, start, v) && (forall i :: 0 <= i < |s| ==> Leads(pt.tables, root, s[i], flags)) && v <= 134217728
    requires (exists i: nat :: EndsAt(s, start, n, i)) || (v < 134217728 && Find(pt.tables, root, v) == None)
    requires Backed(pm.g, s) && AllBehind(pm.g, s) <= pm.live
    modifies pm, pt
    ensures pm.Valid() && pt.Valid() && root in pt.tables && pt.own == old(pt.own)
    ensures k <= |s| && if exists i: nat :: EndsAt(s, start, n, i) then EndsAt(s, start, n, k) else k == |s|
    ensures Bare(pt.tables, root, start, Place(s, start, k)) && SameOutside(old(pt.tables), pt.tables, root, start,
        Place(s, start, k))
    ensures pm.live == old(pm.live) - AllBehind(pm.g, s[..k])
  {
    hide Find, Backed, AllBehind, Regress, PhysMem.Pmap.Valid, PageTables.Valid, Cut, Bare, EndsAt, Place, Leads;
    ghost var m0, live0 := pt.tables, pm.live;
    var at, left := start, n;
    k := 0;
    PlaceIs(s, start, v, 0);
    RegressStart(m0, root, s, start, flags);
    NothingFreed(pm.g, s);
    while left > 0
      invariant k <= |s| && at == Place(s, start, k) && start <= at <= v && left == LeftOf(start, n, at)
      invariant forall i :: 0 <= i < k ==> !EndsAt(s, start, n, i)
      invariant pm.Valid() && pt.Valid() && root in pt.tables && IsRoot(pt.own, root) && pt.own == old(pt.own)
      invariant Regress(m0, pt.tables, root, s, k, start, flags)
      invariant pm.live == live0 - AllBehind(pm.g, s[..k])
      decreases |s| - k
    {
      AtPiece(m0, pt.tables, root, s, k, start, v, flags);
      NotHere(s, start, n, k);
      if k == |s| { NoEnd(s, start, n); }
      var o := FreePiece(pm, pt, root, at, m0, live0, s, k, start, v, flags);
      if o.None? {
        break;
      }
      PlaceIs(s, start, v, k + 1);
      k := k + 1;
      at, left := at + Span(o.value), if left >= Span(o.value) then left - Span(o.value)
          else left + WRAP - Span(o.value);
    }
    EndHere(s, start, v, n, k, at);
    RegressEnd(m0, pt.tables, root, s, k, start, flags);
  }

  lemma NotHere(s: seq<Piece>, start: nat, n: nat, k: nat)
    requires k <= |s| && LeftOf(start, n, Place(s, start, k)) > 0 && Place(s, start, k) <= 134217728
    ensures !EndsAt(s, start, n, k)
  {
  }

  lemma NoEnd(s: seq<Piece>, start: nat, n: nat)
    requires forall i :: 0 <= i <= |s| ==> !EndsAt(s, start, n, i)
    ensures forall i: nat :: !EndsAt(s, start, n, i)
  {
  }

  lemma EndHere(s: seq<Piece>, start: nat, v: nat, n: nat, k: nat, at: nat)
    requires Cut(s, start, v) && k <= |s| && at == Place(s, start, k) && v <= 134217728 && at <= v
    requires (forall i :: 0 <= i < k ==>
        !EndsAt(s, start, n, i)) && (LeftOf(start, n, at) == 0 || (k == |s| && !EndsAt(s, start, n, k)))
    ensures if exists i: nat :: EndsAt(s, start, n, i) then EndsAt(s, start, n, k) else k == |s|
  {
    if LeftOf(start, n, at) == 0 { assert EndsAt(s, start, n, k); }
  }

  lemma RegressEnd(m0: Tables, m: Tables, root: nat, s: seq<Piece>, k: nat, start: nat, flags: bv8)
    requires Regress(m0, m, root, s, k, start, flags)
    ensures Bare(m, root, start, Place(s, start, k)) && SameOutside(m0, m, root, start, Place(s, start, k))
  {
  }

  lemma NothingFreed(g: PhysMap.Geometry, s: seq<Piece>)
    ensures s[..0] == [] && AllBehind(g, s[..0]) == {}
  {
  }

  /**
   Unmapping a range that was just mapped, completely or in part, restores the address space, and all but the leaked
   pages.
   */
  method MapThenUnmap(pm: PhysMem.Pmap, pt: PageTables, root: nat, start: nat, n: nat, order: nat, flags: bv8)
    returns (ghost leaked: set<PhysMap.Page>)
    requires pm.Valid() && pm.g.base % BASE == 0 && pt.Valid() && root in pt.tables && order <= 2 && flags & 1 == 1
    requires start + n <= 134217728 && Bare(pt.tables, root, start, start + n) && IsRoot(pt.own, root)
    requires forall x: Vpn :: start <= x < start + n ==> MayMap(pt.own, root, x)
    modifies pm, pt
    ensures pm.Valid() && pt.Valid() && pm.live == old(pm.live) + leaked && leaked !! old(pm.live)
    ensures forall x: Vpn :: Find(pt.tables, root, x) == old(Find(pt.tables, root, x))
  {
    hide Formed, Find, Backed, AllBehind, PhysMap.Core, PhysMap.Lists, Extends, Log, Cut, Place;
    ghost var w := pt.own;
    var ok;
    ghost var s, v, log, k;
    ok, s, v, leaked, log := MapPages(pm, pt, root, start, n, order, flags);
    KeepsRoot(w, pt.own, root);
    MappedEnd(s, start, v, n);
    k := UnmapPages(pm, pt, root, start, n, s, v, flags | 0xC0);
    MappedAll(s, start, v, n, k);
  }

  lemma MappedEnd(s: seq<Piece>, start: nat, v: nat, n: nat)
    requires Cut(s, start, v) && v <= start + n
    ensures EndsAt(s, start, n, |s|) <==> v == start + n
  {
  }

  /** A range that is mapped no further than its end is unmapped completely. */
  lemma MappedAll(s: seq<Piece>, start: nat, v: nat, n: nat, k: nat)
    requires Cut(s, start, v) && v <= start + n && k <= |s|
    requires if exists i: nat :: EndsAt(s, start, n, i) then EndsAt(s, start, n, k) else k == |s|
    ensures k == |s| && Place(s, start, k) == v && s[..k] == s
  {
    if k < |s| { PlaceOrder(s, start, v, k, |s|); }
    PlaceIs(s, start, v, |s|);
  }

  // ------------------------------------------------------------------- byte ranges

  /** `align_region`: first page and number of pages that cover `bytes` bytes from `start`. */
  function MapSpan(start: nat, bytes: nat): (nat, nat) {
    var top := start + bytes;
    var newTop := if top / BASE * BASE != top then top / BASE + 1 else top / BASE;
    (start / BASE, newTop - start / BASE)
  }

  /** The range `unmap_region` works on: it aligns the start down before it adds the length. */
  function UnmapSpan(start: nat, bytes: nat): (nat, nat) {
    var v := start / BASE;
    (v, (v * BASE + bytes + BASE - 1) / BASE - v)
  }

  /** `align_region` covers exactly the pages that hold a byte of the range. */
  lemma MapSpanCovers(start: nat, bytes: nat, p: nat)
    requires bytes > 0
    ensures var (first, n) := MapSpan(start, bytes);
            first <= p < first + n <==> exists b :: start <= b < start + bytes && b / BASE == p
  {
    var (first, n) := MapSpan(start, bytes);
    if first <= p < first + n {
      var b := if p * BASE < start then start else p * BASE;
      assert b / BASE == p;
    }
  }

  /**
   Both work on the same pages exactly when the range does not reach into a further page than its length alone needs.
   */
  lemma SpansAgreeIff(start: nat, bytes: nat)
    ensures MapSpan(start, bytes) == UnmapSpan(start, bytes) <==>
            if bytes == 0 then start % BASE == 0 else start % BASE + (bytes - 1) % BASE < BASE
  {
  }

  /** Two pages are mapped for 4096 bytes from the middle of a page, and one is left behind. */
  lemma UnalignedLeavesPage()
    ensures MapSpan(0x1800, 0x1000) == (1, 2) && UnmapSpan(0x1800, 0x1000) == (1, 1)
  {
  }

  /**
   The two spans differ by one page at most. If they do, what happens to the last page of the range depends on the
   piece that maps it: a single page is left behind, and with a larger one the loop overruns the range.
   */
  lemma UnalignedEnd(start: nat, bytes: nat, s: seq<Piece>)
    requires bytes > 0 && Cut(s, MapSpan(start, bytes).0, MapSpan(start, bytes).0 + MapSpan(start, bytes).1)
    requires MapSpan(start, bytes) != UnmapSpan(start, bytes)
    ensures UnmapSpan(start, bytes) == (MapSpan(start, bytes).0, MapSpan(start, bytes).1 - 1) && s != []
    ensures var (first, n) := UnmapSpan(start, bytes);
            (exists k: nat :: EndsAt(s, first, n, k)) <==> s[|s| - 1].order == 0
  {
    var (first, n) := UnmapSpan(start, bytes);
    ShorterByOne(start, bytes);
    var last := |s| - 1;
    PlaceIs(s, first, first + n + 1, last);
    if s[last].order == 0 { assert EndsAt(s, first, n, last); }
    if k: nat :| EndsAt(s, first, n, k) {
      if k < last { PlaceOrder(s, first, first + n + 1, k, last); }
      PlaceIs(s, first, first + n + 1, |s|);
    }
  }

  lemma ShorterByOne(start: nat, bytes: nat)
    requires bytes > 0 && MapSpan(start, bytes) != UnmapSpan(start, bytes)
    ensures UnmapSpan(start, bytes) == (MapSpan(start, bytes).0, MapSpan(start, bytes).1 - 1)
        && MapSpan(start, bytes).1 > 0
  {
  }

  /** One large page is mapped for 0x1ff000 bytes from 0x200800, and unmapping them overruns it. */
  lemma UnalignedOverruns(page: nat)
    ensures MapSpan(0x200800, 0x1ff000) == (512, 512) && UnmapSpan(0x200800, 0x1ff000) == (512, 511)
    ensures Cut([Piece(512, 1, page)], 512, 1024) && forall k: nat :: !EndsAt([Piece(512, 1, page)], 512, 511, k)
  {
  }

  /** RAM with nothing live has a page of every order it has. */
  lemma FreshHasPages(g: PhysMap.Geometry, live: set<PhysMap.Page>, o: nat)
    requires g.Valid() && live == {} && o <= g.top && PhysMap.Pages(g, o) > 0
    ensures !PhysMap.AllBlocked(g, live, o)
  {
    assert !PhysMap.Blocked(g, live, PhysMap.Page(o, 0));
  }

  /** A page that overlaps the only live one does not block the next. */
  lemma OneLiveHasPages(g: PhysMap.Geometry, p: PhysMap.Page, o: nat)
    requires g.Valid() && p.order == 0 && o == 1 && g.top == 1 && g.count >= 2
    ensures !PhysMap.AllBlocked(g, {p}, 1)
  {
    var x, y := PhysMap.Page(1, 0), PhysMap.Page(1, 1);
    PhysMap.OverlapIffNested(g, x, p);
    PhysMap.OverlapIffNested(g, y, p);
    assert !PhysMap.Blocked(g, {p}, x) || !PhysMap.Blocked(g, {p}, y);
  }

  /** An empty address space with three pages for tables, and RAM of two large pages. */
  method Boot() returns (pm: PhysMem.Pmap, pt: PageTables, root: nat)
    ensures fresh(pm) && fresh(pt) && pm.Valid() && pm.live == {} && !pm.Stuck()
        && pm.g == PhysMap.Geometry(4096, 2, 1, 2)
    ensures pt.Valid() && root in pt.tables && MayMap(pt.own, root, 0) && |pt.avail| == 3
    ensures Find(pt.tables, root, 0) == None && Missing(pt.tables, root, 0, 2, 0) == 2 && !Taken(pt.tables, root, 0, 0)
  {
    pm := new PhysMem.Pmap(PhysMap.Geometry(4096, 2, 1, 2));
    pt := new PageTables(0, [1, 2, 3, 4]);
    var r := Spaces.CreateVmem(pt, 0, None);
    root := r.value;
  }

  /**
   A page is mapped and unmapped, and a larger one tried in its place: it is lost, as the table of the small one is
   still there.
   */
  method LosesPage() returns (pm: PhysMem.Pmap, pt: PageTables, ghost lost: set<PhysMap.Page>)
    ensures fresh(pm) && fresh(pt) && pm.Valid() && pt.Valid() && lost != {} && lost <= pm.live
  {
    hide PhysMem.Pmap.Valid, PageTables.Valid, Extends, MayMap, Find, Missing, Taken, Drawn, Unmapped, Reflected,
        BranchesStay;
    hide PhysMap.AllBlocked, Packed, AllPacked, Marked, OtherTops, Behind;
    var root;
    pm, pt, root := Boot();
    var v: Vpn := 0;
    FreshHasPages(pm.g, pm.live, 0);
    ghost var w := pt.own;
    var page;
    page, lost := MapOne(pm, pt, root, v, 0, 1);
    StaysMappable(w, pt.own, root, v);
    MapRootOf(pt.own, root, v);
    ghost var m := pt.tables;
    assert SamePage(v, v, 0);
    var st := pt.UnmapPage(root, v);
    StillTaken(m, pt.tables, root, v, 1);
    GoneHere(m, pt.own, pt.tables, root, v, 0);
    ghost var p := Behind(pm.g, Piece(v, 0, page.value));
    BehindOrder(pm.g, Piece(v, 0, page.value));
    assert pm.live == {p};
    OneLiveHasPages(pm.g, p, 1);
    NotStuck(pm);
    page, lost := MapOne(pm, pt, root, v, 1, 1);
  }

  lemma GoneHere(m: Tables, w: Owners, m': Tables, root: nat, v: Vpn, order: nat)
    requires Unmapped(m, w, m', root, v, order)
    ensures Find(m', root, v) == None
  {
    assert SamePage(v, v, order);
  }

  lemma NotStuck(pm: PhysMem.Pmap)
    requires pm.live != {}
    ensures !pm.Stuck()
  {
  }
}
