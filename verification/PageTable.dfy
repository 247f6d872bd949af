/**
 Sv39 page tables (arch/riscv64/kernel/vmem.c) as values: a memory of tables with 512 entries, the
 three-level lookup, and what one changed entry does to the lookups of every address.

 Virtual addresses are counted in base pages (27 bits); tables are named by their physical page.
 */
module PageTable {
  import opened Common

  const LEAVES := 512
  /** Top level entries: user memory, then the RPC stack, then the direct map, the kernel and I/O. */
  const CSTACK_PAGE := 248
  const KERNEL_PAGE := 510

  type Vpn = v: nat | v < 134217728

  datatype Entry = Null | Grave | Branch(table: nat) | Leaf(page: nat, flags: bv8)

  /** `__unused` */
  predicate Unused(e: Entry) {
    e.Null? || e.Grave?
  }

  type Table = seq<Entry>
  type Tables = map<nat, Table>

  /** Base pages below an entry of level `o`. */
  function Span(o: nat): (n: nat)
    ensures n > 0
  {
    if o == 0 then 1 else if o == 1 then 512 else if o == 2 then 262144 else 134217728
  }

  /** The number of the entry of level `o` that covers `v`, counted over the whole address space. */
  function Slot(v: Vpn, o: nat): nat {
    v / Span(o)
  }

  /** `vm_to_index` */
  function Index(v: Vpn, o: nat): (i: nat)
    ensures i < LEAVES
  {
    Slot(v, o) % LEAVES
  }

  lemma SlotSplits(v: Vpn, o: nat)
    requires o <= 2
    ensures Slot(v, o) == Slot(v, o + 1) * LEAVES + Index(v, o)
    ensures o == 2 ==> Slot(v, 3) == 0 && Index(v, 2) == Slot(v, 2)
  {
  }

  /** The page of order `o` around `v` also holds `w`. */
  predicate SamePage(v: Vpn, w: Vpn, o: nat) {
    Slot(v, o) == Slot(w, o)
  }

  datatype Hit = Hit(page: nat, order: nat, flags: bv8)

  /** `__find_vmem`, from the table `t` of level `o` down. */
  ghost function Lookup(m: Tables, t: nat, v: Vpn, o: nat): Option<Hit>
    requires o <= 2
    decreases o
  {
    if t !in m || |m[t]| != LEAVES then None else
    Below(m, m[t][Index(v, o)], v, o)
  }

  ghost function Below(m: Tables, e: Entry, v: Vpn, o: nat): Option<Hit>
    requires o <= 2
    decreases o, 0
  {
    match e
    case Null => None
    case Grave => None
    case Leaf(page, flags) => Some(Hit(page, o, flags))
    case Branch(u) => if o == 0 then None else Lookup(m, u, v, o - 1)
  }

  // ------------------------------------------------------------------ well-formed memory

  /** Where a table belongs: address space, level, the slot it serves and the table that points to it. */
  datatype Home = Home(space: nat, level: nat, slot: nat, parent: nat)

  /**
   Who owns what: `user` gives, for every address space, the space whose user half it shows, and
   `kernel` is the table of the kernel mapping, which all spaces share.
   */
  datatype Owners = Owners(home: map<nat, Home>, user: map<nat, nat>, kernel: nat)

  ghost function SpaceAt(w: Owners, t: nat, i: nat): nat
    requires t in w.home
  {
    if w.home[t].level < 2 then w.home[t].space
    else if i >= KERNEL_PAGE then w.kernel
    else if i < CSTACK_PAGE && t in w.user then w.user[t]
    else t
  }

  ghost predicate Sized(m: Tables, w: Owners, t: nat)
    requires t in m
  {
    && |m[t]| == LEAVES && t in w.home && w.home[t].level <= 2
    && (w.home[t].level == 2 ==> w.home[t].slot == 0 && w.home[t].space == t)
    && (t == w.kernel ==> w.home[t].space == w.kernel)
  }

  /** Entry `i` of table `t` points to a table one level below that serves exactly this slot. */
  ghost predicate Edge(m: Tables, w: Owners, t: nat, i: nat)
    requires t in m && i < |m[t]| && t in w.home && m[t][i].Branch?
  {
    var u, h := m[t][i].table, w.home[t];
    && h.level > 0 && u in m && u in w.home && w.home[u].level == h.level - 1
    && w.home[u].slot == h.slot * LEAVES + i && w.home[u].space == SpaceAt(w, t, i)
  }

  /** A table of an address space hangs below a table of the same space. */
  ghost predicate Hung(m: Tables, w: Owners, u: nat)
    requires u in w.home
  {
    var h := w.home[u];
    h.level < 2 && h.space != w.kernel ==>
      && h.parent in m && |m[h.parent]| == LEAVES && m[h.parent][h.slot % LEAVES] == Branch(u) && h.parent in w.home
      && w.home[h.parent].level == h.level + 1 && w.home[h.parent].space == h.space
  }

  ghost predicate Formed(m: Tables, w: Owners) {
    && (forall t :: t in m ==> Sized(m, w, t) && Hung(m, w, t))
    && (forall t, i :: t in m && 0 <= i < LEAVES && i < |m[t]| && m[t][i].Branch? ==> Edge(m, w, t, i))
  }

  lemma Full(m: Tables, w: Owners, t: nat)
    requires Formed(m, w) && t in m
    ensures |m[t]| == LEAVES
  {
    assert Sized(m, w, t);
  }

  /** Table `t` of level `o` is the one that serves `v`. */
  ghost predicate Serves(w: Owners, t: nat, v: Vpn, o: nat) {
    t in w.home && w.home[t].level == o && w.home[t].slot == Slot(v, o + 1)
  }

  /** The table of level `l` on the way from table `t` of level `o` to `v`, if the way goes that far. */
  ghost function Reach(m: Tables, t: nat, v: Vpn, o: nat, l: nat): Option<nat>
    requires l <= o <= 2
    decreases o
  {
    if t !in m || |m[t]| != LEAVES then None
    else if l == o then Some(t)
    else if m[t][Index(v, o)].Branch? then Reach(m, m[t][Index(v, o)].table, v, o - 1, l)
    else None
  }

  lemma StepDown(m: Tables, w: Owners, t: nat, v: Vpn, o: nat)
    requires Formed(m, w) && t in m && Serves(w, t, v, o) && o <= 2 && m[t][Index(v, o)].Branch?
    ensures var u := m[t][Index(v, o)].table; o > 0 && u in m && Serves(w, u, v, o - 1)
  {
    SlotSplits(v, o);
    assert Edge(m, w, t, Index(v, o));
  }

  lemma {:induction false} ReachServes(m: Tables, w: Owners, t: nat, v: Vpn, o: nat, l: nat)
    requires Formed(m, w) && t in m && Serves(w, t, v, o) && l <= o <= 2 && Reach(m, t, v, o, l).Some?
    ensures var s := Reach(m, t, v, o, l).value;
            s in m && Serves(w, s, v, l) && Lookup(m, t, v, o) == Lookup(m, s, v, l)
    decreases o
  {
    if l < o {
      StepDown(m, w, t, v, o);
      ReachServes(m, w, m[t][Index(v, o)].table, v, o - 1, l);
    }
  }

  /** Memory with one entry replaced. */
  function Put(m: Tables, t: nat, i: nat, e: Entry): Tables
    requires t in m && i < |m[t]|
  {
    m[t := m[t][i := e]]
  }

  /** Entry `i` of table `t` lies on the way to `v`. */
  ghost predicate Covers(w: Owners, t: nat, i: nat, v: Vpn) {
    t in w.home && Slot(v, w.home[t].level) == w.home[t].slot * LEAVES + i
  }

  lemma CoversIndex(w: Owners, t: nat, i: nat, v: Vpn, o: nat)
    requires Serves(w, t, v, o) && o <= 2 && i < LEAVES
    ensures Covers(w, t, i, v) <==> i == Index(v, o)
  {
    SlotSplits(v, o);
  }

  /**
   Replacing one entry changes exactly the lookups whose way leads through it, in every address space:
   they now find what lies below the new entry.
   */
  lemma {:induction false} PutLookup(m: Tables, w: Owners, t0: nat, i0: nat, e: Entry, t: nat, v: Vpn, o: nat)
    requires Formed(m, w) && t0 in m && i0 < LEAVES && t in m && Serves(w, t, v, o) && o <= 2
    ensures var l := w.home[t0].level; var m' := Put(m, t0, i0, e);
            Lookup(m', t, v, o) ==
            if l <= o && Covers(w, t0, i0, v) && Reach(m, t, v, o, l) == Some(t0) then Below(m', e, v, l)
            else Lookup(m, t, v, o)
    decreases o
  {
    var l, m' := w.home[t0].level, Put(m, t0, i0, e);
    var i := Index(v, o);
    assert Sized(m, w, t) && Sized(m, w, t0);
    CoversIndex(w, t, i, v, o);
    if t == t0 {
      CoversIndex(w, t0, i0, v, o);
    }
    if m[t][i].Branch? && (t != t0 || i != i0) {
      StepDown(m, w, t, v, o);
      PutLookup(m, w, t0, i0, e, m[t][i].table, v, o - 1);
    }
  }

  lemma PutFormed(m: Tables, w: Owners, t0: nat, i0: nat, e: Entry)
    requires Formed(m, w) && t0 in m && i0 < |m[t0]| && !m[t0][i0].Branch? && !e.Branch?
    ensures Formed(Put(m, t0, i0, e), w)
  {
    var m' := Put(m, t0, i0, e);
    forall t | t in m' ensures Sized(m', w, t) && Hung(m', w, t) {
      assert Sized(m, w, t) && Hung(m, w, t);
    }
    forall t, i | t in m' && 0 <= i < LEAVES && i < |m'[t]| && m'[t][i].Branch? ensures Edge(m', w, t, i) {
      assert Edge(m, w, t, i);
    }
  }

  // ------------------------------------------------------------------ a new table

  ghost function Empty(): (t: Table)
    ensures |t| == LEAVES && forall i :: 0 <= i < LEAVES ==> t[i] == Null
  {
    seq(LEAVES, i => Null)
  }

  ghost function Grow(m: Tables, t: nat, i: nat, u: nat): Tables
    requires t in m && i < |m[t]| && u !in m
  {
    Put(m[u := Empty()], t, i, Branch(u))
  }

  ghost function Settle(w: Owners, t: nat, i: nat, u: nat): Owners
    requires t in w.home && w.home[t].level > 0
  {
    w.(home := w.home[u := Home(SpaceAt(w, t, i), w.home[t].level - 1, w.home[t].slot * LEAVES + i, t)])
  }

  /** The space may grow tables below entry `i` of its table `t`. */
  ghost predicate MayGrow(w: Owners, t: nat, i: nat) {
    t in w.home && w.home[t].level > 0 && SpaceAt(w, t, i) == w.home[t].space && w.home[t].space != w.kernel
  }

  lemma GrowFormed(m: Tables, w: Owners, t0: nat, i0: nat, u: nat)
    requires Formed(m, w) && w.home.Keys == m.Keys && t0 in m && i0 < |m[t0]| && Unused(m[t0][i0]) && u !in m
    requires MayGrow(w, t0, i0) && u != w.kernel
    ensures var m', w' := Grow(m, t0, i0, u), Settle(w, t0, i0, u); Formed(m', w') && w'.home.Keys == m'.Keys
  {
    var m', w' := Grow(m, t0, i0, u), Settle(w, t0, i0, u);
    forall t | t in m' ensures Sized(m', w', t) && Hung(m', w', t) {
      GrowTable(m, w, t0, i0, u, t);
    }
    forall t, i | t in m' && 0 <= i < LEAVES && i < |m'[t]| && m'[t][i].Branch? ensures Edge(m', w', t, i) {
      GrowEdge(m, w, t0, i0, u, t, i);
    }
  }

  lemma GrowTable(m: Tables, w: Owners, t0: nat, i0: nat, u: nat, t: nat)
    requires Formed(m, w) && w.home.Keys == m.Keys && t0 in m && i0 < |m[t0]| && Unused(m[t0][i0]) && u !in m
    requires MayGrow(w, t0, i0) && u != w.kernel && (t in m || t == u)
    ensures var m', w' := Grow(m, t0, i0, u), Settle(w, t0, i0, u); Sized(m', w', t) && Hung(m', w', t)
  {
    assert Sized(m, w, t0);
    if t != u { assert Sized(m, w, t) && Hung(m, w, t); }
  }

  lemma GrowEdge(m: Tables, w: Owners, t0: nat, i0: nat, u: nat, t: nat, i: nat)
    requires Formed(m, w) && w.home.Keys == m.Keys && t0 in m && i0 < |m[t0]| && Unused(m[t0][i0]) && u !in m
    requires MayGrow(w, t0, i0) && u != w.kernel && (t in m || t == u)
    requires var m' := Grow(m, t0, i0, u); i < LEAVES && i < |m'[t]| && m'[t][i].Branch?
    ensures Edge(Grow(m, t0, i0, u), Settle(w, t0, i0, u), t, i)
  {
    assert Sized(m, w, t0);
    if t != t0 || i != i0 {
      assert t != u;
      assert Edge(m, w, t, i);
    }
  }

  /** A new empty table changes no lookup. */
  lemma {:induction false} GrowLookup(m: Tables, w: Owners, t0: nat, i0: nat, u: nat, t: nat, v: Vpn, o: nat)
    requires Formed(m, w) && t0 in m && i0 < |m[t0]| && Unused(m[t0][i0]) && u !in m
    requires t in m && Serves(w, t, v, o) && o <= 2
    ensures Lookup(Grow(m, t0, i0, u), t, v, o) == Lookup(m, t, v, o)
    decreases o
  {
    assert Sized(m, w, t);
    if m[t][Index(v, o)].Branch? {
      StepDown(m, w, t, v, o);
      GrowLookup(m, w, t0, i0, u, m[t][Index(v, o)].table, v, o - 1);
    }
  }

  /** The way to `v` that ended at entry `i0` of table `t0` now goes on to the new table. */
  lemma {:induction false} GrowReach(m: Tables, w: Owners, t0: nat, u: nat, t: nat, v: Vpn, o: nat, l: nat)
    requires Formed(m, w) && t in m && Serves(w, t, v, o) && 0 < l <= o <= 2 && u !in m
    requires t0 in m && |m[t0]| == LEAVES && Unused(m[t0][Index(v, l)]) && Reach(m, t, v, o, l) == Some(t0)
    ensures Reach(Grow(m, t0, Index(v, l), u), t, v, o, l - 1) == Some(u)
    decreases o
  {
    assert Sized(m, w, t);
    if l == o {
      assert Reach(Grow(m, t0, Index(v, l), u), u, v, l - 1, l - 1) == Some(u);
    } else {
      StepDown(m, w, t, v, o);
      assert w.home[t0].level == l by { ReachServes(m, w, t, v, o, l); }
      GrowReach(m, w, t0, u, m[t][Index(v, o)].table, v, o - 1, l);
    }
  }

  // ---------------------------------------------------------------- whole address spaces

  ghost predicate IsRoot(w: Owners, r: nat) {
    r in w.home && w.home[r].level == 2 && w.home[r].slot == 0
  }

  /** What the address space `r` maps page `v` to. */
  ghost function Find(m: Tables, r: nat, v: Vpn): Option<Hit> {
    Lookup(m, r, v, 2)
  }

  lemma RootServes(w: Owners, r: nat, v: Vpn)
    requires IsRoot(w, r)
    ensures Serves(w, r, v, 2)
  {
    SlotSplits(v, 2);
  }

  /** All address spaces map the same pages to the same places. */
  ghost predicate SameMaps(m: Tables, w: Owners, m': Tables) {
    forall r, v: Vpn :: r in m && IsRoot(w, r) ==> Find(m', r, v) == Find(m, r, v)
  }

  lemma GrowSame(m: Tables, w: Owners, t0: nat, i0: nat, u: nat)
    requires Formed(m, w) && t0 in m && i0 < |m[t0]| && Unused(m[t0][i0]) && u !in m
    ensures SameMaps(m, w, Grow(m, t0, i0, u))
  {
    forall r, v: Vpn | r in m && IsRoot(w, r) ensures Find(Grow(m, t0, i0, u), r, v) == Find(m, r, v) {
      RootServes(w, r, v);
      GrowLookup(m, w, t0, i0, u, r, v, 2);
    }
  }

  /** Gravestones are as good as empty entries. */
  lemma BurySame(m: Tables, w: Owners, t0: nat, i0: nat, e: Entry)
    requires Formed(m, w) && t0 in m && i0 < |m[t0]| && Unused(m[t0][i0]) && Unused(e)
    ensures SameMaps(m, w, Put(m, t0, i0, e)) && Formed(Put(m, t0, i0, e), w)
  {
    assert Sized(m, w, t0);
    PutFormed(m, w, t0, i0, e);
    forall r, v: Vpn | r in m && IsRoot(w, r) ensures Find(Put(m, t0, i0, e), r, v) == Find(m, r, v) {
      RootServes(w, r, v);
      PutLookup(m, w, t0, i0, e, r, v, 2);
      if w.home[t0].level <= 2 && Covers(w, t0, i0, v) && Reach(m, r, v, 2, w.home[t0].level) == Some(t0) {
        ReachServes(m, w, r, v, 2, w.home[t0].level);
        CoversIndex(w, t0, i0, v, w.home[t0].level);
      }
    }
  }

  /** Addresses in one page of order `l` share the way down to level `l`. */
  lemma {:induction false} SameWay(m: Tables, t: nat, v: Vpn, x: Vpn, o: nat, l: nat)
    requires l <= o <= 2 && SamePage(v, x, l)
    ensures Reach(m, t, v, o, l) == Reach(m, t, x, o, l) && Index(v, l) == Index(x, l) && SamePage(v, x, o)
    decreases o
  {
    SlotSplits(v, l);
    SlotSplits(x, l);
    SlotSplits(v, o);
    SlotSplits(x, o);
    NestedPages(v, x, l, o);
    if l < o && t in m && |m[t]| == LEAVES && m[t][Index(v, o)].Branch? {
      SameWay(m, m[t][Index(v, o)].table, v, x, o - 1, l);
    }
  }

  lemma NestedPages(v: Vpn, x: Vpn, l: nat, o: nat)
    requires l <= o <= 2 && SamePage(v, x, l)
    ensures SamePage(v, x, o)
  {
    SlotSplits(v, l);
    SlotSplits(x, l);
    if l + 1 < o {
      SlotSplits(v, l + 1);
      SlotSplits(x, l + 1);
    }
  }

  /**
   Writing a leaf, or wiping one, at the entry that ends the way to `v`: in this address space exactly the
   page around `v` changes, and in no other address space anything outside that page.
   */
  lemma PutLeaf(m: Tables, w: Owners, root: nat, v: Vpn, l: nat, t: nat, e: Entry)
    requires Formed(m, w) && root in m && IsRoot(w, root) && l <= 2 && Reach(m, root, v, 2, l) == Some(t)
    requires |m[t]| == LEAVES && !m[t][Index(v, l)].Branch? && !e.Branch?
    ensures Formed(Put(m, t, Index(v, l), e), w)
    ensures forall x: Vpn :: Find(Put(m, t, Index(v, l), e), root, x) == (if SamePage(v, x, l) then Below(m, e, x, l)
        else Find(m, root, x))
    ensures forall x: Vpn :: SamePage(v, x, l) ==> Find(m, root, x) == Below(m, m[t][Index(v, l)], x, l)
    ensures forall r, x: Vpn :: r in m && IsRoot(w, r) && !SamePage(v, x, l) ==>
        Find(Put(m, t, Index(v, l), e), r, x) == Find(m, r, x)
  {
    var i := Index(v, l);
    RootServes(w, root, v);
    ReachServes(m, w, root, v, 2, l);
    PutFormed(m, w, t, i, e);
    SlotSplits(v, l);
    forall x: Vpn | SamePage(v, x, l)
      ensures Find(Put(m, t, i, e), root, x) == Below(m, e, x, l) && Find(m, root, x) == Below(m, m[t][i], x, l)
    {
      RootServes(w, root, x);
      SameWay(m, root, v, x, 2, l);
      ReachServes(m, w, root, x, 2, l);
      PutLookup(m, w, t, i, e, root, x, 2);
    }
    forall r, x: Vpn | r in m && IsRoot(w, r) && !SamePage(v, x, l) ensures Find(Put(m, t, i, e), r, x) == Find(m, r,
        x) {
      RootServes(w, r, x);
      PutLookup(m, w, t, i, e, r, x, 2);
    }
  }

  // ------------------------------------------------------------- shared subtrees

  /**
   A table one level below the top, of a space other than the kernel's, is where the top level table of that space
   says.
   */
  lemma MidPlace(m: Tables, w: Owners, u: nat)
    requires Formed(m, w) && u in m && w.home[u].level == 1 && w.home[u].space != w.kernel
    ensures var h := w.home[u]; h.space in m && |m[h.space]| == LEAVES && m[h.space][h.slot % LEAVES] == Branch(u)
  {
    assert Hung(m, w, u) && Sized(m, w, w.home[u].parent);
  }

  /** If the ways of two spaces meet in one table, they do so from the top. */
  lemma MeetingTops(m: Tables, w: Owners, root: nat, r: nat, v: Vpn, x: Vpn, l: nat, b: nat)
    requires Formed(m, w) && root in m && IsRoot(w, root) && r in m && IsRoot(w, r) && l < 2 && SamePage(v, x, l)
    requires Reach(m, root, v, 2, l) == Some(b) && Reach(m, r, x, 2, l) == Some(b)
    requires SpaceAt(w, root, Index(v, 2)) != w.kernel
    ensures |m[r]| == LEAVES && |m[root]| == LEAVES && Index(x, 2) == Index(v, 2)
        && m[r][Index(v, 2)] == m[root][Index(v, 2)]
  {
    var i := Index(v, 2);
    Full(m, w, root);
    Full(m, w, r);
    var u1, u2 := m[root][i].table, m[r][i].table;
    RootServes(w, root, v);
    RootServes(w, r, x);
    StepDown(m, w, root, v, 2);
    StepDown(m, w, r, x, 2);
    assert Edge(m, w, root, i) && Edge(m, w, r, i);
    if l == 0 {
      Full(m, w, u1);
      Full(m, w, u2);
      assert Edge(m, w, u1, Index(v, 1)) && Edge(m, w, u2, Index(v, 1));
      MidPlace(m, w, u1);
      MidPlace(m, w, u2);
    }
  }

  /**
   What another address space sees of a page that is written in this one: the same, if it has the same top level entry
   there, and otherwise what it saw before.
   */
  lemma PutShared(m: Tables, w: Owners, root: nat, v: Vpn, l: nat, b: nat, e: Entry, r: nat, x: Vpn)
    requires Formed(m, w) && root in m && IsRoot(w, root) && r in m && IsRoot(w, r) && r != root && l <= 2
        && SamePage(v, x, l)
    requires Reach(m, root, v, 2, l) == Some(b) && b in m && |m[b]| == LEAVES
        && SpaceAt(w, root, Index(v, 2)) != w.kernel
    ensures var m', i := Put(m, b, Index(v, l), e), Index(v, 2);
            && |m'[r]| == LEAVES && |m'[root]| == LEAVES
            && Find(m', r, x) == if m'[r][i] == m'[root][i] then Find(m', root, x) else Find(m, r, x)
  {
    var m', i := Put(m, b, Index(v, l), e), Index(v, 2);
    Full(m, w, root);
    Full(m, w, r);
    SameTopIndex(v, x, l);
    if m'[r][i] != m'[root][i] {
      RootServes(w, root, v);
      ReachServes(m, w, root, v, 2, l);
      RootServes(w, r, x);
      PutLookup(m, w, b, Index(v, l), e, r, x, 2);
      if l < 2 && Reach(m, r, x, 2, l) == Some(b) { MeetingTops(m, w, root, r, v, x, l, b); }
    }
  }

  lemma SameTopIndex(v: Vpn, x: Vpn, l: nat)
    requires SamePage(v, x, l) && l <= 2
    ensures Index(v, 2) == Index(x, 2)
  {
    if l == 1 {
      SlotSplits(v, 1);
      SlotSplits(x, 1);
      hide Slot;
    }
  }
}
