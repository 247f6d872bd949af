/**
 arch/riscv64/kernel/vmem.c: mapping, unmapping and looking up pages in a memory of page tables, with
 the gravestones that keep the user half of every top level table a prefix of entries.
 */
module Vmem {
  import opened Common
  import opened PageTable

  datatype Status = Ok | ErrOomem | ErrInval | ErrNotFound

  /** The entry of level `level` that the lookup of a page ended at. */
  datatype Cell = Cell(table: nat, index: nat, level: nat)

  /** The user half is a run of non-empty entries followed only by empty ones. */
  ghost predicate Packed(t: Table) {
    forall i, j :: 0 <= i < j < CSTACK_PAGE && j < |t| && t[i] == Null ==> t[j] == Null
  }

  /** Every gravestone of the user half has an active entry somewhere above it. */
  ghost predicate Marked(t: Table) {
    forall i :: 0 <= i < CSTACK_PAGE && i < |t| && t[i] == Grave ==> ActiveAbove(t, i)
  }

  ghost predicate ActiveAbove(t: Table, i: int) {
    exists j :: i < j < CSTACK_PAGE && 0 <= j < |t| && !Unused(t[j])
  }

  /** `__add_graves`: the unused entries right below `idx`, down to an active one, have become gravestones. */
  ghost predicate Buried(t: Table, u: Table, idx: nat) {
    if idx >= CSTACK_PAGE then u == t else exists s :: BuriedDownTo(t, u, idx, s)
  }

  ghost predicate BuriedDownTo(t: Table, u: Table, idx: nat, s: int) {
    && |t| == LEAVES && |u| == LEAVES && -1 <= s < idx <= LEAVES && (s >= 0 ==> !Unused(t[s]))
    && (forall j :: s < j < idx ==> Unused(t[j]) && u[j] == Grave)
    && (forall j :: 0 <= j < LEAVES && !(s < j < idx) ==> u[j] == t[j])
  }

  /** `__remove_graves`: unless something follows `idx`, the gravestones from `idx` downward have gone. */
  ghost predicate Trimmed(t: Table, u: Table, idx: nat) {
    && |t| == LEAVES && idx < LEAVES
    && if idx >= CSTACK_PAGE || t[idx + 1] != Null then u == t else exists s :: TrimmedDownTo(t, u, idx, s)
  }

  ghost predicate TrimmedDownTo(t: Table, u: Table, idx: nat, s: int) {
    && |t| == LEAVES && |u| == LEAVES && -1 <= s <= idx < LEAVES && (s >= 0 ==> t[s] != Grave)
    && (forall j :: s < j <= idx ==> t[j] == Grave && u[j] == Null)
    && (forall j :: 0 <= j < LEAVES && !(s < j <= idx) ==> u[j] == t[j])
  }

  /**
   Gravestones below a new active entry: the prefix is whole again, and every gravestone has an active entry above.
   */
  lemma BuriedKeeps(t0: Table, t1: Table, u: Table, idx: nat)
    requires |t0| == LEAVES && idx < LEAVES && |t1| == LEAVES && !Unused(t1[idx]) && t1 == t0[idx := t1[idx]]
        && Buried(t1, u, idx)
    ensures (Packed(t0) ==> Packed(u)) && (Marked(t0) ==> Marked(u))
  {
    if idx < CSTACK_PAGE {
      var s :| BuriedDownTo(t1, u, idx, s);
      forall i | Marked(t0) && 0 <= i < CSTACK_PAGE && u[i] == Grave ensures ActiveAbove(u, i) {
        if i < idx { assert !Unused(u[idx]); } else { MarkedAt(t0, u, i); }
      }
    } else {
      forall i | Marked(t0) && 0 <= i < CSTACK_PAGE && u[i] == Grave ensures ActiveAbove(u, i) { MarkedAt(t0, u, i); }
    }
  }

  lemma BuriedSpares(t: Table, u: Table, idx: nat)
    requires |t| == LEAVES && idx < LEAVES && Buried(t, u, idx)
    ensures |u| == LEAVES && u[idx] == t[idx]
  {
  }

  lemma TrimmedSpares(t: Table, u: Table, idx: nat)
    requires Trimmed(t, u, idx)
    ensures |u| == LEAVES && (u[idx] == t[idx] || (t[idx] == Grave && u[idx] == Null))
  {
  }

  lemma MarkedAt(t: Table, u: Table, i: nat)
    requires Marked(t) && i < CSTACK_PAGE && |t| == LEAVES && |u| == LEAVES && t[i] == Grave
    requires forall j :: i < j < CSTACK_PAGE && !Unused(t[j]) ==> !Unused(u[j])
    ensures ActiveAbove(u, i)
  {
    assert ActiveAbove(t, i);
    var j :| i < j < CSTACK_PAGE && 0 <= j < |t| && !Unused(t[j]);
    assert !Unused(u[j]);
  }

  /** The top level entry `idx`, active before, was wiped or not; then the graves were removed. */
  lemma TrimmedPacked(t0: Table, t1: Table, u: Table, idx: nat)
    requires |t0| == LEAVES && idx < LEAVES && !Unused(t0[idx]) && (t1 == t0 || t1 == t0[idx := Grave])
        && Trimmed(t1, u, idx)
    requires Packed(t0)
    ensures Packed(u)
  {
    GravePacked(t0, idx);
    if idx < CSTACK_PAGE && t1[idx + 1] == Null {
      var s :| TrimmedDownTo(t1, u, idx, s);
    }
  }

  /**
   The gravestones keep their meaning, except when the last user entry is wiped and the stack area behind it is in
   use.
   */
  lemma TrimmedMarked(t0: Table, t1: Table, u: Table, idx: nat)
    requires |t0| == LEAVES && idx < LEAVES && !Unused(t0[idx]) && (t1 == t0 || t1 == t0[idx := Grave])
        && Trimmed(t1, u, idx)
    requires Packed(t0) && Marked(t0)
    ensures Marked(u) <==> !(t1 != t0 && idx == CSTACK_PAGE - 1 && t0[CSTACK_PAGE] != Null)
  {
    if t1 == t0 {
      TrimmedSame(t0, u, idx);
    } else if idx >= CSTACK_PAGE {
      forall i | 0 <= i < CSTACK_PAGE && u[i] == Grave ensures ActiveAbove(u, i) { MarkedAt(t0, u, i); }
    } else if t1[idx + 1] != Null {
      WipedInside(t0, u, idx);
    } else {
      var s :| TrimmedDownTo(t1, u, idx, s);
      forall i | 0 <= i < CSTACK_PAGE && u[i] == Grave ensures ActiveAbove(u, i) {
        assert i < s;
        assert t1[s] != Null;
      }
    }
  }

  lemma TrimmedSame(t: Table, u: Table, idx: nat)
    requires Trimmed(t, u, idx) && !Unused(t[idx])
    ensures u == t
  {
    if idx < CSTACK_PAGE && t[idx + 1] == Null {
      var s :| TrimmedDownTo(t, u, idx, s);
      assert s == idx;
    }
  }

  lemma WipedInside(t0: Table, u: Table, idx: nat)
    requires |t0| == LEAVES && idx < CSTACK_PAGE && u == t0[idx := Grave] && t0[idx + 1] != Null && Packed(t0)
        && Marked(t0)
    ensures Marked(u) <==> idx + 1 < CSTACK_PAGE
  {
    if idx + 1 < CSTACK_PAGE {
      assert ActiveAbove(u, idx) by {
        if t0[idx + 1] == Grave { MarkedAt(t0, u, idx + 1); } else { assert !Unused(u[idx + 1]); }
      }
      var top :| idx < top < CSTACK_PAGE && 0 <= top < |u| && !Unused(u[top]);
      forall i | 0 <= i < CSTACK_PAGE && u[i] == Grave ensures ActiveAbove(u, i) {
        if i <= idx { assert !Unused(u[top]); } else { MarkedAt(t0, u, i); }
      }
    } else {
      assert u[idx] == Grave && !ActiveAbove(u, idx);
    }
  }

  /** How many tables the way to `v` lacks down to level `order`. */
  ghost function Missing(m: Tables, t: nat, v: Vpn, o: nat, order: nat): nat
    requires order <= o <= 2
    decreases o
  {
    if o == order || t !in m || |m[t]| != LEAVES then 0
    else if m[t][Index(v, o)].Branch? then Missing(m, m[t][Index(v, o)].table, v, o - 1, order)
    else o - order
  }

  lemma {:induction false} MissingReach(m: Tables, t: nat, v: Vpn, o: nat, l: nat, order: nat)
    requires order <= l <= o <= 2 && Reach(m, t, v, o, l).Some?
    ensures Missing(m, t, v, o, order) == Missing(m, Reach(m, t, v, o, l).value, v, l, order)
    decreases o
  {
    if l < o { MissingReach(m, m[t][Index(v, o)].table, v, o - 1, l, order); }
  }

  lemma MissingDown(m: Tables, t: nat, v: Vpn, o: nat, order: nat)
    requires order < o <= 2 && t in m && |m[t]| == LEAVES
    ensures Missing(m, t, v, o, order) ==
            if m[t][Index(v, o)].Branch? then Missing(m, m[t][Index(v, o)].table, v, o - 1, order) else o - order
  {
  }

  lemma MissingBelowEmpty(m: Tables, t: nat, v: Vpn, o: nat, order: nat)
    requires order <= o <= 2 && t in m && m[t] == Empty()
    ensures Missing(m, t, v, o, order) == o - order
  {
  }

  lemma MissingNone(m: Tables, t: nat, v: Vpn, o: nat)
    requires o <= 2
    ensures Missing(m, t, v, o, o) == 0
  {
  }

  /** Tables made on the way to `v` do not change whether its entry is taken. */
  lemma {:induction false} TakenStays(m: Tables, m': Tables, root: nat, v: Vpn, order: nat, b: nat)
    requires order <= 2 && root in m && |m[root]| == LEAVES && Reach(m', root, v, 2, order) == Some(b)
    requires m' == m || (b in m' && m'[b] == Empty() && Missing(m, root, v, 2, order) > 0)
    ensures Taken(m', root, v, order) <==> Taken(m, root, v, order)
  {
    if m' != m { MissingUnreached(m, root, v, 2, order); }
  }

  lemma {:induction false} MissingUnreached(m: Tables, t: nat, v: Vpn, o: nat, order: nat)
    requires order <= o <= 2 && Missing(m, t, v, o, order) > 0
    ensures Reach(m, t, v, o, order).None?
    decreases o
  {
    if m[t][Index(v, o)].Branch? { MissingUnreached(m, m[t][Index(v, o)].table, v, o - 1, order); }
  }

  ghost function Elements(s: seq<nat>): set<nat> {
    set x | x in s
  }

  /** The new tables are at pages drawn from the front of the supply, and no page is drawn for anything else. */
  ghost predicate Drawn(m: Tables, avail: seq<nat>, m': Tables, avail': seq<nat>) {
    && |avail'| <= |avail| && avail' == avail[|avail| - |avail'|..]
    && m'.Keys == m.Keys + Elements(avail[..|avail| - |avail'|])
  }

  lemma DrawnNone(m: Tables, avail: seq<nat>)
    ensures Drawn(m, avail, m, avail)
  {
  }

  lemma DrawnOne(m: Tables, avail: seq<nat>, m1: Tables, avail1: seq<nat>, m2: Tables)
    requires Drawn(m, avail, m1, avail1) && avail1 != [] && m2.Keys == m1.Keys + {avail1[0]}
    ensures Drawn(m, avail, m2, avail1[1..])
  {
    var n := |avail| - |avail1|;
    assert avail[..n + 1] == avail[..n] + [avail1[0]];
  }

  lemma DrawnKeys(m: Tables, avail: seq<nat>, m1: Tables, m2: Tables, avail': seq<nat>)
    requires Drawn(m, avail, m1, avail') && m2.Keys == m1.Keys
    ensures Drawn(m, avail, m2, avail')
  {
  }

  /** The entry of level `order` for `v` exists and is taken. */
  ghost predicate Taken(m: Tables, root: nat, v: Vpn, order: nat)
    requires order <= 2
  {
    var r := Reach(m, root, v, 2, order);
    r.Some? && r.value in m && |m[r.value]| == LEAVES && !Unused(m[r.value][Index(v, order)])
  }

  /** Where nothing is mapped, no entry of the lowest level is taken. */
  lemma NotTakenAtBase(m: Tables, w: Owners, root: nat, v: Vpn)
    requires Formed(m, w) && root in m && IsRoot(w, root) && Find(m, root, v) == None
    ensures !Taken(m, root, v, 0)
  {
    var r := Reach(m, root, v, 2, 0);
    if r.Some? {
      RootServes(w, root, v);
      ReachServes(m, w, root, v, 2, 0);
      Full(m, w, r.value);
      if m[r.value][Index(v, 0)].Branch? { StepDown(m, w, r.value, v, 0); }
    }
  }

  /**
   Tables for `v` may be made below the top level table `root`: its own part of the address space, not the kernel's.
   */
  ghost predicate MayMap(w: Owners, root: nat, v: Vpn) {
    IsRoot(w, root) && w.home[root].space == root && root != w.kernel && SpaceAt(w, root, Index(v, 2)) == root
  }

  /** Nothing that covers more than a page of order `order` is mapped at `v`. */
  ghost predicate NoLarger(m: Tables, root: nat, v: Vpn, order: nat) {
    var h := Find(m, root, v);
    h.Some? ==> h.value.order <= order
  }

  /** The user half of every address space is a prefix of entries. */
  ghost predicate AllPacked(m: Tables, w: Owners) {
    forall r :: r in m && IsRoot(w, r) ==> Packed(m[r])
  }

  /** `w'` knows the same address spaces as `w`, and maybe more tables. */
  ghost predicate Extends(w: Owners, w': Owners) {
    && w'.user == w.user && w'.kernel == w.kernel
    && (forall t :: t in w.home ==> t in w'.home && w'.home[t] == w.home[t])
    && (forall t :: t in w'.home && t !in w.home ==> w'.home[t].level < 2)
  }

  /** A new table `u` on the way to `v`. */
  lemma GrowStep(m: Tables, w: Owners, root: nat, v: Vpn, l: nat, t: nat, u: nat)
    requires Formed(m, w) && w.home.Keys == m.Keys && root in m && MayMap(w, root, v) && 0 < l <= 2
    requires Reach(m, root, v, 2, l) == Some(t) && t in m && w.home[t].space == root
    requires |m[t]| == LEAVES && Unused(m[t][Index(v, l)]) && u !in m && u != w.kernel
    ensures w.home[t].level == l
    ensures var m', w' := Grow(m, t, Index(v, l), u), Settle(w, t, Index(v, l), u);
            && Formed(m', w') && w'.home.Keys == m'.Keys && SameMaps(m, w, m') && Extends(w, w')
            && Reach(m', root, v, 2, l - 1) == Some(u) && m'[u] == Empty() && w'.home[u].space == root
            && MayMap(w', root, v) && Missing(m', u, v, l - 1, l - 1) == 0
  {
    RootServes(w, root, v);
    ReachServes(m, w, root, v, 2, l);
    assert l == 2 ==> t == root;
    GrowFormed(m, w, t, Index(v, l), u);
    GrowSame(m, w, t, Index(v, l), u);
    GrowReach(m, w, t, u, root, v, 2, l);
  }

  class PageTables {
    var tables: Tables
    /** Pages the physical allocator can still hand out for tables. */
    var avail: seq<nat>
    ghost var own: Owners

    ghost predicate Valid()
      reads this
    {
      && Formed(tables, own) && own.home.Keys == tables.Keys
      && (forall i :: 0 <= i < |avail| ==> avail[i] !in tables && avail[i] != own.kernel)
      && (forall i, j :: 0 <= i < j < |avail| ==> avail[i] != avail[j])
    }

    /** A supply of pages, and the statically allocated table that maps the kernel. */
    constructor (kernel: nat, pages: seq<nat>)
      requires forall i, j :: 0 <= i < j < |pages| ==> pages[i] != pages[j]
      requires kernel !in pages
      ensures Valid() && avail == pages && own.kernel == kernel && tables.Keys == {kernel}
      ensures own.home[kernel].level == 1 && own.home[kernel].slot == KERNEL_PAGE
    {
      tables := map[kernel := seq(LEAVES, i => Null)];
      avail := pages;
      own := Owners(map[kernel := Home(kernel, 1, KERNEL_PAGE, kernel)], map[], kernel);
    }

    /** `__find_vmem` */
    method FindEntry(root: nat, v: Vpn) returns (r: Option<Cell>)
      requires Valid() && root in tables && IsRoot(own, root)
      ensures r.None? <==> Find(tables, root, v).None?
      ensures r.Some? ==>
                var c := r.value;
                && c.level <= 2 && Reach(tables, root, v, 2, c.level) == Some(c.table) && c.index == Index(v, c.level)
                && c.table in tables && |tables[c.table]| == LEAVES && tables[c.table][c.index].Leaf?
                && Find(tables, root, v) == Below(tables, tables[c.table][c.index], v, c.level)
    {
      hide Formed;
      RootServes(own, root, v);
      Full(tables, own, root);
      var b, top := root, 2;
      while true
        invariant 0 <= top <= 2 && b in tables && Reach(tables, root, v, 2, top) == Some(b)
        invariant Serves(own, b, v, top) && Find(tables, root, v) == Lookup(tables, b, v, top)
        decreases top
      {
        var idx := Index(v, top);
        var e := tables[b][idx];
        if Unused(e) {
          return None;
        }
        if e.Leaf? {
          return Some(Cell(b, idx, top));
        }
        // a branch of level 0, at which the source gives up, does not exist
        StepDown(tables, own, b, v, top);
        ReachNext(tables, root, v, 2, top);
        Full(tables, own, e.table);
        b := e.table;
        top := top - 1;
      }
    }

    /** Lines 230-236: a new empty table below an unused entry. */
    method MakeTable(root: nat, v: Vpn, top: nat, b: nat) returns (u: nat)
      requires Valid() && root in tables && MayMap(own, root, v) && 0 < top <= 2 && avail != []
      requires b in tables && Reach(tables, root, v, 2, top) == Some(b) && own.home[b].space == root
      requires |tables[b]| == LEAVES && Unused(tables[b][Index(v, top)])
      modifies this
      ensures Valid() && Extends(old(own), own) && SameMaps(old(tables), old(own), tables) && MayMap(own, root, v)
      ensures u == old(avail)[0] && u !in old(tables) && tables == Grow(old(tables), b, Index(v, top), u)
          && avail == old(avail)[1..]
      ensures u in tables && Reach(tables, root, v, 2, top - 1) == Some(u) && own.home[u].space == root
    {
      hide Formed;
      var idx := Index(v, top);
      u := avail[0];
      GrowStep(tables, own, root, v, top, b, u);
      own := Settle(own, b, idx, u);
      tables := Put(tables[u := seq(LEAVES, i => Null)], b, idx, Branch(u));
      avail := avail[1..];
    }

    /** Lines 224-240: walk down to the table of level `order` for `v`, making the tables that are missing. */
    method Descend(root: nat, v: Vpn, order: nat) returns (ok: bool, b: nat)
      requires Valid() && root in tables && MayMap(own, root, v) && order <= 2 && NoLarger(tables, root, v, order)
      modifies this
      ensures Valid() && Extends(old(own), own) && SameMaps(old(tables), old(own), tables)
      ensures ok <==> old(Missing(tables, root, v, 2, order)) <= |old(avail)|
      ensures Drawn(old(tables), old(avail), tables, avail)
      ensures ok ==> |avail| + old(Missing(tables, root, v, 2, order)) == |old(avail)|
      ensures !ok ==> avail == [] && Missing(tables, root, v, 2, order) > 0
      ensures ok ==> b in tables && Reach(tables, root, v, 2, order) == Some(b) && own.home[b].space == root
      ensures ok ==> (Taken(tables, root, v, order) <==> old(Taken(tables, root, v, order)))
      ensures OnlyTop(old(tables), tables, root, Index(v, 2)) && OtherTops(old(tables), old(own), tables, root)
      ensures tables[root] != old(tables[root]) <==>
          order < 2 && Unused(old(tables[root][Index(v, 2)])) && old(avail) != []
    {
      hide Formed, SameMaps, Extends, OtherTops, NoLarger, MayMap, Missing, Taken, Drawn;
      ghost var m, w := tables, own;
      var top := 2;
      b := root;
      SameTops(m, w, root);
      MayMapRoot(w, root, v);
      RootServes(own, root, v);
      Full(tables, own, root);
      Reflexive(m, w);
      DrawnNone(m, avail);
      while top != order
        invariant order <= top <= 2 && Valid() && b in tables && Reach(tables, root, v, 2, top) == Some(b)
        invariant own.home[b].space == root && MayMap(own, root, v) && Extends(w, own) && SameMaps(m, w, tables)
        invariant Missing(tables, b, v, top, order) + |old(avail)| - |avail| == Missing(m, root, v, 2, order)
        invariant Drawn(m, old(avail), tables, avail)
        invariant |avail| <= |old(avail)| && (tables == m <==> avail == old(avail))
            && (|avail| == |old(avail)| ==> avail == old(avail))
        invariant tables == m || (tables[b] == Empty() && Missing(m, root, v, 2, order) > 0)
        invariant OnlyTop(m, tables, root, Index(v, 2)) && OtherTops(m, w, tables, root) && (top == 2 ==> tables == m)
        invariant top < 2 ==> (tables[root] != m[root] <==> Unused(m[root][Index(v, 2)]))
        decreases top
      {
        var idx := Index(v, top);
        ghost var m1, w1, avail1 := tables, own, avail;
        MayMapRoot(own, root, v);
        Full(tables, own, b);
        NotLarger(m, w, tables, own, root, v, top, order);
        ReachNext(tables, root, v, 2, top);
        MissingDown(tables, b, v, top, order);
        if Unused(tables[b][idx]) {
          if avail == [] {
            MissingReach(tables, root, v, 2, top, order);
            return false, b;
          }
          GrowOther(m, w, m1, w1, root, b, idx, avail[0]);
          b := MakeTable(root, v, top, b);
          MissingBelowEmpty(tables, b, v, top - 1, order);
          DrawnOne(m, old(avail), m1, avail1, tables);
          Transitive(m, w, m1, w1, tables, own);
        } else {
          b := tables[b][idx].table;
          Full(tables, own, b);
        }
        top := top - 1;
      }
      MissingNone(tables, b, v, order);
      TakenStays(m, tables, root, v, order, b);
      ok := true;
    }

    /** Write `Grave` or `Null` over an unused entry of a top level table. */
    method Bury(root: nat, i: nat, e: Entry)
      requires Valid() && root in tables && IsRoot(own, root) && i < |tables[root]| && Unused(tables[root][i])
          && Unused(e)
      modifies this`tables
      ensures Valid() && tables == Put(old(tables), root, i, e) && SameMaps(old(tables), own, tables)
    {
      hide Formed;
      BurySame(tables, own, root, i, e);
      tables := Put(tables, root, i, e);
    }

    /** `__add_graves` */
    method AddGraves(root: nat, idx: nat)
      requires Valid() && root in tables && IsRoot(own, root) && idx < LEAVES && |tables[root]| == LEAVES
      modifies this`tables
      ensures Valid() && tables.Keys == old(tables.Keys) && SameMaps(old(tables), own, tables)
      ensures OtherTops(old(tables), own, tables, root) && Buried(old(tables[root]), tables[root], idx)
          && OnlyRoot(old(tables), tables, root)
    {
      hide Formed, SameMaps;
      Reflexive(tables, own);
      if idx >= CSTACK_PAGE {
        return;
      }
      ghost var t1 := tables[root];
      var i := idx - 1;
      while i >= 0
        invariant -1 <= i < idx && Valid() && tables.Keys == old(tables.Keys) && SameMaps(old(tables), own, tables)
        invariant |tables[root]| == LEAVES && OnlyRoot(old(tables), tables, root)
        invariant forall j :: i < j < idx ==> Unused(t1[j]) && tables[root][j] == Grave
        invariant forall j :: 0 <= j < LEAVES && !(i < j < idx) ==> tables[root][j] == t1[j]
      {
        if !Unused(tables[root][i]) {
          assert BuriedDownTo(t1, tables[root], idx, i);
          return;
        }
        ghost var m1 := tables;
        Bury(root, i, Grave);
        Transitive(old(tables), own, m1, own, tables, own);
        i := i - 1;
      }
      assert BuriedDownTo(t1, tables[root], idx, -1);
    }

    /** `__remove_graves` */
    method RemoveGraves(root: nat, idx: nat)
      requires Valid() && root in tables && IsRoot(own, root) && idx < LEAVES && |tables[root]| == LEAVES
      modifies this`tables
      ensures Valid() && tables.Keys == old(tables.Keys) && SameMaps(old(tables), own, tables)
      ensures OtherTops(old(tables), own, tables, root) && Trimmed(old(tables[root]), tables[root], idx)
          && OnlyRoot(old(tables), tables, root)
    {
      hide Formed, SameMaps;
      Reflexive(tables, own);
      if idx >= CSTACK_PAGE || tables[root][idx + 1] != Null {
        return;
      }
      ghost var t1 := tables[root];
      var i := idx;
      while i >= 0
        invariant -1 <= i <= idx && Valid() && tables.Keys == old(tables.Keys) && SameMaps(old(tables), own, tables)
        invariant |tables[root]| == LEAVES && OnlyRoot(old(tables), tables, root)
        invariant forall j :: i < j <= idx ==> t1[j] == Grave && tables[root][j] == Null
        invariant forall j :: 0 <= j < LEAVES && !(i < j <= idx) ==> tables[root][j] == t1[j]
      {
        if tables[root][i] != Grave {
          assert TrimmedDownTo(t1, tables[root], idx, i);
          return;
        }
        ghost var m1 := tables;
        Bury(root, i, Null);
        Transitive(old(tables), own, m1, own, tables, own);
        i := i - 1;
      }
      assert TrimmedDownTo(t1, tables[root], idx, -1);
    }

    /** Lines 246-248: the entry is written. */
    method PutEntry(root: nat, v: Vpn, order: nat, t: nat, e: Entry)
      requires Valid() && root in tables && IsRoot(own, root) && order <= 2
          && Reach(tables, root, v, 2, order) == Some(t)
      requires |tables[t]| == LEAVES && !tables[t][Index(v, order)].Branch? && !e.Branch?
      modifies this`tables
      ensures Valid() && t in old(tables) && tables == Put(old(tables), t, Index(v, order), e)
      ensures (t == root <==> order == 2) && OtherTops(old(tables), own, tables, root)
      ensures Unused(old(tables)[t][Index(v, order)]) && e.Leaf? ==>
          Mapped(old(tables), own, tables, root, v, order, Hit(e.page, order, e.flags))
      ensures e.Grave? ==> Unmapped(old(tables), own, tables, root, v, order)
      ensures SpaceAt(own, root, Index(v, 2)) != own.kernel ==>
                Reflected(old(tables), own, tables, root, v, order, if e.Leaf? then Some(Hit(e.page, order, e.flags))
                    else None)
    {
      hide Formed, Reflected;
      PutLeaf(tables, own, root, v, order, t, e);
      if SpaceAt(own, root, Index(v, 2)) != own.kernel { PutReflects(tables, own, root, v, order, t, e); }
      RootServes(own, root, v);
      ReachServes(tables, own, root, v, 2, order);
      tables := Put(tables, t, Index(v, order), e);
    }

    /**
     Lines 246-251: the entry and the gravestones below its top level entry; `t0` is the top level table before tables
     were made.
     */
    method WritePage(root: nat, page: nat, v: Vpn, flags: bv8, order: nat, b: nat, ghost t0: Table)
      requires Valid() && root in tables && IsRoot(own, root) && order <= 2
          && Reach(tables, root, v, 2, order) == Some(b)
      requires |tables[b]| == LEAVES && Unused(tables[b][Index(v, order)])
          && SpaceAt(own, root, Index(v, 2)) != own.kernel
      requires |t0| == LEAVES && |tables[root]| == LEAVES && tables[root] == t0[Index(v,
          2) := tables[root][Index(v, 2)]]
      modifies this`tables
      ensures Valid() && tables.Keys == old(tables.Keys) && OtherTops(old(tables), own, tables, root)
          && |tables[root]| == LEAVES
      ensures Mapped(old(tables), own, tables, root, v, order, Hit(page, order, flags | 0xC0))
      ensures Reflected(old(tables), own, tables, root, v, order, Some(Hit(page, order, flags | 0xC0)))
      ensures (Packed(t0) ==> Packed(tables[root])) && (Marked(t0) ==> Marked(tables[root]))
    {
      hide Formed, SameMaps, Extends, Mapped, OtherTops, Packed, Marked, Buried, Reflected;
      var top := Index(v, 2);
      ghost var m1 := tables;
      PutEntry(root, v, order, b, Leaf(page, flags | 0xC0));
      ghost var m2 := tables;
      TopInUse(m2, root, v, order, b);
      AddGraves(root, top);
      BuriedKeeps(t0, m2[root], tables[root], top);
      BuriedSpares(m2[root], tables[root], top);
      Reflexive(m1, own);
      SameTops(m1, own, root);
      MappedBetween(m1, own, m1, own, m2, tables, root, v, order, Hit(page, order, flags | 0xC0));
      ReflectedBetween(m1, own, m1, own, m2, tables, root, v, order, Some(Hit(page, order, flags | 0xC0)));
    }

    /** `map_vpage` */
    method MapPage(root: nat, page: nat, v: Vpn, flags: bv8, order: nat) returns (st: Status)
      requires Valid() && root in tables && MayMap(own, root, v) && order <= 2 && NoLarger(tables, root, v, order)
      requires flags & 1 == 1
      modifies this
      ensures Valid() && Extends(old(own), own) && OtherTops(old(tables), old(own), tables, root) && root in tables
      ensures st == ErrInval <==> old(Taken(tables, root, v, order))
      ensures st == ErrOomem <==> old(Missing(tables, root, v, 2, order)) > |old(avail)|
      ensures st == ErrOomem ==> avail == [] && Missing(tables, root, v, 2, order) > 0
      ensures st != ErrOomem ==> |avail| + old(Missing(tables, root, v, 2, order)) == |old(avail)|
      ensures Drawn(old(tables), old(avail), tables, avail)
      ensures st == Ok || st == ErrInval || st == ErrOomem
      ensures st == Ok ==> Mapped(old(tables), old(own), tables, root, v, order, Hit(page, order, flags | 0xC0))
      ensures st == Ok ==>
          Reflected(old(tables), old(own), tables, root, v, order, Some(Hit(page, order, flags | 0xC0)))
      ensures st != Ok ==> SameMaps(old(tables), old(own), tables)
      ensures old(Packed(tables[root])) ==>
                (Packed(tables[root]) <==> !(st == ErrOomem && LeavesGap(old(tables[root]), Index(v, 2), |old(avail)|)))
      ensures old(AllPacked(tables, own)) && Packed(tables[root]) ==> AllPacked(tables, own)
      ensures old(Marked(tables[root])) ==> Marked(tables[root])
    {
      hide Formed, SameMaps, Extends, Mapped, OtherTops, Packed, AllPacked, Marked, Buried, Reflected, Drawn;
      var top := Index(v, 2);
      ghost var m, w, t0 := tables, own, tables[root];
      Full(tables, own, root);
      var ok, b := Descend(root, v, order);
      ghost var m1 := tables;
      KeepsRoot(w, own, root);
      KeepsSpace(w, own, root, v);
      if Packed(t0) && m1[root] != t0 { GapPacked(t0, top, m1[root][top]); }
      StayPacked(m, w, m1, own, root);
      StillMarked(t0, m1[root], top);
      if !ok {
        return ErrOomem;
      }
      Full(tables, own, b);
      var idx := Index(v, order);
      if !Unused(tables[b][idx]) {
        return ErrInval;
      }
      WritePage(root, page, v, flags, order, b, t0);
      DrawnKeys(m, old(avail), m1, tables, avail);
      Reflexive(tables, own);
      MappedBetween(m, w, m1, own, tables, tables, root, v, order, Hit(page, order, flags | 0xC0));
      SameTops(tables, own, root);
      ReflectedBetween(m, w, m1, own, tables, tables, root, v, order, Some(Hit(page, order, flags | 0xC0)));
      StayPacked(m, w, tables, own, root);
      st := Ok;
    }

    /** `unmap_vpage` */
    method UnmapPage(root: nat, v: Vpn) returns (st: Status)
      requires Valid() && root in tables && IsRoot(own, root)
      modifies this`tables
      ensures Valid() && tables.Keys == old(tables.Keys) && OtherTops(old(tables), own, tables, root)
      ensures st == if old(Find(tables, root, v)).None? then ErrNotFound else Ok
      ensures st == Ok ==> Unmapped(old(tables), own, tables, root, v, old(Find(tables, root, v)).value.order)
      ensures st == Ok && SpaceAt(own, root, Index(v, 2)) != own.kernel ==>
                Reflected(old(tables), own, tables, root, v, old(Find(tables, root, v)).value.order, None)
      ensures st != Ok ==> tables == old(tables)
      ensures BranchesStay(old(tables), tables)
      ensures old(Packed(tables[root])) ==> Packed(tables[root])
      ensures old(AllPacked(tables, own)) ==> AllPacked(tables, own)
      ensures old(Packed(tables[root]) && Marked(tables[root])) ==>
                (Marked(tables[root]) <==> !(st == Ok && LastWiped(old(tables), root, v)))
    {
      hide Formed, SameMaps, Unmapped, OtherTops, AllPacked, Packed, Marked, Trimmed, Reflected, OnlyRoot, BranchesStay;
      ghost var m := tables;
      var r := FindEntry(root, v);
      if r.None? {
        SameTops(m, own, root);
        AllStay(m);
        return ErrNotFound;
      }
      RootPacked(m, own, root);
      var c := r.value;
      TopInUse(m, root, v, c.level, c.table);
      PutEntry(root, v, c.level, c.table, Grave);
      ghost var m2 := tables;
      var top := Index(v, 2);
      Full(tables, own, root);
      RemoveGraves(root, top);
      WipeStays(m, m2, tables, root, c, top);
      if Packed(m[root]) { TrimmedPacked(m[root], m2[root], tables[root], top); }
      if Packed(m[root]) && Marked(m[root]) { TrimmedMarked(m[root], m2[root], tables[root], top); }
      UnmappedBefore(m, own, m2, tables, root, v, c.level);
      KeepsItself(own);
      if SpaceAt(own, root, top) != own.kernel {
        TrimmedSpares(m2[root], tables[root], top);
        UnmapReflects(m, own, m2, tables, root, v, c);
      }
      StayPacked(m, own, tables, own, root);
      st := Ok;
    }

    /** Unmapping a page that was just mapped restores every lookup of the address space. */
    method MapThenUnmap(root: nat, page: nat, v: Vpn, flags: bv8, order: nat)
      requires Valid() && root in tables && MayMap(own, root, v) && order <= 2 && NoLarger(tables, root, v, order)
      requires flags & 1 == 1
      modifies this
      ensures Valid() && forall x: Vpn :: Find(tables, root, x) == old(Find(tables, root, x))
    {
      hide Formed, OtherTops, Packed, Extends;
      ghost var w := own;
      var st := MapPage(root, page, v, flags, order);
      KeepsRoot(w, own, root);
      if st == Ok {
        assert SamePage(v, v, order);
        st := UnmapPage(root, v);
      }
    }
  }

  /** Running out of pages after the top level entry `i` was made leaves empty entries below it. */
  predicate LeavesGap(t: Table, i: nat, pages: nat) {
    i < CSTACK_PAGE && i < |t| && Unused(t[i]) && pages > 0 && exists j :: 0 <= j < i && t[j] == Null
  }

  /** The page at `v` is the last entry of the user half, and the stack area behind it is in use. */
  ghost predicate LastWiped(m: Tables, root: nat, v: Vpn) {
    var h := Find(m, root, v);
    && h.Some? && h.value.order == 2 && Index(v, 2) == CSTACK_PAGE - 1
    && root in m && |m[root]| == LEAVES && m[root][CSTACK_PAGE] != Null
  }

  /** Tables other than `root` are as before. */
  ghost predicate OnlyRoot(m: Tables, m': Tables, root: nat) {
    forall t :: t in m && t != root ==> t in m' && m'[t] == m[t]
  }

  /** No table is unlinked. */
  ghost predicate BranchesStay(m: Tables, m': Tables) {
    forall t, i :: t in m && 0 <= i < |m[t]| && m[t][i].Branch? ==> t in m' && |m'[t]| == |m[t]| && m'[t][i] == m[t][i]
  }

  lemma AllStay(m: Tables)
    ensures BranchesStay(m, m)
  {
  }

  lemma WipeStays(m: Tables, m2: Tables, m3: Tables, root: nat, c: Cell, idx: nat)
    requires c.table in m && c.index < |m[c.table]| && !m[c.table][c.index].Branch?
        && m2 == Put(m, c.table, c.index, Grave)
    requires root in m2 && root in m3 && OnlyRoot(m2, m3, root) && Trimmed(m2[root], m3[root], idx)
    ensures BranchesStay(m, m3)
  {
  }

  /** What was on the way to a page stays there while no table is unlinked. */
  lemma {:induction false} ReachStays(m: Tables, m': Tables, t: nat, v: Vpn, o: nat, l: nat)
    requires l < o <= 2 && BranchesStay(m, m') && Reach(m, t, v, o, l).Some?
    requires var b := Reach(m, t, v, o, l).value; b in m && |m[b]| == LEAVES && m[b][Index(v, l)].Branch?
    ensures Reach(m', t, v, o, l) == Reach(m, t, v, o, l)
    decreases o
  {
    var u := m[t][Index(v, o)].table;
    assert m'[t][Index(v, o)] == m[t][Index(v, o)];
    if l < o - 1 {
      ReachStays(m, m', u, v, o - 1, l);
    } else {
      assert m'[u][Index(v, l)] == m[u][Index(v, l)];
    }
  }

  /** Where a small page is or was mapped, a larger one finds its entry taken: the tables of the small one stay. */
  lemma StillTaken(m: Tables, m': Tables, root: nat, v: Vpn, order: nat)
    requires Find(m, root, v).Some? && Find(m, root, v).value.order < order <= 2 && BranchesStay(m, m')
    ensures Taken(m', root, v, order)
  {
    WayToHit(m, root, v, 2, order);
    var b := Reach(m, root, v, 2, order).value;
    if order < 2 { ReachStays(m, m', root, v, 2, order); }
    assert m'[b][Index(v, order)] == m[b][Index(v, order)];
  }

  lemma {:induction false} WayToHit(m: Tables, t: nat, v: Vpn, o: nat, l: nat)
    requires l <= o <= 2 && Lookup(m, t, v, o).Some? && Lookup(m, t, v, o).value.order < l
    ensures Reach(m, t, v, o, l).Some?
    ensures var b := Reach(m, t, v, o, l).value; b in m && |m[b]| == LEAVES && m[b][Index(v, l)].Branch?
    decreases o
  {
    if l < o { WayToHit(m, m[t][Index(v, o)].table, v, o - 1, l); }
  }

  /** Top level tables other than `root` are as before. */
  ghost predicate OtherTops(m: Tables, w: Owners, m': Tables, root: nat) {
    forall r :: r in m && IsRoot(w, r) && r != root ==> r in m' && m'[r] == m[r]
  }

  /**
   The page of order `order` around `v`, unmapped before, now leads to `hit`; in this address space nothing
   else changes, and in the others nothing outside that page.
   */
  ghost predicate Mapped(m: Tables, w: Owners, m': Tables, root: nat, v: Vpn, order: nat, hit: Hit) {
    && (forall x: Vpn :: Find(m', root, x) == if SamePage(v, x, order) then Some(hit) else Find(m, root, x))
    && (forall x: Vpn :: SamePage(v, x, order) ==> Find(m, root, x) == None)
    && (forall r, x: Vpn :: r in m && IsRoot(w, r) && !SamePage(v, x, order) ==> Find(m', r, x) == Find(m, r, x))
  }

  /** The page of order `order` around `v` leads nowhere any more, and nothing else changes. */
  ghost predicate Unmapped(m: Tables, w: Owners, m': Tables, root: nat, v: Vpn, order: nat) {
    && (forall x: Vpn :: Find(m', root, x) == if SamePage(v, x, order) then None else Find(m, root, x))
    && (forall r, x: Vpn :: r in m && IsRoot(w, r) && !SamePage(v, x, order) ==> Find(m', r, x) == Find(m, r, x))
  }

  /**
   What the other address spaces see of the page of order `order` around `v`: the same as this one, if they have the
   same top level entry for it, and otherwise what they saw before.
   */
  ghost predicate Reflected(m: Tables, w: Owners, m': Tables, root: nat, v: Vpn, order: nat, h: Option<Hit>) {
    forall r, x: Vpn :: r in m && IsRoot(w, r) && r != root && SamePage(v, x, order) ==>
      Find(m', r, x) == if SameTop(m', root, r, v) then h else Find(m, r, x)
  }

  ghost predicate SameTop(m: Tables, root: nat, r: nat, v: Vpn) {
    r in m && root in m && |m[r]| == LEAVES && |m[root]| == LEAVES && m[r][Index(v, 2)] == m[root][Index(v, 2)]
  }

  lemma PutReflects(m: Tables, w: Owners, root: nat, v: Vpn, order: nat, t: nat, e: Entry)
    requires Formed(m, w) && root in m && IsRoot(w, root) && order <= 2 && Reach(m, root, v, 2, order) == Some(t)
        && t in m
    requires |m[t]| == LEAVES && !m[t][Index(v, order)].Branch? && !e.Branch?
        && SpaceAt(w, root, Index(v, 2)) != w.kernel
    ensures Reflected(m, w, Put(m, t, Index(v, order), e), root, v, order,
        if e.Leaf? then Some(Hit(e.page, order, e.flags)) else None)
  {
    hide Formed, Find;
    var m' := Put(m, t, Index(v, order), e);
    PutLeaf(m, w, root, v, order, t, e);
    forall r, x: Vpn | r in m && IsRoot(w, r) && r != root && SamePage(v, x, order)
      ensures Find(m', r, x) == if SameTop(m', root, r, v) then (if e.Leaf? then Some(Hit(e.page, order, e.flags))
          else None) else Find(m, r, x)
    {
      PutShared(m, w, root, v, order, t, e, r, x);
    }
  }

  /** Harmless changes before and after, which leave the top level entry of `v` alone. */
  lemma ReflectedBetween(m: Tables, w: Owners, m1: Tables, w1: Owners, m2: Tables, m3: Tables, root: nat, v: Vpn,
      order: nat, h: Option<Hit>)
    requires root in m && IsRoot(w, root) && m.Keys <= m1.Keys <= m2.Keys && Extends(w, w1)
    requires SameMaps(m, w, m1) && Reflected(m1, w1, m2, root, v, order, h) && SameMaps(m2, w1, m3)
    requires OtherTops(m2, w1, m3, root) && root in m2 && root in m3 && |m2[root]| == LEAVES && |m3[root]| == LEAVES
    requires m3[root][Index(v, 2)] == m2[root][Index(v, 2)]
    ensures Reflected(m, w, m3, root, v, order, h)
  {
    hide Find;
    forall r, x: Vpn | r in m && IsRoot(w, r) && r != root && SamePage(v, x, order)
      ensures Find(m3, r, x) == if SameTop(m3, root, r, v) then h else Find(m, r, x)
    {
      assert IsRoot(w1, r) && Find(m1, r, x) == Find(m, r, x) && Find(m3, r, x) == Find(m2, r, x);
      assert m3[r] == m2[r];
    }
  }

  lemma UnmapReflects(m: Tables, w: Owners, m2: Tables, m3: Tables, root: nat, v: Vpn, c: Cell)
    requires root in m && IsRoot(w, root) && c.level <= 2 && c.table in m && c.index == Index(v, c.level) < |m[c.table]|
    requires m2 == Put(m, c.table, c.index, Grave) && (c.table == root <==> c.level == 2) && |m[root]| == LEAVES
        && !Unused(m[root][Index(v, 2)])
    requires OtherTops(m, w, m2, root) && OtherTops(m2, w, m3, root) && Reflected(m, w, m2, root, v, c.level, None)
        && SameMaps(m2, w, m3)
    requires root in m3 && |m3[root]| == LEAVES
    requires m3[root][Index(v, 2)] == m2[root][Index(v, 2)] || (m2[root][Index(v, 2)] == Grave
        && m3[root][Index(v, 2)] == Null)
    ensures Reflected(m, w, m3, root, v, c.level, None)
  {
    hide Reflected, SameMaps, OtherTops;
    if c.level == 2 {
      TopNotReflected(m, w, m2, m3, root, v);
    } else {
      Reflexive(m, w);
      ReflectedBetween(m, w, m, w, m2, m3, root, v, c.level, None);
    }
  }

  /** Wiping a top level entry is not reflected anywhere. */
  lemma TopNotReflected(m: Tables, w: Owners, m2: Tables, m3: Tables, root: nat, v: Vpn)
    requires root in m && IsRoot(w, root) && m.Keys <= m2.Keys && OtherTops(m, w, m2, root)
        && OtherTops(m2, w, m3, root)
    requires Reflected(m, w, m2, root, v, 2, None) && SameMaps(m2, w, m3)
    requires root in m2 && root in m3 && |m2[root]| == LEAVES && |m3[root]| == LEAVES
    requires Unused(m2[root][Index(v, 2)]) && Unused(m3[root][Index(v, 2)])
    ensures Reflected(m, w, m3, root, v, 2, None)
  {
    forall r, x: Vpn | r in m && IsRoot(w, r) && r != root && SamePage(v, x, 2)
      ensures Find(m3, r, x) == if SameTop(m3, root, r, v) then None else Find(m, r, x)
    {
      assert Find(m3, r, x) == Find(m2, r, x) && m3[r] == m2[r] && m2[r] == m[r];
    }
  }

  /** Of all top level tables, only entry `i` of `root` may have changed, from unused to a branch. */
  ghost predicate OnlyTop(m: Tables, m': Tables, root: nat, i: nat) {
    && (forall t :: t in m ==> t in m')
    && root in m && root in m' && |m[root]| == LEAVES && i < LEAVES
    && (m'[root] == m[root] || (Unused(m[root][i]) && |m'[root]| == LEAVES && m'[root][i].Branch?
        && m'[root] == m[root][i := m'[root][i]]))
  }

  lemma GrowOther(m: Tables, w: Owners, m1: Tables, w1: Owners, root: nat, b: nat, i: nat, u: nat)
    requires OtherTops(m, w, m1, root) && Extends(w, w1) && b in m1 && i < |m1[b]| && u !in m1
    requires b in w1.home && (w1.home[b].level < 2 || b == root)
    ensures OtherTops(m, w, Grow(m1, b, i, u), root)
  {
  }

  lemma GapPacked(t: Table, i: nat, e: Entry)
    requires Packed(t) && i < |t| && e != Null
    ensures Packed(t[i := e]) <==> i >= CSTACK_PAGE || forall j :: 0 <= j < i ==> t[j] != Null
  {
    var u := t[i := e];
    if i < CSTACK_PAGE && Packed(u) {
      forall j | 0 <= j < i ensures t[j] != Null { assert u[j] == t[j] && u[i] == e; }
    }
  }

  /** Mapping a page, with harmless changes before and after. */
  lemma MappedBetween(m: Tables, w: Owners, m1: Tables, w1: Owners, m2: Tables, m3: Tables, root: nat, v: Vpn,
      order: nat, hit: Hit)
    requires root in m && IsRoot(w, root) && m.Keys <= m1.Keys <= m2.Keys && Extends(w, w1)
    requires SameMaps(m, w, m1) && Mapped(m1, w1, m2, root, v, order, hit) && SameMaps(m2, w1, m3)
    requires OtherTops(m, w, m1, root) && OtherTops(m1, w1, m2, root) && OtherTops(m2, w1, m3, root)
    ensures Mapped(m, w, m3, root, v, order, hit) && OtherTops(m, w, m3, root) && IsRoot(w1, root)
  {
    forall r, x: Vpn | r in m && IsRoot(w, r) ensures IsRoot(w1, r) && Find(m1, r, x) == Find(m, r, x)
        && Find(m3, r, x) == Find(m2, r, x) {
      assert IsRoot(w1, r);
    }
    forall r | r in m && IsRoot(w, r) && r != root ensures r in m3 && m3[r] == m[r] { assert IsRoot(w1, r); }
  }

  lemma UnmappedBefore(m: Tables, w: Owners, m2: Tables, m3: Tables, root: nat, v: Vpn, order: nat)
    requires root in m && IsRoot(w, root) && m.Keys <= m2.Keys
    requires Unmapped(m, w, m2, root, v, order) && SameMaps(m2, w, m3)
    requires OtherTops(m, w, m2, root) && OtherTops(m2, w, m3, root)
    ensures Unmapped(m, w, m3, root, v, order) && OtherTops(m, w, m3, root)
  {
  }

  lemma StayPacked(m: Tables, w: Owners, m': Tables, w': Owners, root: nat)
    requires OtherTops(m, w, m', root) && Extends(w, w') && m.Keys == w.home.Keys && m'.Keys == w'.home.Keys
        && root in m'
    ensures AllPacked(m, w) && Packed(m'[root]) ==> AllPacked(m', w')
  {
    hide Packed;
    forall r | r in m' && IsRoot(w', r) && AllPacked(m, w) && Packed(m'[root]) ensures Packed(m'[r]) {
      if r != root { assert r in m && IsRoot(w, r); }
    }
  }

  lemma GravePacked(t: Table, i: nat)
    requires i < |t| && t[i] != Null
    ensures Packed(t) ==> Packed(t[i := Grave])
  {
    if Packed(t) { GapPacked(t, i, Grave); }
  }

  /** An entry that is made active takes no gravestone's active entry away. */
  lemma StillMarked(t: Table, u: Table, i: nat)
    requires |t| == LEAVES && |u| == LEAVES && i < LEAVES && u == t[i := u[i]] && (u == t || !Unused(u[i]))
    ensures Marked(t) ==> Marked(u)
  {
    forall k | Marked(t) && 0 <= k < CSTACK_PAGE && u[k] == Grave ensures ActiveAbove(u, k) { MarkedAt(t, u, k); }
  }

  /** The top level entry of a mapped address is in use. */
  lemma TopInUse(m: Tables, root: nat, v: Vpn, order: nat, b: nat)
    requires order <= 2 && Reach(m, root, v, 2, order) == Some(b) && b in m && |m[b]| == LEAVES
        && !Unused(m[b][Index(v, order)])
    ensures root in m && |m[root]| == LEAVES && !Unused(m[root][Index(v, 2)])
  {
  }

  lemma RootPacked(m: Tables, w: Owners, root: nat)
    requires root in m && IsRoot(w, root)
    ensures AllPacked(m, w) ==> Packed(m[root])
  {
  }

  lemma KeepsItself(w: Owners)
    ensures Extends(w, w)
  {
  }

  lemma SameTops(m: Tables, w: Owners, root: nat)
    ensures OtherTops(m, w, m, root)
  {
  }

  lemma MayMapRoot(w: Owners, root: nat, v: Vpn)
    requires MayMap(w, root, v)
    ensures IsRoot(w, root) && w.home[root].space == root && root != w.kernel && SpaceAt(w, root, Index(v, 2)) == root
  {
  }

  lemma KeepsSpace(w: Owners, w1: Owners, root: nat, v: Vpn)
    requires Extends(w, w1) && MayMap(w, root, v)
    ensures root in w1.home && SpaceAt(w1, root, Index(v, 2)) != w1.kernel
  {
  }

  lemma KeepsRoot(w: Owners, w1: Owners, root: nat)
    requires Extends(w, w1) && IsRoot(w, root)
    ensures IsRoot(w1, root)
  {
  }

  lemma Reflexive(m: Tables, w: Owners)
    ensures SameMaps(m, w, m) && Extends(w, w)
  {
  }

  lemma Transitive(m: Tables, w: Owners, m1: Tables, w1: Owners, m2: Tables, w2: Owners)
    requires SameMaps(m, w, m1) && Extends(w, w1) && SameMaps(m1, w1, m2) && Extends(w1, w2)
    requires m.Keys <= m1.Keys
    ensures SameMaps(m, w, m2) && Extends(w, w2)
  {
    forall r, v: Vpn | r in m && IsRoot(w, r) ensures Find(m2, r, v) == Find(m, r, v) {
      assert IsRoot(w1, r) && Find(m1, r, v) == Find(m, r, v);
    }
  }

  /** On the way to `v` no leaf comes before level `order`, and what is not unused is a table. */
  lemma NotLarger(m: Tables, w: Owners, m': Tables, w': Owners, root: nat, v: Vpn, l: nat, order: nat)
    requires NoLarger(m, root, v, order) && root in m && IsRoot(w, root) && SameMaps(m, w, m') && Extends(w, w')
    requires Formed(m', w') && order < l <= 2 && root in m' && Reach(m', root, v, 2, l).Some?
    ensures var b := Reach(m', root, v, 2, l).value;
            b in m' && b in w'.home && w'.home[b].level == l && |m'[b]| == LEAVES && !m'[b][Index(v, l)].Leaf?
    ensures var b := Reach(m', root, v, 2, l).value; var e := m'[b][Index(v, l)];
            e.Branch? ==>
                e.table in m' && |m'[e.table]| == LEAVES && w'.home[e.table].space == (if l == 2 then SpaceAt(w', b,
                Index(v, l)) else w'.home[b].space)
  {
    assert Find(m', root, v) == Find(m, root, v);
    RootServes(w', root, v);
    ReachServes(m', w', root, v, 2, l);
    var b := Reach(m', root, v, 2, l).value;
    Full(m', w', b);
    if m'[b][Index(v, l)].Branch? {
      assert Edge(m', w', b, Index(v, l));
      Full(m', w', m'[b][Index(v, l)].table);
    }
  }

  lemma {:induction false} ReachNext(m: Tables, t: nat, v: Vpn, o: nat, l: nat)
    requires 0 < l <= o <= 2 && Reach(m, t, v, o, l).Some?
    ensures var s := Reach(m, t, v, o, l).value;
            s in m && |m[s]| == LEAVES &&
            (m[s][Index(v, l)].Branch? ==>
                Reach(m, t, v, o, l - 1) == Reach(m, m[s][Index(v, l)].table, v, l - 1, l - 1))
    decreases o
  {
    if l < o {
      ReachNext(m, m[t][Index(v, o)].table, v, o - 1, l);
    }
  }
}