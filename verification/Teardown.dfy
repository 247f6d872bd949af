/**
 Tearing down address spaces (arch/riscv64/kernel/vmem.c): `destroy_rpcmem` and `destroy_vmem` walk the
 tables a space owns and free each of them once, although the spaces share user subtrees.
 */
module Teardown {
  import opened Common
  import opened PageTable
  import opened Vmem
  import opened Spaces

  /** The pages `__destroy_branch` frees for the table `t` of level `l`, in order. */
  ghost function Order(m: Tables, t: nat, l: nat): seq<nat>
    decreases l, 1, 0
  {
    if t !in m || |m[t]| != LEAVES then [] else Children(m, t, l, 0, LEAVES) + [t]
  }

  /** The pages freed for entries `lo` to `hi` of table `t`. */
  ghost function Children(m: Tables, t: nat, l: nat, lo: nat, hi: nat): seq<nat>
    requires t in m && lo <= hi <= |m[t]|
    decreases l, 0, hi
  {
    if lo == hi then []
    else Children(m, t, l, lo, hi - 1) + if l > 0 && m[t][hi - 1].Branch? then Order(m, m[t][hi - 1].table, l - 1)
        else []
  }

  ghost predicate NoRepeats(s: seq<nat>) {
    forall i, j :: 0 <= i < j < |s| ==> s[i] != s[j]
  }

  lemma Joined(a: seq<nat>, b: seq<nat>)
    requires NoRepeats(a) && NoRepeats(b) && forall x :: x in a ==> x !in b
    ensures NoRepeats(a + b)
  {
    var c := a + b;
    forall i, j | 0 <= i < j < |c| ensures c[i] != c[j] {
      assert i < |a| ==> c[i] in a;
      assert j >= |a| ==> c[j] in b;
    }
  }

  /** The slot of level `l` that table `u` lies below. */
  ghost function Above(h: Home, l: nat): nat {
    if h.level == l then h.slot else if h.level + 1 == l then h.slot / LEAVES else h.slot / 262144
  }

  /** `u` is a table of space `s` at or below slot `slot` of level `l`. */
  ghost predicate Inside(m: Tables, w: Owners, u: nat, s: nat, l: nat, slot: nat) {
    u in m && u in w.home && w.home[u].space == s && w.home[u].level <= l && Above(w.home[u], l) == slot
  }

  /** Everything freed for a table lies below it, and nothing is freed twice. */
  lemma {:induction false} OrderInside(m: Tables, w: Owners, t: nat, l: nat)
    requires Formed(m, w) && t in m && w.home[t].level == l && l < 2
    ensures NoRepeats(Order(m, t, l))
    ensures forall u :: u in Order(m, t, l) ==> Inside(m, w, u, w.home[t].space, l, w.home[t].slot)
    ensures t in Order(m, t, l)
    decreases l, 1, 0
  {
    Full(m, w, t);
    ChildrenInside(m, w, t, l, 0, LEAVES, w.home[t].space);
    Joined(Children(m, t, l, 0, LEAVES), [t]);
  }

  lemma {:induction false} ChildrenInside(m: Tables, w: Owners, t: nat, l: nat, lo: nat, hi: nat, s: nat)
    requires Formed(m, w) && t in m && w.home[t].level == l && l <= 2 && lo <= hi <= LEAVES && |m[t]| == LEAVES
    requires forall i :: lo <= i < hi ==> SpaceAt(w, t, i) == s
    ensures NoRepeats(Children(m, t, l, lo, hi))
    ensures forall u :: u in Children(m, t, l, lo, hi) ==>
              l > 0 && u in m && u in w.home && w.home[u].space == s && w.home[u].level < l
              && w.home[t].slot * LEAVES + lo <= Above(w.home[u], l - 1) < w.home[t].slot * LEAVES + hi
    decreases l, 0, hi
  {
    if lo < hi {
      ChildrenInside(m, w, t, l, lo, hi - 1, s);
      if m[t][hi - 1].Branch? {
        assert Edge(m, w, t, hi - 1);
        var u := m[t][hi - 1].table;
        OrderInside(m, w, u, l - 1);
        Joined(Children(m, t, l, lo, hi - 1), Order(m, u, l - 1));
      }
    }
  }

  lemma {:induction false} ChildCovered(m: Tables, t: nat, l: nat, lo: nat, hi: nat, i: nat, x: nat)
    requires t in m && lo <= i < hi <= |m[t]| && l > 0 && m[t][i].Branch? && x in Order(m, m[t][i].table, l - 1)
    ensures x in Children(m, t, l, lo, hi)
    decreases hi
  {
    hide Order;
    var before := Children(m, t, l, lo, hi - 1);
    var rest := if m[t][hi - 1].Branch? then Order(m, m[t][hi - 1].table, l - 1) else [];
    assert Children(m, t, l, lo, hi) == before + rest;
    if i < hi - 1 {
      ChildCovered(m, t, l, lo, hi - 1, i, x);
      assert x in before;
    } else {
      assert x in rest;
    }
  }

  /**
   The top level entries whose tables the space `s` owns: all of them, or for an RPC space those above the user half.
   */
  ghost function OwnFrom(w: Owners, s: nat): nat {
    if s in w.user then CSTACK_PAGE else 0
  }

  ghost predicate IsSpace(m: Tables, w: Owners, s: nat) {
    s in m && IsRoot(w, s) && s != w.kernel && (s in w.user ==> w.user[s] != s)
  }

  /** Everything the teardown of the space `s` frees. */
  ghost function Freed(m: Tables, w: Owners, s: nat): seq<nat>
    requires s in m && |m[s]| == LEAVES
  {
    Children(m, s, 2, OwnFrom(w, s), KERNEL_PAGE) + [s]
  }

  /** A table one level below the top hangs at an entry that the teardown of its space visits. */
  lemma MidCovered(m: Tables, w: Owners, s: nat, u: nat)
    requires Formed(m, w) && IsSpace(m, w, s) && u in m && w.home[u].space == s && w.home[u].level == 1
    ensures |m[s]| == LEAVES
    ensures var i := w.home[u].slot % LEAVES; OwnFrom(w, s) <= i < KERNEL_PAGE && m[s][i] == Branch(u)
  {
    assert Hung(m, w, u) && Sized(m, w, s) && Sized(m, w, w.home[u].parent);
    assert Edge(m, w, s, w.home[u].slot % LEAVES);
  }

  lemma OwnedIsFreed(m: Tables, w: Owners, s: nat, u: nat)
    requires Formed(m, w) && IsSpace(m, w, s) && u in m && u in w.home && w.home[u].space == s
    ensures |m[s]| == LEAVES && u in Freed(m, w, s)
  {
    hide Order, Children;
    Full(m, w, s);
    assert Sized(m, w, u) && Hung(m, w, u);
    var lo := OwnFrom(w, s);
    if w.home[u].level == 1 {
      MidCovered(m, w, s, u);
      OrderInside(m, w, u, 1);
      ChildCovered(m, s, 2, lo, KERNEL_PAGE, w.home[u].slot % LEAVES, u);
    } else if w.home[u].level == 0 {
      var p := w.home[u].parent;
      MidCovered(m, w, s, p);
      OrderInside(m, w, u, 0);
      ChildCovered(m, p, 1, 0, LEAVES, w.home[u].slot % LEAVES, u);
      Full(m, w, p);
      OrderIs(m, p, 1);
      ChildCovered(m, s, 2, lo, KERNEL_PAGE, w.home[p].slot % LEAVES, u);
    }
  }

  /** Tearing down a space frees exactly the tables it owns, each once. */
  lemma FreesItsOwn(m: Tables, w: Owners, s: nat)
    requires Formed(m, w) && IsSpace(m, w, s)
    ensures |m[s]| == LEAVES && NoRepeats(Freed(m, w, s))
    ensures forall u :: u in Freed(m, w, s) <==> u in m && u in w.home && w.home[u].space == s
  {
    Full(m, w, s);
    assert Sized(m, w, s);
    var lo := OwnFrom(w, s);
    ChildrenInside(m, w, s, 2, lo, KERNEL_PAGE, s);
    Joined(Children(m, s, 2, lo, KERNEL_PAGE), [s]);
    forall u | u in m && u in w.home && w.home[u].space == s ensures u in Freed(m, w, s) { OwnedIsFreed(m, w, s, u); }
  }

  // ------------------------------------------------------------------ the loops

  /** `__destroy_branch` */
  method DestroyBranch(pt: PageTables, t: nat, l: nat) returns (log: seq<nat>)
    requires pt.Valid() && t in pt.tables && pt.own.home[t].level == l && l < 2
    ensures log == Order(pt.tables, t, l)
    decreases l, 1
  {
    hide Formed, Order;
    Full(pt.tables, pt.own, t);
    log := DestroyEntries(pt, t, l, 0, LEAVES);
    log := log + [t];
    OrderIs(pt.tables, t, l);
  }

  lemma OrderIs(m: Tables, t: nat, l: nat)
    requires t in m && |m[t]| == LEAVES
    ensures Order(m, t, l) == Children(m, t, l, 0, LEAVES) + [t]
  {
  }

  /** Destroy the branches among entries `lo` to `hi` of `t`. */
  method DestroyEntries(pt: PageTables, t: nat, l: nat, lo: nat, hi: nat) returns (log: seq<nat>)
    requires pt.Valid() && t in pt.tables && pt.own.home[t].level == l && l <= 2 && lo <= hi <= LEAVES
        && |pt.tables[t]| == LEAVES
    ensures log == Children(pt.tables, t, l, lo, hi)
    decreases l, 0
  {
    hide Formed, Order, Children;
    log := [];
    NoChildren(pt.tables, t, l, lo);
    for i := lo to hi
      invariant log == Children(pt.tables, t, l, lo, i)
    {
      NextChild(pt.tables, t, l, lo, i);
      if pt.tables[t][i].Branch? {
        BranchBelow(pt.tables, pt.own, t, i);
        var sub := DestroyBranch(pt, pt.tables[t][i].table, l - 1);
        log := log + sub;
      }
    }
  }

  lemma NoChildren(m: Tables, t: nat, l: nat, lo: nat)
    requires t in m && lo <= |m[t]|
    ensures Children(m, t, l, lo, lo) == []
  {
  }

  lemma NextChild(m: Tables, t: nat, l: nat, lo: nat, i: nat)
    requires t in m && lo <= i < |m[t]|
    ensures Children(m, t, l, lo, i + 1) ==
            Children(m, t, l, lo, i) + if l > 0 && m[t][i].Branch? then Order(m, m[t][i].table, l - 1) else []
  {
  }

  lemma BranchBelow(m: Tables, w: Owners, t: nat, i: nat)
    requires Formed(m, w) && t in m && i < |m[t]| == LEAVES && m[t][i].Branch?
    ensures w.home[t].level > 0 && m[t][i].table in m && w.home[m[t][i].table].level == w.home[t].level - 1
  {
    assert Edge(m, w, t, i);
  }

  // ------------------------------------------------------------------ whole spaces

  /** No other address space shows the user half of `s`. */
  ghost predicate Unshown(m: Tables, w: Owners, s: nat) {
    forall r :: r in m && IsRoot(w, r) && r != s ==> Shown(w, r) != s
  }

  ghost function Without(m: Tables, w: Owners, s: nat): Tables {
    map t | t in m && !(t in w.home && w.home[t].space == s) :: m[t]
  }

  ghost function Forget(w: Owners, s: nat): Owners {
    Owners(map t | t in w.home && w.home[t].space != s :: w.home[t], w.user - {s}, w.kernel)
  }

  /** Some entry of a table of another space leads to a table of `s`. */
  ghost predicate Dangling(m: Tables, w: Owners, s: nat) {
    exists t, i :: t in m && t in w.home && w.home[t].space != s && LeadsInto(m, w, t, i, s)
  }

  ghost predicate LeadsInto(m: Tables, w: Owners, t: nat, i: int, s: nat)
    requires t in m
  {
    0 <= i < LEAVES && i < |m[t]| && m[t][i].Branch? && m[t][i].table in w.home && w.home[m[t][i].table].space == s
  }

  /** Only a space that shows the user half of `s` has such entries. */
  lemma UnshownNotDangling(m: Tables, w: Owners, s: nat)
    requires Formed(m, w) && IsSpace(m, w, s) && Unshown(m, w, s)
    ensures !Dangling(m, w, s)
  {
    forall t, i | t in m && t in w.home && w.home[t].space != s && 0 <= i < LEAVES && i < |m[t]| && m[t][i].Branch?
        ensures !LeadsInto(m, w, t, i, s) {
      assert Edge(m, w, t, i) && Sized(m, w, t);
    }
  }

  lemma DanglingBreaks(m: Tables, w: Owners, s: nat)
    requires Formed(m, w) && Dangling(m, w, s)
    ensures !Formed(Without(m, w, s), Forget(w, s))
  {
    var m', w' := Without(m, w, s), Forget(w, s);
    var t, i :| t in m && t in w.home && w.home[t].space != s && LeadsInto(m, w, t, i, s);
    assert t in m' && m'[t] == m[t] && m[t][i].table !in m';
    assert t in w'.home ==> !Edge(m', w', t, i);
  }

  lemma RemoveFormed(m: Tables, w: Owners, s: nat)
    requires Formed(m, w) && w.home.Keys == m.Keys && IsSpace(m, w, s) && !Dangling(m, w, s)
    ensures Formed(Without(m, w, s), Forget(w, s)) && Forget(w, s).home.Keys == Without(m, w, s).Keys
  {
    var m', w' := Without(m, w, s), Forget(w, s);
    forall t | t in m' ensures Sized(m', w', t) && Hung(m', w', t) { RemoveTable(m, w, s, t); }
    forall t, i | t in m' && 0 <= i < LEAVES && i < |m'[t]| && m'[t][i].Branch? ensures Edge(m', w', t, i) {
      RemoveEdge(m, w, s, t, i);
    }
  }

  lemma RemoveTable(m: Tables, w: Owners, s: nat, t: nat)
    requires Formed(m, w) && w.home.Keys == m.Keys && IsSpace(m, w, s) && t in Without(m, w, s)
    ensures Sized(Without(m, w, s), Forget(w, s), t) && Hung(Without(m, w, s), Forget(w, s), t)
  {
    assert Sized(m, w, t) && Hung(m, w, t);
  }

  lemma RemoveEdge(m: Tables, w: Owners, s: nat, t: nat, i: nat)
    requires Formed(m, w) && w.home.Keys == m.Keys && IsSpace(m, w, s) && !Dangling(m, w, s)
    requires t in Without(m, w, s) && i < LEAVES && i < |m[t]| && m[t][i].Branch?
    ensures Edge(Without(m, w, s), Forget(w, s), t, i)
  {
    assert Sized(m, w, t) && Edge(m, w, t, i);
    assert !LeadsInto(m, w, t, i, s);
  }

  /** The freed pages go back to the supply, and the tables are gone. */
  method GiveBack(pt: PageTables, log: seq<nat>, ghost s: nat)
    requires pt.Valid() && IsSpace(pt.tables, pt.own, s) && NoRepeats(log)
    requires forall u :: u in log <==> u in pt.tables && u in pt.own.home && pt.own.home[u].space == s
    modifies pt
    ensures pt.tables == Without(old(pt.tables), old(pt.own), s) && pt.own == Forget(old(pt.own), s)
    ensures pt.avail == old(pt.avail) + log
    ensures pt.Valid() <==> !old(Dangling(pt.tables, pt.own, s))
  {
    hide Formed, Dangling;
    if Dangling(pt.tables, pt.own, s) {
      DanglingBreaks(pt.tables, pt.own, s);
    } else {
      RemoveFormed(pt.tables, pt.own, s);
    }
    NotKernel(pt, log, s);
    ghost var m := Without(pt.tables, pt.own, s);
    Supply(pt.avail, log, pt.tables, m, pt.own.kernel);
    pt.tables := map t | t in pt.tables && t !in log :: pt.tables[t];
    assert pt.tables == m;
    pt.own := Forget(pt.own, s);
    pt.avail := pt.avail + log;
  }

  lemma Supply(avail: seq<nat>, log: seq<nat>, m: Tables, m': Tables, kernel: nat)
    requires NoRepeats(avail) && NoRepeats(log) && kernel !in log && kernel !in avail
    requires forall i :: 0 <= i < |avail| ==> avail[i] !in m
    requires m'.Keys <= m.Keys && forall u :: u in log ==> u in m && u !in m'
    ensures var s := avail + log; NoRepeats(s) && forall i :: 0 <= i < |s| ==> s[i] !in m' && s[i] != kernel
  {
    Joined(avail, log);
    var s := avail + log;
    forall i | 0 <= i < |s| ensures s[i] !in m' && s[i] != kernel {
      if i < |avail| { assert s[i] == avail[i]; } else { assert s[i] == log[i - |avail|]; }
    }
  }

  lemma OwnTop(m: Tables, w: Owners, s: nat)
    requires Formed(m, w) && s in m && IsRoot(w, s)
    ensures w.home[s].space == s
  {
    assert Sized(m, w, s);
  }

  lemma NotKernel(pt: PageTables, log: seq<nat>, s: nat)
    requires pt.Valid() && s != pt.own.kernel
    requires forall u :: u in log ==> u in pt.tables && u in pt.own.home && pt.own.home[u].space == s
    ensures pt.own.kernel !in log
  {
    assert pt.own.kernel in pt.tables ==> Sized(pt.tables, pt.own, pt.own.kernel);
  }

  /** `destroy_rpcmem` */
  method DestroyRpcmem(pt: PageTables, b: nat) returns (log: seq<nat>)
    requires pt.Valid() && IsSpace(pt.tables, pt.own, b) && b in pt.own.user && Unshown(pt.tables, pt.own, b)
    modifies pt
    ensures pt.Valid() && pt.tables == Without(old(pt.tables), old(pt.own), b) && pt.own == Forget(old(pt.own), b)
    ensures NoRepeats(log) && pt.avail == old(pt.avail) + log
    ensures forall u :: u in log <==> u in old(pt.tables) && u in old(pt.own.home) && old(pt.own.home)[u].space == b
  {
    hide Formed, Without, Forget, Unshown, Order, Children;
    FreesItsOwn(pt.tables, pt.own, b);
    UnshownNotDangling(pt.tables, pt.own, b);
    log := DestroyEntries(pt, b, 2, CSTACK_PAGE, KERNEL_PAGE);
    log := log + [b];
    GiveBack(pt, log, b);
  }

  /**
   `destroy_vmem`: every table of the process is freed exactly once. The memory of tables is in order afterwards
   exactly if no entry of another space leads to one of them, as of an RPC space that still shows the process.
   */
  method DestroyVmem(pt: PageTables, p: nat) returns (log: seq<nat>)
    requires pt.Valid() && IsSpace(pt.tables, pt.own, p) && p !in pt.own.user
    modifies pt
    ensures pt.tables == Without(old(pt.tables), old(pt.own), p) && pt.own == Forget(old(pt.own), p)
    ensures NoRepeats(log) && pt.avail == old(pt.avail) + log
    ensures forall u :: u in log <==> u in old(pt.tables) && u in old(pt.own.home) && old(pt.own.home)[u].space == p
    ensures pt.Valid() <==> !old(Dangling(pt.tables, pt.own, p))
    ensures old(Unshown(pt.tables, pt.own, p)) ==> pt.Valid()
  {
    hide Formed, Without, Forget, Unshown, Order, Children, Dangling;
    FreesItsOwn(pt.tables, pt.own, p);
    if Unshown(pt.tables, pt.own, p) { UnshownNotDangling(pt.tables, pt.own, p); }
    log := DestroyEntries(pt, p, 2, 0, KERNEL_PAGE);
    log := log + [p];
    GiveBack(pt, log, p);
  }

  /**
   A thread's RPC space, then a process: every table of either is freed exactly once, the shared user subtrees
   included, whether or not further RPC spaces show the process.
   */
  method DestroyThreadThenProcess(pt: PageTables, b: nat, p: nat) returns (log: seq<nat>)
    requires pt.Valid() && IsSpace(pt.tables, pt.own, b) && IsSpace(pt.tables, pt.own, p) && b != p
    requires b in pt.own.user && p !in pt.own.user && Unshown(pt.tables, pt.own, b)
    modifies pt
    ensures NoRepeats(log) && pt.avail == old(pt.avail) + log
    ensures forall u :: u in log <==> u in old(pt.tables) && old(pt.own.home)[u].space in {b, p}
    ensures old(forall r :: r in pt.tables && IsRoot(pt.own, r) && r != b && r != p ==> Shown(pt.own, r) != p) ==>
        pt.Valid()
  {
    hide Formed;
    OwnTop(pt.tables, pt.own, p);
    var log1 := DestroyRpcmem(pt, b);
    assert IsSpace(pt.tables, pt.own, p);
    var log2 := DestroyVmem(pt, p);
    Joined(log1, log2);
    log := log1 + log2;
  }
}
