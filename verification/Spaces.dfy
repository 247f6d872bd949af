/**
 Address spaces that share page tables (arch/riscv64/kernel/vmem.c): a thread's RPC space shows the user
 half of one process at a time by copying top level entries, and tearing both down frees every table once.
 */
module Spaces {
  import opened Common
  import opened PageTable
  import opened Vmem

  /** The first empty entry, or the end. */
  ghost function FirstNull(t: Table): (n: nat)
    ensures n <= |t| && (forall j :: 0 <= j < n ==> t[j] != Null) && (n < |t| ==> t[n] == Null)
  {
    if t == [] || t[0] == Null then 0 else 1 + FirstNull(t[1..])
  }

  /** Where the copying loop and then the clearing loop of `clone_uvmem` stop. */
  ghost predicate StopsAt(src: Table, dst: Table, n: nat, k: nat) {
    && |src| == LEAVES && |dst| == LEAVES && n <= k <= CSTACK_PAGE
    && (forall j :: 0 <= j < n ==> src[j] != Null) && (n < CSTACK_PAGE ==> src[n] == Null)
    && (forall j :: n <= j < k ==> dst[j] != Null) && (k < CSTACK_PAGE ==> dst[k] == Null)
  }

  ghost function Stops(src: Table, dst: Table): (nk: (nat, nat))
    requires |src| == LEAVES && |dst| == LEAVES
    ensures StopsAt(src, dst, nk.0, nk.1)
  {
    var n := FirstNull(src[..CSTACK_PAGE]);
    var k := n + FirstNull(dst[n..CSTACK_PAGE]);
    assert forall j :: n <= j < CSTACK_PAGE ==> dst[j] == dst[n..CSTACK_PAGE][j - n];
    (n, k)
  }

  /** `clone_uvmem`: what the copy that stops at the first empty entry leaves in the target. */
  ghost function Cloned(src: Table, dst: Table): Table
    requires |src| == LEAVES && |dst| == LEAVES
  {
    var (n, k) := Stops(src, dst);
    src[..n] + seq(k - n, i => Null) + dst[k..]
  }

  /** A copy of the whole user half. */
  ghost function FullCopy(src: Table, dst: Table): Table
    requires |src| == LEAVES && |dst| == LEAVES
  {
    src[..CSTACK_PAGE] + dst[CSTACK_PAGE..]
  }

  /** With both tables packed, stopping early is as good as copying everything. */
  lemma CloneIsFullCopy(src: Table, dst: Table)
    requires |src| == LEAVES && |dst| == LEAVES && Packed(src) && Packed(dst)
    ensures Cloned(src, dst) == FullCopy(src, dst) && Packed(Cloned(src, dst))
  {
    var (n, k) := Stops(src, dst);
    var c := Cloned(src, dst);
    forall j | 0 <= j < LEAVES ensures c[j] == FullCopy(src, dst)[j] {
      assert j >= n && j < CSTACK_PAGE ==> src[j] == Null by { if n < j < CSTACK_PAGE { assert src[n] == Null; } }
      assert k <= j < CSTACK_PAGE ==> dst[j] == Null by { if k < j < CSTACK_PAGE { assert dst[k] == Null; } }
    }
    forall i, j | 0 <= i < j < CSTACK_PAGE && j < |c| && c[i] == Null ensures c[j] == Null {
      assert c[i] == src[i] && c[j] == src[j];
    }
  }

  /** Into an empty user half, the early stop copies everything exactly when the source is packed. */
  lemma CloneIntoEmptyIff(src: Table, dst: Table)
    requires |src| == LEAVES && |dst| == LEAVES && forall i :: 0 <= i < CSTACK_PAGE ==> dst[i] == Null
    ensures Cloned(src, dst) == FullCopy(src, dst) <==> Packed(src)
  {
    var c := Cloned(src, dst);
    if Packed(src) {
      CloneIsFullCopy(src, dst);
    } else {
      var i, j :| 0 <= i < j < CSTACK_PAGE && src[i] == Null && src[j] != Null;
      assert Stops(src, dst).0 <= i;
      assert c[j] == Null && FullCopy(src, dst)[j] == src[j];
    }
  }

  /** The space whose user half `r` shows. */
  ghost function Shown(w: Owners, r: nat): nat {
    if r in w.user then w.user[r] else r
  }

  /** `b` is the RPC space of a thread: it shows the user half of some process. */
  ghost predicate IsRpc(w: Owners, b: nat) {
    IsRoot(w, b) && b in w.user && w.user[b] != b && b != w.kernel
  }

  ghost function Showing(w: Owners, b: nat, r: nat): Owners {
    w.(user := w.user[b := Shown(w, r)])
  }

  lemma CloneFormed(m: Tables, w: Owners, r: nat, b: nat)
    requires Formed(m, w) && r in m && b in m && IsRoot(w, r) && IsRpc(w, b) && Shown(w, r) != b
    requires |m[r]| == LEAVES && |m[b]| == LEAVES
    ensures Formed(m[b := FullCopy(m[r], m[b])], Showing(w, b, r))
  {
    var m', w' := m[b := FullCopy(m[r], m[b])], Showing(w, b, r);
    forall t | t in m' ensures Sized(m', w', t) && Hung(m', w', t) {
      assert Sized(m, w, t) && Hung(m, w, t) && Sized(m, w, b);
      var p, j := w.home[t].parent, w.home[t].slot % LEAVES;
      assert p in m && p in w.home && j < |m[p]| && m[p][j].Branch? ==> Edge(m, w, p, j);
    }
    forall t, i | t in m' && 0 <= i < LEAVES && i < |m'[t]| && m'[t][i].Branch? ensures Edge(m', w', t, i) {
      assert Sized(m, w, r) && Sized(m, w, b);
      if t == b && i < CSTACK_PAGE {
        assert m'[t][i] == m[r][i] && Edge(m, w, r, i);
      } else {
        assert m'[t][i] == m[t][i] && Edge(m, w, t, i);
      }
    }
  }

  /** Tables other than `b` are as in `m`. */
  ghost predicate OnlyTable(m: Tables, m': Tables, b: nat) {
    m'.Keys == m.Keys && b in m && |m'[b]| == LEAVES && forall t :: t in m && t != b ==> m'[t] == m[t]
  }

  lemma ClonedPoints(m: Tables, m': Tables, b: nat, src: Table, n: nat, i: nat)
    requires OnlyTable(m, m', b) && |src| == LEAVES && |m[b]| == LEAVES
    requires (n, i) == Stops(src, m[b])
    requires forall j :: 0 <= j < n ==> m'[b][j] == src[j]
    requires forall j :: n <= j < i ==> m'[b][j] == Null
    requires forall j :: i <= j < LEAVES ==> m'[b][j] == m[b][j]
    ensures m' == m[b := Cloned(src, m[b])]
  {
    assert m'[b] == Cloned(src, m[b]);
  }

  /** The two loops of `clone_uvmem`. */
  method CopyEntries(pt: PageTables, r: nat, b: nat)
    requires r in pt.tables && b in pt.tables && r != b && |pt.tables[r]| == LEAVES && |pt.tables[b]| == LEAVES
    modifies pt`tables
    ensures pt.tables == old(pt.tables)[b := Cloned(old(pt.tables[r]), old(pt.tables[b]))]
  {
    hide Cloned, Stops;
    ghost var m := pt.tables;
    ghost var (n, k) := Stops(m[r], m[b]);
    var i := 0;
    while i < CSTACK_PAGE
      invariant i <= n && OnlyTable(m, pt.tables, b)
      invariant forall j :: 0 <= j < i ==> pt.tables[b][j] == m[r][j]
      invariant forall j :: i <= j < LEAVES ==> pt.tables[b][j] == m[b][j]
    {
      var t := pt.tables[r][i];
      if t == Null {
        break;
      }
      pt.tables := Put(pt.tables, b, i, t);
      i := i + 1;
    }
    while i < CSTACK_PAGE
      invariant n <= i <= k && OnlyTable(m, pt.tables, b)
      invariant forall j :: 0 <= j < n ==> pt.tables[b][j] == m[r][j]
      invariant forall j :: n <= j < i ==> pt.tables[b][j] == Null
      invariant forall j :: i <= j < LEAVES ==> pt.tables[b][j] == m[b][j]
    {
      if pt.tables[b][i] == Null {
        break;
      }
      pt.tables := Put(pt.tables, b, i, Null);
      i := i + 1;
    }
    ClonedPoints(m, pt.tables, b, m[r], n, i);
  }

  /** `clone_uvmem` */
  method CloneUvmem(pt: PageTables, r: nat, b: nat)
    requires pt.Valid() && r in pt.tables && b in pt.tables && r != b
    requires IsRoot(pt.own, r) && IsRpc(pt.own, b) && Shown(pt.own, r) != b
    requires Packed(pt.tables[r]) && Packed(pt.tables[b])
    modifies pt`tables, pt`own
    ensures pt.Valid() && pt.own == Showing(old(pt.own), b, r)
    ensures |old(pt.tables[r])| == LEAVES && |old(pt.tables[b])| == LEAVES
    ensures pt.tables == old(pt.tables)[b := FullCopy(old(pt.tables[r]), old(pt.tables[b]))] && Packed(pt.tables[b])
  {
    hide Formed, Packed, Cloned, FullCopy;
    ghost var m, w := pt.tables, pt.own;
    Full(m, w, r);
    Full(m, w, b);
    CopyEntries(pt, r, b);
    CloneIsFullCopy(m[r], m[b]);
    CloneFormed(m, w, r, b);
    pt.own := Showing(w, b, r);
  }

  /** The user half of `b` translates every address as `r` does. */
  lemma CloneTranslates(m: Tables, w: Owners, r: nat, b: nat, v: Vpn)
    requires Formed(m, w) && r in m && b in m && IsRoot(w, r) && IsRoot(w, b) && Index(v, 2) < CSTACK_PAGE
    requires |m[r]| == LEAVES && |m[b]| == LEAVES && m[b][..CSTACK_PAGE] == m[r][..CSTACK_PAGE]
    ensures Find(m, b, v) == Find(m, r, v)
  {
    var i := Index(v, 2);
    assert m[b][i] == m[b][..CSTACK_PAGE][i] == m[r][i];
  }

  /** After any sequence of clones the user half shown is that of the last source. */
  method CloneAll(pt: PageTables, sources: seq<nat>, b: nat)
    requires pt.Valid() && b in pt.tables && IsRpc(pt.own, b) && Packed(pt.tables[b]) && |sources| > 0
    requires forall r :: r in sources ==>
        r in pt.tables && IsRoot(pt.own, r) && r != b && r !in pt.own.user && Packed(pt.tables[r])
    modifies pt`tables, pt`own
    ensures pt.Valid() && forall t :: t in old(pt.tables) && t != b ==>
        t in pt.tables && pt.tables[t] == old(pt.tables)[t]
    ensures var last := sources[|sources| - 1];
            && b in pt.tables && last in pt.tables && |pt.tables[b]| == LEAVES && |pt.tables[last]| == LEAVES
            && pt.tables[b][..CSTACK_PAGE] == pt.tables[last][..CSTACK_PAGE]
            && forall v: Vpn :: Index(v, 2) < CSTACK_PAGE ==> Find(pt.tables, b, v) == Find(pt.tables, last, v)
  {
    hide Formed, Packed;
    for n := 0 to |sources|
      invariant pt.Valid() && b in pt.tables && IsRpc(pt.own, b) && Packed(pt.tables[b])
      invariant pt.own.home == old(pt.own.home) && pt.own.user == old(pt.own.user)[b := pt.own.user[b]]
      invariant forall t :: t in old(pt.tables) && t != b ==> t in pt.tables && pt.tables[t] == old(pt.tables)[t]
      invariant n > 0 ==>
          sources[n - 1] in pt.tables && |pt.tables[b]| == LEAVES && |pt.tables[sources[n - 1]]| == LEAVES
      invariant n > 0 ==> pt.tables[b][..CSTACK_PAGE] == pt.tables[sources[n - 1]][..CSTACK_PAGE]
    {
      CloneUvmem(pt, sources[n], b);
    }
    var last := sources[|sources| - 1];
    forall v: Vpn | Index(v, 2) < CSTACK_PAGE ensures Find(pt.tables, b, v) == Find(pt.tables, last, v) {
      CloneTranslates(pt.tables, pt.own, last, b, v);
    }
  }

  // ------------------------------------------------------------------ new spaces

  const KSTART_PAGE := 256

  /**
   A top level table that maps nothing below the direct map: GiB by GiB, entries 256 to 509 lead to the RAM from 0 on,
   and the kernel's table follows.
   */
  ghost predicate Bare(t: Table, kernel: nat) {
    && |t| == 512 && (forall i :: 0 <= i < 256 ==> t[i] == Null)
    && (forall i :: 256 <= i < 510 ==> t[i] == Leaf(262144 * (i - 256), 0xef))
    && t[510] == Branch(kernel) && t[511] == Null
  }

  /** `VM_DMAP`, whose low 39 bits are 0x4000000000, is where RAM appears: address 0 there, and everything in order. */
  lemma DirectMapped(m: Tables, root: nat, kernel: nat, v: Vpn)
    requires root in m && Bare(m[root], kernel) && 0x40_0000_0000 <= v * 4096 < 0x7f_8000_0000
    ensures Find(m, root, v).Some? && Find(m, root, v).value.flags == 0xef
    ensures var h := Find(m, root, v).value; (h.page + v % Span(h.order)) * 4096 == v * 4096 - 0x40_0000_0000
  {
    var i := v / 262144;
    assert 256 <= i < 510;
    assert m[root][i] == Leaf(262144 * (i - 256), 0xef);
  }

  /** The user half ends at `UVMEM_END`, 8 GiB below the direct map, and nothing is mapped up to the latter. */
  lemma UserHalf(m: Tables, root: nat, kernel: nat, v: Vpn)
    requires root in m && Bare(m[root], kernel)
    ensures Index(v, 2) < CSTACK_PAGE <==> v * 4096 < 0x3e_0000_0000
    ensures v * 4096 < 0x40_0000_0000 ==> Find(m, root, v) == None
  {
    if v * 4096 < 0x40_0000_0000 {
      assert m[root][v / 262144] == Null;
    }
  }

  /** `populate_kvmem`, with the flags V, R, W, X, G, A and D on the direct map. */
  method PopulateKvmem(kernel: nat) returns (t: Table)
    ensures Bare(t, kernel)
  {
    t := seq(LEAVES, i => Null);
    for i := KSTART_PAGE to KERNEL_PAGE
      invariant |t| == LEAVES && forall j :: 0 <= j < LEAVES && !(KSTART_PAGE <= j < i) ==> t[j] == Null
      invariant forall j :: KSTART_PAGE <= j < i ==> t[j] == Leaf(Span(2) * (j - KSTART_PAGE), 0xef)
    {
      t := t[i := Leaf(Span(2) * (i - KSTART_PAGE), 0xef)];
    }
    t := t[KERNEL_PAGE := Branch(kernel)];
  }

  /** The owners after the space `u` is made: a process, or an RPC space that shows the process `shows`. */
  ghost function Founded(w: Owners, u: nat, shows: Option<nat>): Owners {
    Owners(w.home[u := Home(u, 2, 0, u)], if shows.Some? then w.user[u := shows.value] else w.user - {u}, w.kernel)
  }

  lemma CreateFormed(m: Tables, w: Owners, u: nat, t: Table, shows: Option<nat>)
    requires Formed(m, w) && w.home.Keys == m.Keys && u !in m && u != w.kernel && Bare(t, w.kernel)
    requires w.kernel in m && w.home[w.kernel].level == 1 && w.home[w.kernel].slot == KERNEL_PAGE
    ensures Formed(m[u := t], Founded(w, u, shows)) && Founded(w, u, shows).home.Keys == m[u := t].Keys
  {
    var m', w' := m[u := t], Founded(w, u, shows);
    assert Sized(m, w, w.kernel);
    forall x | x in m' ensures Sized(m', w', x) && Hung(m', w', x) {
      if x != u { assert Sized(m, w, x) && Hung(m, w, x); }
    }
    forall x, i | x in m' && 0 <= i < LEAVES && i < |m'[x]| && m'[x][i].Branch? ensures Edge(m', w', x, i) {
      if x != u { assert Edge(m, w, x, i); } else { assert i == KERNEL_PAGE; }
    }
  }

  /** `create_vmem` */
  method CreateVmem(pt: PageTables, kernel: nat, ghost shows: Option<nat>) returns (r: Option<nat>)
    requires pt.Valid() && kernel == pt.own.kernel && kernel in pt.tables
    requires pt.own.home[kernel].level == 1 && pt.own.home[kernel].slot == KERNEL_PAGE
    modifies pt
    ensures pt.Valid() && (r.None? <==> old(pt.avail) == [])
    ensures r.None? ==> pt.tables == old(pt.tables) && pt.own == old(pt.own) && pt.avail == old(pt.avail)
    ensures r.Some? ==>
              var u := r.value;
              && u !in old(pt.tables) && u in pt.tables && pt.tables == old(pt.tables)[u := pt.tables[u]]
              && Bare(pt.tables[u], kernel) && Packed(pt.tables[u]) && IsRoot(pt.own, u)
              && pt.own == Founded(old(pt.own), u, shows) && u == old(pt.avail)[0] && pt.avail == old(pt.avail)[1..]
  {
    hide Formed, Bare;
    if pt.avail == [] {
      return None;
    }
    var u := pt.avail[0];
    var t := PopulateKvmem(kernel);
    CreateFormed(pt.tables, pt.own, u, t, shows);
    BarePacked(t, kernel);
    pt.avail := pt.avail[1..];
    pt.tables := pt.tables[u := t];
    pt.own := Founded(pt.own, u, shows);
    r := Some(u);
  }

  lemma BarePacked(t: Table, kernel: nat)
    requires Bare(t, kernel)
    ensures Packed(t)
  {
  }
}
