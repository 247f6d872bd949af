/**
 Runs of the address space operations of arch/riscv64/kernel/vmem.c: spaces come and go, pages are mapped and
 unmapped, and RPC spaces show the user halves of processes. In every state the user halves are prefixes of entries,
 up to a map that runs out of memory half way or the end of a process that is still shown.
 */
module SpaceRun {
  import opened Common
  import opened PageTable
  import opened Vmem
  import opened Spaces
  import opened Teardown

  datatype Action =
    | NewProcess | NewRpc(p: nat)
    | Map(root: nat, page: nat, v: Vpn, flags: bv8, order: nat) | Unmap(root: nat, v: Vpn)
    | Clone(p: nat, b: nat) | DropRpc(b: nat) | DropProcess(p: nat)

  /**
   What the kernel keeps of its spaces: the top level tables of processes, and of RPC spaces with the process each
   shows.
   */
  datatype Known = Known(procs: set<nat>, rpcs: map<nat, nat>)

  ghost predicate Agrees(m: Tables, w: Owners, k: Known) {
    && w.kernel in m && w.kernel in w.home && w.home[w.kernel].level == 1 && w.home[w.kernel].slot == KERNEL_PAGE
    && k.procs !! k.rpcs.Keys
    && (forall p :: p in k.procs ==> p in m && IsRoot(w, p) && p !in w.user)
    && (forall b :: b in k.rpcs ==> RpcKnown(m, w, k, b))
    && (forall r :: r in m && IsRoot(w, r) ==> r in k.procs || r in k.rpcs)
  }

  ghost predicate RpcKnown(m: Tables, w: Owners, k: Known, b: nat) {
    b in k.rpcs && b in m && IsRoot(w, b) && b in w.user && w.user[b] == k.rpcs[b] && k.rpcs[b] in k.procs
  }

  ghost predicate Fine(pt: PageTables, k: Known)
    reads pt
  {
    pt.Valid() && AllPacked(pt.tables, pt.own) && Agrees(pt.tables, pt.own, k)
  }

  // ----------------------------------------------------------- lookups that stay

  /** A change of one top level table does not show in lookups that start elsewhere. */
  lemma {:induction false} OtherTable(m: Tables, w: Owners, m': Tables, b: nat, t: nat, v: Vpn, o: nat)
    requires Formed(m, w) && t in m && t != b && Serves(w, t, v, o) && o <= 2
    requires b in m ==> b in w.home && w.home[b].level == 2
    requires forall x :: x in m && x != b ==> x in m' && m'[x] == m[x]
    ensures Lookup(m', t, v, o) == Lookup(m, t, v, o)
    decreases o
  {
    Full(m, w, t);
    if m[t][Index(v, o)].Branch? {
      StepDown(m, w, t, v, o);
      OtherTable(m, w, m', b, m[t][Index(v, o)].table, v, o - 1);
    }
  }

  /** Removing a space does not show in lookups of spaces that do not lead into it. */
  lemma {:induction false} AfterRemoval(m: Tables, w: Owners, s: nat, t: nat, v: Vpn, o: nat)
    requires Formed(m, w) && t in m && t in w.home && w.home[t].space != s && Serves(w, t, v, o) && o <= 2
        && !Dangling(m, w, s)
    ensures Lookup(Without(m, w, s), t, v, o) == Lookup(m, t, v, o)
    decreases o
  {
    Full(m, w, t);
    var i := Index(v, o);
    if m[t][i].Branch? {
      StepDown(m, w, t, v, o);
      assert !LeadsInto(m, w, t, i, s);
      AfterRemoval(m, w, s, m[t][i].table, v, o - 1);
    }
  }

  /** Every space but `b` translates as before. */
  ghost predicate OthersSame(m: Tables, w: Owners, m': Tables, b: nat) {
    forall r, x: Vpn :: r in m && IsRoot(w, r) && r != b ==> Find(m', r, x) == Find(m, r, x)
  }

  lemma OthersStay(m: Tables, w: Owners, m': Tables, b: nat)
    requires Formed(m, w) && (b in m ==> IsRoot(w, b)) && forall x :: x in m && x != b ==> x in m' && m'[x] == m[x]
    ensures OthersSame(m, w, m', b)
  {
    hide Formed;
    forall r, x: Vpn | r in m && IsRoot(w, r) && r != b ensures Find(m', r, x) == Find(m, r, x) {
      RootServes(w, r, x);
      OtherTable(m, w, m', b, r, x, 2);
    }
  }

  lemma OthersRemain(m: Tables, w: Owners, s: nat)
    requires Formed(m, w) && IsSpace(m, w, s) && !Dangling(m, w, s)
    ensures OthersSame(m, w, Without(m, w, s), s)
  {
    hide Formed, Dangling, Without;
    forall r, x: Vpn | r in m && IsRoot(w, r) && r != s ensures Find(Without(m, w, s), r, x) == Find(m, r, x) {
      RootServes(w, r, x);
      OwnTop(m, w, r);
      AfterRemoval(m, w, s, r, x, 2);
    }
  }

  // ------------------------------------------------------------------ single actions

  /** A state of a run: tables and owners, the supply of pages for tables, and the known spaces. */
  datatype Snap = Snap(m: Tables, w: Owners, avail: seq<nat>, k: Known)

  ghost function Now(pt: PageTables, k: Known): Snap
    reads pt
  {
    Snap(pt.tables, pt.own, pt.avail, k)
  }

  /** A map that the caller may ask for. */
  ghost predicate Mappable(s: Snap, root: nat, v: Vpn, flags: bv8, order: nat) {
    Own(s.k, root, v) && order <= 2 && flags & 1 == 1 && NoLarger(s.m, root, v, order)
  }

  /** What an action does; an action that makes no sense does nothing. */
  ghost predicate Did(s: Snap, s': Snap, a: Action) {
    match a
    case NewProcess => if s.avail == [] then s' == s else Appeared(s, s', None)
    case NewRpc(p) => if p !in s.k.procs || s.avail == [] then s' == s else Appeared(s, s', Some(p))
    case Map(root, page, v, flags, order) =>
      if !Mappable(s, root, v, flags, order) then s' == s else MapDid(s, s', root, page, v, flags, order)
    case Unmap(root, v) =>
      if !(root in s.k.procs || root in s.k.rpcs) || Find(s.m, root, v).None? then s' == s else UnmapDid(s, s', root, v)
    case Clone(p, b) => if !(p in s.k.procs && b in s.k.rpcs) then s' == s else CloneDid(s, s', p, b)
    case DropRpc(b) => if b !in s.k.rpcs then s' == s else DropDid(s, s', b) && OthersSame(s.m, s.w, s'.m, b)
    case DropProcess(p) =>
      if p !in s.k.procs then s' == s else DropDid(s, s', p) && (!Dangling(s.m, s.w, p) ==>
          OthersSame(s.m, s.w, s'.m, p))
  }

  /**
   The next page of the supply is a new space with an empty user half, known as what it is, and nobody else sees it.
   */
  ghost predicate Appeared(s: Snap, s': Snap, shows: Option<nat>) {
    && s.avail != []
    && var u := s.avail[0];
    && u !in s.m && u in s'.m && s'.m == s.m[u := s'.m[u]] && s'.w == Founded(s.w, u, shows) && s'.avail == s.avail[1..]
    && s'.k == With(s.k, u, shows) && Spaces.Bare(s'.m[u], s.w.kernel) && OthersSame(s.m, s.w, s'.m, u)
    && forall x: Vpn :: Index(x, 2) < CSTACK_PAGE ==> Find(s'.m, u, x) == None
  }

  /**
   Exactly the missing tables are drawn from the supply; the page is mapped unless its entry is taken or tables are
   lacking.
   */
  ghost predicate MapDid(s: Snap, s': Snap, root: nat, page: nat, v: Vpn, flags: bv8, order: nat)
    requires order <= 2
  {
    var lack := Missing(s.m, root, v, 2, order);
    && s'.k == s.k && Extends(s.w, s'.w) && Drawn(s.m, s.avail, s'.m, s'.avail)
    && |s'.avail| == (if lack > |s.avail| then 0 else |s.avail| - lack)
    && if Taken(s.m, root, v, order) || lack > |s.avail| then SameMaps(s.m, s.w, s'.m)
       else && Mapped(s.m, s.w, s'.m, root, v, order, Hit(page, order, flags | 0xC0))
            && Reflected(s.m, s.w, s'.m, root, v, order, Some(Hit(page, order, flags | 0xC0)))
  }

  ghost predicate UnmapDid(s: Snap, s': Snap, root: nat, v: Vpn)
    requires Find(s.m, root, v).Some?
  {
    var order := Find(s.m, root, v).value.order;
    && s'.k == s.k && s'.w == s.w && s'.avail == s.avail && s'.m.Keys == s.m.Keys
    && Unmapped(s.m, s.w, s'.m, root, v, order)
    && (Own(s.k, root, v) ==> Reflected(s.m, s.w, s'.m, root, v, order, None))
  }

  ghost predicate CloneDid(s: Snap, s': Snap, p: nat, b: nat) {
    && p in s.m && b in s.m && |s.m[p]| == LEAVES && |s.m[b]| == LEAVES
    && s'.m == s.m[b := FullCopy(s.m[p], s.m[b])] && s'.w == Showing(s.w, b, p) && s'.avail == s.avail
    && s'.k == Known(s.k.procs, s.k.rpcs[b := p]) && OthersSame(s.m, s.w, s'.m, b)
    && forall x: Vpn :: Index(x, 2) < CSTACK_PAGE ==> Find(s'.m, b, x) == Find(s'.m, p, x)
  }

  /** The space `x` is gone, and exactly its tables are back in the supply, each once. */
  ghost predicate DropDid(s: Snap, s': Snap, x: nat) {
    && s'.m == Without(s.m, s.w, x) && s'.w == Forget(s.w, x) && s'.k == Known(s.k.procs - {x}, s.k.rpcs - {x})
        && x !in s'.m
    && |s.avail| <= |s'.avail| && s'.avail[..|s.avail|] == s.avail && Returned(s.m, s.w, x, s'.avail[|s.avail|..])
  }

  ghost predicate Returned(m: Tables, w: Owners, x: nat, log: seq<nat>) {
    NoRepeats(log) && forall u :: u in log <==> u in m && u in w.home && w.home[u].space == x
  }

  /**
   When a run cannot go on: the action leaves empty entries below a new one, or destroys a process that is still
   shown.
   */
  ghost predicate Spoils(s: Snap, a: Action) {
    match a
    case Map(root, page, v, flags, order) =>
      && Mappable(s, root, v, flags, order) && root in s.m
      && LeavesGap(s.m[root], Index(v, 2), |s.avail|) && Missing(s.m, root, v, 2, order) > |s.avail|
    case DropProcess(p) => p in s.k.procs && p in s.k.rpcs.Values
    case _ => false
  }

  /**
   What it leaves: a user half that is no prefix, or, if an RPC space led into the process, entries that lead nowhere.
   */
  ghost predicate Spoilt(s: Snap, pt: PageTables, a: Action)
    reads pt
  {
    match a
    case Map(root, page, v, flags, order) => pt.Valid() && !AllPacked(pt.tables, pt.own)
    case DropProcess(p) => pt.Valid() <==> !Dangling(s.m, s.w, p)
    case _ => false
  }

  method Create(pt: PageTables, k: Known, kernel: nat, shows: Option<nat>) returns (k': Known)
    requires Fine(pt, k) && kernel == pt.own.kernel && (shows.Some? ==> shows.value in k.procs)
    modifies pt
    ensures Fine(pt, k') && pt.own.kernel == kernel
    ensures if old(pt.avail) == [] then Now(pt, k') == old(Now(pt, k))
        else Appeared(old(Now(pt, k)), Now(pt, k'), shows)
  {
    hide Formed, Packed, OthersSame;
    ghost var m, w := pt.tables, pt.own;
    var r := CreateVmem(pt, kernel, shows);
    k' := k;
    if r.Some? {
      var u := r.value;
      k' := if shows.Some? then Known(k.procs, k.rpcs[u := shows.value]) else Known(k.procs + {u}, k.rpcs);
      NewIsFine(m, w, pt.tables, k, u, shows);
      OthersStay(m, w, pt.tables, u);
      NewIsEmpty(pt.tables, u, kernel);
    }
  }

  ghost function With(k: Known, u: nat, shows: Option<nat>): Known {
    if shows.Some? then Known(k.procs, k.rpcs[u := shows.value]) else Known(k.procs + {u}, k.rpcs)
  }

  lemma NewIsFine(m: Tables, w: Owners, m': Tables, k: Known, u: nat, shows: Option<nat>)
    requires AllPacked(m, w) && Agrees(m, w, k) && u !in m && u in m' && m' == m[u := m'[u]] && Packed(m'[u])
        && w.home.Keys == m.Keys
    requires shows.Some? ==> shows.value in k.procs
    ensures AllPacked(m', Founded(w, u, shows)) && Agrees(m', Founded(w, u, shows), With(k, u, shows))
  {
    hide Packed, Agrees;
    if shows.Some? { NewRpcKnown(m, w, m', k, u, shows.value); } else { NewProcessKnown(m, w, m', k, u); }
  }

  lemma NewProcessKnown(m: Tables, w: Owners, m': Tables, k: Known, u: nat)
    requires Agrees(m, w, k) && u !in m && u in m' && m' == m[u := m'[u]] && w.home.Keys == m.Keys
    ensures Agrees(m', Founded(w, u, None), Known(k.procs + {u}, k.rpcs))
  {
    var w', k' := Founded(w, u, None), Known(k.procs + {u}, k.rpcs);
    assert u in k.rpcs ==> RpcKnown(m, w, k, u);
    forall b | b in k'.rpcs ensures RpcKnown(m', w', k', b) { assert RpcKnown(m, w, k, b); }
  }

  lemma NewRpcKnown(m: Tables, w: Owners, m': Tables, k: Known, u: nat, p: nat)
    requires Agrees(m, w, k) && u !in m && u in m' && m' == m[u := m'[u]] && w.home.Keys == m.Keys && p in k.procs
    ensures Agrees(m', Founded(w, u, Some(p)), Known(k.procs, k.rpcs[u := p]))
  {
    var w', k' := Founded(w, u, Some(p)), Known(k.procs, k.rpcs[u := p]);
    forall b | b in k'.rpcs ensures RpcKnown(m', w', k', b) { if b != u { assert RpcKnown(m, w, k, b); } }
  }

  lemma NewIsEmpty(m: Tables, u: nat, kernel: nat)
    requires u in m && Spaces.Bare(m[u], kernel)
    ensures forall x: Vpn :: Index(x, 2) < CSTACK_PAGE ==> Find(m, u, x) == None
  {
  }

  /** `root` may map `v`: below the kernel, and for an RPC space above the user half. */
  predicate Own(k: Known, root: nat, v: Vpn) {
    Index(v, 2) < KERNEL_PAGE && (root in k.procs || (root in k.rpcs && Index(v, 2) >= CSTACK_PAGE))
  }

  lemma OwnMayMap(m: Tables, w: Owners, k: Known, root: nat, v: Vpn)
    requires Formed(m, w) && Agrees(m, w, k) && Own(k, root, v)
    ensures root in m && MayMap(w, root, v)
  {
    assert root in k.rpcs ==> RpcKnown(m, w, k, root);
    OwnTop(m, w, root);
  }

  method MapIn(pt: PageTables, k: Known, root: nat, page: nat, v: Vpn, flags: bv8, order: nat) returns (fine: bool)
    requires Fine(pt, k)
    modifies pt
    ensures fine ==> Fine(pt, k)
    ensures pt.own.kernel == old(pt.own.kernel)
    ensures fine <==> !Spoils(old(Now(pt, k)), Map(root, page, v, flags, order))
    ensures !fine ==> Spoilt(old(Now(pt, k)), pt, Map(root, page, v, flags, order))
    ensures Did(old(Now(pt, k)), Now(pt, k), Map(root, page, v, flags, order))
  {
    hide Formed, Packed, Mapped, Reflected, AllPacked, Agrees, OtherTops, Marked, LeavesGap, Missing, MayMap,
        SameMaps, Taken, Drawn, Extends;
    ghost var m, w := pt.tables, pt.own;
    fine := true;
    Reflexive(m, w);
    if !Own(k, root, v) || order > 2 || flags & 1 != 1 {
      return;
    }
    OwnMayMap(m, w, k, root, v);
    MapRoot(w, root, v);
    var c := pt.FindEntry(root, v);
    if c.Some? && c.value.level > order {
      return;
    }
    PackedRoot(m, w, root);
    var gap := LeavesGap(pt.tables[root], Index(v, 2), |pt.avail|);
    var st := pt.MapPage(root, page, v, flags, order);
    StillAgrees(m, w, pt.tables, pt.own, k);
    if st == ErrOomem && gap {
      fine := false;
      NotAllPacked(w, pt.tables, pt.own, root);
    }
  }

  lemma MapRoot(w: Owners, root: nat, v: Vpn)
    requires MayMap(w, root, v)
    ensures IsRoot(w, root)
  {
  }

  lemma PackedRoot(m: Tables, w: Owners, root: nat)
    requires AllPacked(m, w) && root in m && IsRoot(w, root)
    ensures Packed(m[root])
  {
  }

  lemma NotAllPacked(w: Owners, m: Tables, w': Owners, root: nat)
    requires Extends(w, w') && IsRoot(w, root) && root in m && !Packed(m[root])
    ensures !AllPacked(m, w')
  {
  }

  lemma StillAgrees(m: Tables, w: Owners, m': Tables, w': Owners, k: Known)
    requires Agrees(m, w, k) && Extends(w, w') && m.Keys == w.home.Keys && m'.Keys == w'.home.Keys
    ensures Agrees(m', w', k) && w'.kernel == w.kernel
  {
    forall b | b in k.rpcs ensures RpcKnown(m', w', k, b) { assert RpcKnown(m, w, k, b); }
  }

  lemma KnownRoot(m: Tables, w: Owners, k: Known, r: nat)
    requires Agrees(m, w, k) && (r in k.procs || r in k.rpcs)
    ensures r in m && IsRoot(w, r) && r != w.kernel
    ensures if r in k.procs then r !in w.user else r in w.user && w.user[r] == k.rpcs[r] && k.rpcs[r] in k.procs
  {
    assert r in k.rpcs ==> RpcKnown(m, w, k, r);
  }

  method UnmapIn(pt: PageTables, k: Known, root: nat, v: Vpn)
    requires Fine(pt, k)
    modifies pt
    ensures Fine(pt, k) && pt.own.kernel == old(pt.own.kernel)
    ensures Did(old(Now(pt, k)), Now(pt, k), Unmap(root, v))
  {
    hide Formed, Packed, Unmapped, Reflected, AllPacked, OtherTops, Marked, Agrees;
    ghost var m, w := pt.tables, pt.own;
    if root in k.procs || root in k.rpcs {
      KnownRoot(m, w, k, root);
      if Own(k, root, v) { OwnMayMap(m, w, k, root, v); }
      var st := pt.UnmapPage(root, v);
      KeepsItself(w);
      StillAgrees(m, w, pt.tables, w, k);
    }
  }

  method CloneIn(pt: PageTables, k: Known, p: nat, b: nat) returns (k': Known)
    requires Fine(pt, k)
    modifies pt
    ensures Fine(pt, k') && pt.own.kernel == old(pt.own.kernel)
    ensures Did(old(Now(pt, k)), Now(pt, k'), Clone(p, b))
  {
    hide Formed, Packed, FullCopy, OthersSame, Agrees, AllPacked;
    ghost var m, w := pt.tables, pt.own;
    k' := k;
    if p in k.procs && b in k.rpcs {
      KnownRoot(m, w, k, p);
      KnownRoot(m, w, k, b);
      ProcsAndRpcs(m, w, k, p, b);
      PackedRoot(m, w, p);
      PackedRoot(m, w, b);
      CloneUvmem(pt, p, b);
      CloneAgrees(m, w, pt.tables, k, p, b);
      k' := Known(k.procs, k.rpcs[b := p]);
      OthersStay(m, w, pt.tables, b);
      CopiedHalf(m[p], m[b]);
      forall x: Vpn | Index(x, 2) < CSTACK_PAGE ensures Find(pt.tables, b, x) == Find(pt.tables, p, x) {
        Full(pt.tables, pt.own, b);
        CloneTranslates(pt.tables, pt.own, p, b, x);
      }
    }
  }

  lemma ProcsAndRpcs(m: Tables, w: Owners, k: Known, p: nat, b: nat)
    requires Agrees(m, w, k) && p in k.procs && b in k.rpcs
    ensures p != b && IsRpc(w, b)
  {
    assert RpcKnown(m, w, k, b);
  }

  lemma CloneAgrees(m: Tables, w: Owners, m': Tables, k: Known, p: nat, b: nat)
    requires Agrees(m, w, k) && AllPacked(m, w) && p in k.procs && b in k.rpcs && b in m && b in m'
        && m' == m[b := m'[b]] && Packed(m'[b])
    ensures Agrees(m', Showing(w, b, p), Known(k.procs, k.rpcs[b := p])) && AllPacked(m', Showing(w, b, p))
  {
    hide Packed;
    var w', k' := Showing(w, b, p), Known(k.procs, k.rpcs[b := p]);
    forall x | x in k'.rpcs ensures RpcKnown(m', w', k', x) { assert RpcKnown(m, w, k, x); }
  }

  lemma CopiedHalf(src: Table, dst: Table)
    requires |src| == LEAVES && |dst| == LEAVES
    ensures |FullCopy(src, dst)| == LEAVES && FullCopy(src, dst)[..CSTACK_PAGE] == src[..CSTACK_PAGE]
  {
  }

  /** A known space is one that can be torn down. */
  lemma KnownSpace(m: Tables, w: Owners, k: Known, s: nat)
    requires Agrees(m, w, k) && (s in k.procs || s in k.rpcs)
    ensures IsSpace(m, w, s) && (s in k.procs <==> s !in w.user)
    ensures s !in k.rpcs.Values ==> Unshown(m, w, s)
  {
    assert s in k.rpcs ==> RpcKnown(m, w, k, s);
    forall r | s !in k.rpcs.Values && r in m && IsRoot(w, r) && r != s ensures Shown(w, r) != s {
      assert r in k.rpcs ==> RpcKnown(m, w, k, r) && k.rpcs[r] in k.rpcs.Values;
    }
  }

  /** Without the space `s`, which nobody shows, the rest is as fine as before. */
  lemma RestAgrees(m: Tables, w: Owners, k: Known, s: nat)
    requires Formed(m, w) && w.home.Keys == m.Keys && Agrees(m, w, k) && AllPacked(m, w) && IsSpace(m, w, s)
        && s !in k.rpcs.Values
    ensures Agrees(Without(m, w, s), Forget(w, s), Known(k.procs - {s}, k.rpcs - {s}))
        && AllPacked(Without(m, w, s), Forget(w, s))
  {
    hide Formed, Packed;
    var m', w' := Without(m, w, s), Forget(w, s);
    KernelOwn(m, w);
    forall r | r in m && IsRoot(w, r) ensures r != s ==> r in m' && m'[r] == m[r] && IsRoot(w', r) { OwnTop(m, w, r); }
    forall r | r in m' && IsRoot(w', r) ensures r in m && IsRoot(w, r) && r != s && m'[r] == m[r] { OwnTop(m, w, s); }
    var k' := Known(k.procs - {s}, k.rpcs - {s});
    forall b | b in k'.rpcs ensures RpcKnown(m', w', k', b) {
      assert RpcKnown(m, w, k, b) && k.rpcs[b] in k.rpcs.Values;
    }
  }

  lemma KernelOwn(m: Tables, w: Owners)
    requires Formed(m, w) && w.kernel in m
    ensures w.kernel in w.home && w.home[w.kernel].space == w.kernel
  {
    assert Sized(m, w, w.kernel);
  }

  method DropRpcOf(pt: PageTables, k: Known, b: nat) returns (k': Known)
    requires Fine(pt, k)
    modifies pt
    ensures Fine(pt, k') && pt.own.kernel == old(pt.own.kernel)
    ensures Did(old(Now(pt, k)), Now(pt, k'), DropRpc(b))
  {
    hide Formed, AllPacked, Agrees, Without, Unshown, Dangling, OthersSame, IsSpace;
    ghost var m, w := pt.tables, pt.own;
    k' := k;
    if b in k.rpcs {
      RpcUnshown(m, w, k, b);
      KnownSpace(m, w, k, b);
      UnshownNotDangling(m, w, b);
      OthersRemain(m, w, b);
      RestAgrees(m, w, k, b);
      Gone(m, w, b);
      SpaceUser(m, w, k, b);
      ghost var avail := pt.avail;
      var log := DestroyRpcmem(pt, b);
      Appended(avail, log);
      k' := Known(k.procs - {b}, k.rpcs - {b});
    }
  }

  lemma Appended(a: seq<nat>, b: seq<nat>)
    ensures (a + b)[..|a|] == a && (a + b)[|a|..] == b
  {
  }

  lemma RpcUnshown(m: Tables, w: Owners, k: Known, b: nat)
    requires Agrees(m, w, k) && b in k.rpcs
    ensures b !in k.rpcs.Values
  {
    forall x | x in k.rpcs ensures k.rpcs[x] != b { assert RpcKnown(m, w, k, x); }
  }

  lemma SpaceUser(m: Tables, w: Owners, k: Known, b: nat)
    requires Agrees(m, w, k) && b in k.rpcs
    ensures b in w.user
  {
    assert RpcKnown(m, w, k, b);
  }

  lemma Gone(m: Tables, w: Owners, s: nat)
    requires Formed(m, w) && IsSpace(m, w, s)
    ensures s !in Without(m, w, s) && Forget(w, s).kernel == w.kernel
  {
    OwnTop(m, w, s);
  }

  method DropProcessOf(pt: PageTables, k: Known, p: nat) returns (k': Known, fine: bool)
    requires Fine(pt, k)
    modifies pt
    ensures fine ==> Fine(pt, k')
    ensures pt.own.kernel == old(pt.own.kernel)
    ensures fine <==> !Spoils(old(Now(pt, k)), DropProcess(p))
    ensures !fine ==> Spoilt(old(Now(pt, k)), pt, DropProcess(p))
    ensures Did(old(Now(pt, k)), Now(pt, k'), DropProcess(p))
  {
    hide Formed, AllPacked, Agrees, Without, Unshown, Dangling, OthersSame, IsSpace;
    ghost var m, w := pt.tables, pt.own;
    k', fine := k, true;
    if p in k.procs {
      fine := p !in k.rpcs.Values;
      KnownSpace(m, w, k, p);
      if !Dangling(m, w, p) { OthersRemain(m, w, p); }
      if fine { RestAgrees(m, w, k, p); }
      Gone(m, w, p);
      ghost var avail := pt.avail;
      var log := DestroyVmem(pt, p);
      Appended(avail, log);
      k' := Known(k.procs - {p}, k.rpcs - {p});
    }
  }

  // ------------------------------------------------------------------ whole runs

  method Serve(pt: PageTables, k: Known, kernel: nat, a: Action) returns (k': Known, fine: bool)
    requires Fine(pt, k) && kernel == pt.own.kernel
    modifies pt
    ensures pt.own.kernel == kernel && (fine ==> Fine(pt, k')) && (fine <==> !Spoils(old(Now(pt, k)), a))
    ensures !fine ==> Spoilt(old(Now(pt, k)), pt, a)
    ensures Did(old(Now(pt, k)), Now(pt, k'), a)
  {
    hide Fine, Appeared, Spoilt, MapDid, UnmapDid, CloneDid, DropDid, OthersSame, Dangling, Find, PageTables.Valid,
        Mappable, Missing;
    k', fine := k, true;
    match a
    case NewProcess => k' := Create(pt, k, kernel, None);
    case NewRpc(p) => if p in k.procs { k' := Create(pt, k, kernel, Some(p)); }
    case Map(root, page, v, flags, order) => fine := MapIn(pt, k, root, page, v, flags, order);
    case Unmap(root, v) => UnmapIn(pt, k, root, v);
    case Clone(p, b) => k' := CloneIn(pt, k, p, b);
    case DropRpc(b) => k' := DropRpcOf(pt, k, b);
    case DropProcess(p) => k', fine := DropProcessOf(pt, k, p);
  }

  /** Tables and owners are in order, with a prefix of entries in every user half. */
  ghost predicate InOrder(s: Snap) {
    Formed(s.m, s.w) && AllPacked(s.m, s.w) && Agrees(s.m, s.w, s.k)
  }

  lemma FineInOrder(pt: PageTables, k: Known)
    requires Fine(pt, k)
    ensures InOrder(Now(pt, k)) && pt.Valid()
  {
  }

  /**
   Any script of actions, up to the first one that spoils the tables, if there is one: all states before are in order,
   with user halves that are prefixes, and every action has its stated effect on tables, translations, supply and
   known spaces.
   */
  method Run(pt: PageTables, kernel: nat, script: seq<Action>) returns (n: nat, ghost trace: seq<Snap>)
    requires pt.Valid() && kernel == pt.own.kernel && Agrees(pt.tables, pt.own, Known({}, map[]))
    modifies pt
    ensures n <= |script| && |trace| == (if n < |script| then n + 2 else n + 1)
    ensures trace[0] == old(Now(pt, Known({}, map[]))) && trace[|trace| - 1] == Now(pt, trace[|trace| - 1].k)
    ensures forall j :: 0 <= j <= n ==> InOrder(trace[j])
    ensures forall j :: 0 <= j < |trace| - 1 ==> Did(trace[j], trace[j + 1], script[j])
    ensures forall j :: 0 <= j < n ==> !Spoils(trace[j], script[j])
    ensures n == |script| ==> pt.Valid()
    ensures n < |script| ==> Spoils(trace[n], script[n]) && Spoilt(trace[n], pt, script[n])
  {
    hide Fine, InOrder, Did, Spoils, Spoilt, Agrees, PageTables.Valid, AllPacked;
    var k, fine := Known({}, map[]), true;
    n, trace := 0, [Now(pt, k)];
    NoSpaces(pt);
    FineInOrder(pt, k);
    while n < |script| && fine
      invariant n <= |script| && (fine || n < |script|) && |trace| == (if fine then n + 1 else n + 2)
          && kernel == pt.own.kernel
      invariant trace[0] == old(Now(pt, Known({}, map[]))) && trace[|trace| - 1] == Now(pt, k)
      invariant forall j :: 0 <= j <= n ==> InOrder(trace[j])
      invariant forall j :: 0 <= j < |trace| - 1 ==> Did(trace[j], trace[j + 1], script[j])
      invariant forall j :: 0 <= j < n ==> !Spoils(trace[j], script[j])
      invariant fine ==> Fine(pt, k)
      invariant !fine ==> Spoils(trace[n], script[n]) && Spoilt(trace[n], pt, script[n])
      decreases |script| - n, fine
    {
      k, fine := Serve(pt, k, kernel, script[n]);
      trace := trace + [Now(pt, k)];
      if fine {
        n := n + 1;
        FineInOrder(pt, k);
      }
    }
    if fine { FineInOrder(pt, k); }
  }

  lemma NoSpaces(pt: PageTables)
    requires pt.Valid() && Agrees(pt.tables, pt.own, Known({}, map[]))
    ensures Fine(pt, Known({}, map[]))
  {
  }

  // ------------------------------------------------- inputs behind the exceptions

  /** The supply and the kernel table before any space is made. */
  method Boot(pages: seq<nat>) returns (pt: PageTables)
    requires 0 !in pages && forall i, j :: 0 <= i < j < |pages| ==> pages[i] != pages[j]
    ensures fresh(pt) && Fine(pt, Known({}, map[])) && pt.own.kernel == 0 && pt.avail == pages
  {
    pt := new PageTables(0, pages);
  }

  /** In a new space two tables are missing for a page of the lowest order, and nothing is in its way. */
  lemma NothingThere(m: Tables, root: nat, kernel: nat, v: Vpn)
    requires root in m && Spaces.Bare(m[root], kernel) && Index(v, 2) < CSTACK_PAGE
    ensures |m[root]| == LEAVES && m[root][0] == Null && m[root][Index(v, 2)] == Null && Missing(m, root, v, 2, 0) == 2
    ensures Find(m, root, v) == None && !Taken(m, root, v, 0)
  {
  }

  /**
   One page is left for tables, and a page behind the first entry is mapped: the prefix of the user half has a gap.
   */
  method GapReached() returns (pt: PageTables, root: nat, st: Status)
    ensures fresh(pt) && pt.Valid() && root in pt.tables && IsRoot(pt.own, root) && st == ErrOomem
        && !Packed(pt.tables[root])
  {
    hide Formed, SameMaps, Mapped, Reflected, Extends, OtherTops, Drawn, Marked, Packed, Agrees, Spaces.Bare,
        OthersSame, Missing, Taken;
    pt := Boot([1, 2]);
    var k := Create(pt, Known({}, map[]), 0, None);
    root := 1;
    var v: Vpn := 262144;
    ghost var m, w := pt.tables, pt.own;
    OwnMayMap(m, w, k, root, v);
    MapRoot(w, root, v);
    PackedRoot(m, w, root);
    NothingThere(m, root, 0, v);
    st := pt.MapPage(root, 0, v, 1, 0);
    KeepsRoot(w, pt.own, root);
    assert LeavesGap(m[root], Index(v, 2), 1);
  }

  lemma MappedHere(m: Tables, w: Owners, m': Tables, root: nat, v: Vpn, order: nat, hit: Hit)
    requires Mapped(m, w, m', root, v, order, hit)
    ensures Find(m', root, v) == Some(hit)
  {
    assert SamePage(v, v, order);
  }

  /** An RPC space in which something below a table of the process is mapped leads into the process. */
  lemma ShownDangles(m: Tables, w: Owners, p: nat, b: nat, v: Vpn)
    requires Formed(m, w) && b in m && IsRoot(w, b) && b in w.user && w.user[b] == p && b != p
        && Index(v, 2) < CSTACK_PAGE
    requires Find(m, b, v).Some? && Find(m, b, v).value.order < 2
    ensures Dangling(m, w, p) && |m[b]| == LEAVES && LeadsInto(m, w, b, Index(v, 2), p)
    ensures b in Without(m, w, p) && Without(m, w, p)[b] == m[b] && m[b][Index(v, 2)].table !in Without(m, w, p)
  {
    Full(m, w, b);
    OwnTop(m, w, b);
    assert Edge(m, w, b, Index(v, 2));
    assert LeadsInto(m, w, b, Index(v, 2), p);
  }

  /** A process `p`, and an RPC space `b` that shows it. */
  method ProcessAndRpc() returns (pt: PageTables, p: nat, b: nat, k: Known)
    ensures fresh(pt) && Fine(pt, k) && k == Known({p}, map[b := p]) && p != b && |pt.avail| == 2
    ensures p in pt.tables && Spaces.Bare(pt.tables[p], pt.own.kernel)
  {
    hide Formed, Packed, Agrees, AllPacked, Spaces.Bare, OthersSame;
    p, b := 1, 2;
    pt := Boot([1, 2, 3, 4]);
    k := Create(pt, Known({}, map[]), 0, None);
    k := Create(pt, k, 0, Some(p));
  }

  /** A process is mapped, shown and destroyed: the RPC space has an entry that leads nowhere. */
  method DanglingReached() returns (pt: PageTables, b: nat)
    ensures fresh(pt) && !pt.Valid() && b in pt.tables && |pt.tables[b]| == LEAVES
    ensures pt.tables[b][0].Branch? && pt.tables[b][0].table !in pt.tables
  {
    hide Formed, SameMaps, Mapped, Reflected, Extends, Drawn, Packed, AllPacked, Agrees, Spaces.Bare, OthersSame,
        Missing, Taken;
    hide Dangling, Unshown, FullCopy, LeavesGap, Find, Without, IsSpace;
    var p, k;
    pt, p, b, k := ProcessAndRpc();
    ghost var m, w := pt.tables, pt.own;
    NothingThere(m, p, w.kernel, 0);
    var fine := MapIn(pt, k, p, 9, 0, 1, 0);
    MappedHere(m, w, pt.tables, p, 0, 0, Hit(9, 0, 1 | 0xC0));
    ghost var m1, w1 := pt.tables, pt.own;
    KnownRoot(m1, w1, k, p);
    k := CloneIn(pt, k, p, b);
    SameElsewhere(m1, w1, pt.tables, b, p, 0);
    KnownRoot(pt.tables, pt.own, k, b);
    KnownSpace(pt.tables, pt.own, k, p);
    ShownDangles(pt.tables, pt.own, p, b, 0);
    var log := DestroyVmem(pt, p);
  }

  lemma SameElsewhere(m: Tables, w: Owners, m': Tables, b: nat, r: nat, x: Vpn)
    requires OthersSame(m, w, m', b) && r in m && IsRoot(w, r) && r != b
    ensures Find(m', r, x) == Find(m, r, x)
  {
  }
}
