/**
 The shape of an intrusive tree: an immutable ghost tree whose nodes are the heap objects, contexts
 (trees with one subtree missing) for pointers into the middle of a tree, and in-order sequences.
 */
module Tree {

  /**
   `struct mem_region` with its embedded `struct sp_node`. The tree code touches only the first
   four fields, the region code only the others. Addresses are counted in pages.
   */
  class Region {
    var left: Region?
    var right: Region?
    var parent: Region?
    var hint: int

    var next: Region?
    var prev: Region?
    var start: nat
    var end: nat
    var used: bool

    /** `get_mem_node` returns zeroed nodes; `__create_region` fills in the extent and the links. */
    constructor (start: nat, end: nat, prev: Region?, next: Region?)
      ensures left == null && right == null && parent == null && hint == 0
      ensures this.start == start && this.end == end && this.prev == prev && this.next == next && !used
    {
      left, right, parent, hint := null, null, null, 0;
      this.start, this.end, this.prev, this.next := start, end, prev, next;
      used := false;
    }
  }

  datatype Tree = Leaf | Branch(l: Tree, n: Region, r: Tree)

  ghost function Nodes(t: Tree): set<Region> {
    match t
    case Leaf => {}
    case Branch(l, n, r) => Nodes(l) + {n} + Nodes(r)
  }

  ghost function Inorder(t: Tree): seq<Region> {
    match t
    case Leaf => []
    case Branch(l, n, r) => Inorder(l) + [n] + Inorder(r)
  }

  ghost function Top(t: Tree): Region? {
    if t.Leaf? then null else t.n
  }

  /** Every node occurs once. */
  ghost predicate Apart(t: Tree) {
    match t
    case Leaf => true
    case Branch(l, n, r) =>
      Apart(l) && Apart(r) && n !in Nodes(l) && n !in Nodes(r) && Nodes(l) !! Nodes(r)
  }

  /** A snapshot of the tree pointers of some nodes. */
  datatype Ptrs = Ptrs(left: map<Region, Region?>, right: map<Region, Region?>, parent: map<Region, Region?>) {
    ghost predicate Has(x: Region) {
      x in left && x in right && x in parent
    }
  }

  ghost function Snap(nodes: set<Region>): (h: Ptrs)
    reads nodes`left, nodes`right, nodes`parent
    ensures h.left.Keys == h.right.Keys == h.parent.Keys == nodes
  {
    Ptrs(map x | x in nodes :: x.left, map x | x in nodes :: x.right, map x | x in nodes :: x.parent)
  }

  ghost predicate Agree(h: Ptrs, h': Ptrs, nodes: set<Region>) {
    forall x :: x in nodes && h.Has(x) ==>
      h'.Has(x) && h'.left[x] == h.left[x] && h'.right[x] == h.right[x] && h'.parent[x] == h.parent[x]
  }

  /** The pointers of the nodes of `t` spell out `t`, hanging below `parent`. */
  ghost predicate Linked(h: Ptrs, t: Tree, parent: Region?) {
    match t
    case Leaf => true
    case Branch(l, n, r) =>
      && h.Has(n) && h.parent[n] == parent && h.left[n] == Top(l) && h.right[n] == Top(r)
      && Linked(h, l, n) && Linked(h, r, n)
  }

  lemma {:induction false} LinkedFrame(h: Ptrs, h': Ptrs, t: Tree, parent: Region?)
    requires Linked(h, t, parent) && Agree(h, h', Nodes(t))
    ensures Linked(h', t, parent)
  {
    if t.Branch? {
      LinkedFrame(h, h', t.l, t.n);
      LinkedFrame(h, h', t.r, t.n);
    }
  }

  /** Hanging a tree below another node changes only the parent pointer of its top. */
  lemma {:induction false} Reparent(h: Ptrs, h': Ptrs, t: Tree, from: Region?, to: Region?)
    requires Linked(h, t, from) && Apart(t)
    requires Agree(h, h', Nodes(t) - (if t.Leaf? then {} else {t.n}))
    requires t.Branch? ==>
        h'.Has(t.n) && h'.left[t.n] == h.left[t.n] && h'.right[t.n] == h.right[t.n] && h'.parent[t.n] == to
    ensures Linked(h', t, to)
  {
    if t.Branch? {
      LinkedFrame(h, h', t.l, t.n);
      LinkedFrame(h, h', t.r, t.n);
    }
  }

  /** A tree with a hole: the hole is the left or the right child of `n`, `sib` its sibling. */
  datatype Ctx = Root | LeftOf(n: Region, sib: Tree, up: Ctx) | RightOf(n: Region, sib: Tree, up: Ctx)

  ghost function Plug(c: Ctx, t: Tree): Tree {
    match c
    case Root => t
    case LeftOf(n, sib, up) => Plug(up, Branch(t, n, sib))
    case RightOf(n, sib, up) => Plug(up, Branch(sib, n, t))
  }

  ghost function CtxNodes(c: Ctx): set<Region> {
    match c
    case Root => {}
    case LeftOf(n, sib, up) => {n} + Nodes(sib) + CtxNodes(up)
    case RightOf(n, sib, up) => {n} + Nodes(sib) + CtxNodes(up)
  }

  /** The node above the hole, or `base` if the hole is the whole tree. */
  ghost function Above(c: Ctx, base: Region?): Region? {
    if c.Root? then base else c.n
  }

  /** The root of the tree once the hole is filled by `hole`. */
  ghost function CtxTop(c: Ctx, hole: Region?): Region? {
    match c
    case Root => hole
    case LeftOf(n, _, up) => CtxTop(up, n)
    case RightOf(n, _, up) => CtxTop(up, n)
  }

  ghost predicate CtxApart(c: Ctx) {
    match c
    case Root => true
    case LeftOf(n, sib, up) => FrameApart(n, sib, up) && CtxApart(up)
    case RightOf(n, sib, up) => FrameApart(n, sib, up) && CtxApart(up)
  }

  ghost predicate FrameApart(n: Region, sib: Tree, up: Ctx) {
    Apart(sib) && n !in Nodes(sib) && n !in CtxNodes(up) && Nodes(sib) !! CtxNodes(up)
  }

  ghost predicate CtxLinked(h: Ptrs, c: Ctx, hole: Region?, base: Region?) {
    match c
    case Root => true
    case LeftOf(n, sib, up) =>
      && h.Has(n) && h.left[n] == hole && h.right[n] == Top(sib) && h.parent[n] == Above(up, base)
      && Linked(h, sib, n) && CtxLinked(h, up, n, base)
    case RightOf(n, sib, up) =>
      && h.Has(n) && h.right[n] == hole && h.left[n] == Top(sib) && h.parent[n] == Above(up, base)
      && Linked(h, sib, n) && CtxLinked(h, up, n, base)
  }

  lemma {:induction false} CtxFrame(h: Ptrs, h': Ptrs, c: Ctx, hole: Region?, base: Region?)
    requires CtxLinked(h, c, hole, base) && Agree(h, h', CtxNodes(c))
    ensures CtxLinked(h', c, hole, base)
  {
    if !c.Root? {
      LinkedFrame(h, h', c.sib, c.n);
      CtxFrame(h, h', c.up, c.n, base);
    }
  }

  /** Filling the hole of a context with another node changes one child pointer. */
  lemma {:induction false} Refill(h: Ptrs, h': Ptrs, c: Ctx, hole: Region?, hole': Region?, base: Region?)
    requires CtxLinked(h, c, hole, base) && CtxApart(c)
    requires Agree(h, h', CtxNodes(c) - (if c.Root? then {} else {c.n}))
    requires !c.Root? ==> h'.Has(c.n) && h'.parent[c.n] == h.parent[c.n]
    requires c.LeftOf? ==> h'.left[c.n] == hole' && h'.right[c.n] == h.right[c.n]
    requires c.RightOf? ==> h'.right[c.n] == hole' && h'.left[c.n] == h.left[c.n]
    ensures CtxLinked(h', c, hole', base)
  {
    if !c.Root? {
      LinkedFrame(h, h', c.sib, c.n);
      CtxFrame(h, h', c.up, c.n, base);
    }
  }

  /** In-order sequence before and after the hole. */
  ghost function Before(c: Ctx): seq<Region> {
    match c
    case Root => []
    case LeftOf(n, sib, up) => Before(up)
    case RightOf(n, sib, up) => Before(up) + Inorder(sib) + [n]
  }

  ghost function After(c: Ctx): seq<Region> {
    match c
    case Root => []
    case LeftOf(n, sib, up) => [n] + Inorder(sib) + After(up)
    case RightOf(n, sib, up) => After(up)
  }

  // ------------------------------------------------------------------- lemmas

  lemma {:induction false} InorderPlug(c: Ctx, t: Tree)
    ensures Inorder(Plug(c, t)) == Before(c) + Inorder(t) + After(c)
    decreases c
  {
    match c
    case Root =>
    case LeftOf(n, sib, up) =>
      InorderPlug(up, Branch(t, n, sib));
      Shift(Before(up), Inorder(t), [n], Inorder(sib), After(up));
    case RightOf(n, sib, up) =>
      InorderPlug(up, Branch(sib, n, t));
      Shift(Before(up), Inorder(sib), [n], Inorder(t), After(up));
  }

  lemma Shift(a: seq<Region>, b: seq<Region>, c: seq<Region>, d: seq<Region>, e: seq<Region>)
    ensures a + (b + c + d) + e == a + b + (c + d + e) == (a + b + c) + d + e
  {
  }

  lemma {:induction false} PlugNodes(c: Ctx, t: Tree)
    ensures Nodes(Plug(c, t)) == CtxNodes(c) + Nodes(t)
    ensures Top(Plug(c, t)) == CtxTop(c, Top(t))
    decreases c
  {
    match c
    case Root =>
    case LeftOf(n, sib, up) => PlugNodes(up, Branch(t, n, sib));
    case RightOf(n, sib, up) => PlugNodes(up, Branch(sib, n, t));
  }

  lemma {:induction false} PlugApart(c: Ctx, t: Tree)
    ensures Apart(Plug(c, t)) <==> CtxApart(c) && Apart(t) && CtxNodes(c) !! Nodes(t)
    decreases c
  {
    match c
    case Root =>
    case LeftOf(n, sib, up) => PlugApart(up, Branch(t, n, sib));
    case RightOf(n, sib, up) => PlugApart(up, Branch(sib, n, t));
  }

  lemma {:induction false} PlugLinked(h: Ptrs, c: Ctx, t: Tree, base: Region?)
    ensures Linked(h, Plug(c, t), base) <==> CtxLinked(h, c, Top(t), base) && Linked(h, t, Above(c, base))
    decreases c
  {
    match c
    case Root =>
    case LeftOf(n, sib, up) => PlugLinked(h, up, Branch(t, n, sib), base);
    case RightOf(n, sib, up) => PlugLinked(h, up, Branch(sib, n, t), base);
  }

  /** A pointer to a node of a tree splits the tree at that node. */
  lemma {:induction false} Focus(t: Tree, x: Region) returns (c: Ctx, s: Tree)
    requires x in Nodes(t)
    ensures s.Branch? && s.n == x && Plug(c, s) == t
    decreases t
  {
    if x == t.n {
      c, s := Root, t;
    } else if x in Nodes(t.l) {
      c, s := Focus(t.l, x);
      PlugInto(c, LeftOf(t.n, t.r, Root), s);
      c := Compose(c, LeftOf(t.n, t.r, Root));
    } else {
      c, s := Focus(t.r, x);
      PlugInto(c, RightOf(t.n, t.l, Root), s);
      c := Compose(c, RightOf(t.n, t.l, Root));
    }
  }

  /** The context `inner` placed in the hole of `outer`. */
  ghost function Compose(inner: Ctx, outer: Ctx): Ctx {
    match inner
    case Root => outer
    case LeftOf(n, sib, up) => LeftOf(n, sib, Compose(up, outer))
    case RightOf(n, sib, up) => RightOf(n, sib, Compose(up, outer))
  }

  lemma {:induction false} PlugInto(inner: Ctx, outer: Ctx, t: Tree)
    ensures Plug(Compose(inner, outer), t) == Plug(outer, Plug(inner, t))
    decreases inner
  {
    match inner
    case Root =>
    case LeftOf(n, sib, up) => PlugInto(up, outer, Branch(t, n, sib));
    case RightOf(n, sib, up) => PlugInto(up, outer, Branch(sib, n, t));
  }

  lemma {:induction false} InorderNodes(t: Tree)
    ensures forall i :: 0 <= i < |Inorder(t)| ==> Inorder(t)[i] in Nodes(t)
  {
    if t.Branch? {
      InorderNodes(t.l);
      InorderNodes(t.r);
    }
  }

  lemma {:induction false} NodeInInorder(t: Tree, x: Region)
    requires x in Nodes(t)
    ensures x in Inorder(t)
  {
    if x in Nodes(t.l) {
      NodeInInorder(t.l, x);
    } else if x in Nodes(t.r) {
      NodeInInorder(t.r, x);
    }
  }
}
