/**
 src/sp_tree.c: insertion and removal in an intrusive binary tree with parent pointers, rebalanced
 on approximate height hints. What is proved is structure, order and termination, not balance.
 */
module SpTree {
  import opened Tree

  ghost function Opt(x: Region?): set<Region> {
    if x == null then {} else {x}
  }

  ghost predicate Untouched(h: Ptrs, h': Ptrs, touched: set<Region>) {
    forall x :: x in h.left && x !in touched && h.Has(x) ==>
      h'.Has(x) && h'.left[x] == h.left[x] && h'.right[x] == h.right[x] && h'.parent[x] == h.parent[x]
  }

  ghost predicate OnlyParent(h: Ptrs, h': Ptrs, x: Region, to: Region?)
    requires h.Has(x)
  {
    h'.Has(x) && h'.left[x] == h.left[x] && h'.right[x] == h.right[x] && h'.parent[x] == to
  }

  /** The node above the hole of `c` has `x` as its child now, and nothing else about it changed. */
  ghost predicate NewChild(h: Ptrs, h': Ptrs, c: Ctx, x: Region?) {
    match c
    case Root => true
    case LeftOf(n, _, _) =>
      h.Has(n) && h'.Has(n) && h'.left[n] == x && h'.right[n] == h.right[n] && h'.parent[n] == h.parent[n]
    case RightOf(n, _, _) =>
      h.Has(n) && h'.Has(n) && h'.left[n] == h.left[n] && h'.right[n] == x && h'.parent[n] == h.parent[n]
  }

  lemma {:induction false} Elsewhere(h: Ptrs, h': Ptrs, touched: set<Region>, t: Tree, parent: Region?)
    requires Linked(h, t, parent) && Untouched(h, h', touched) && Nodes(t) !! touched
    ensures Linked(h', t, parent)
  {
    LinkedFrame(h, h', t, parent);
  }

  lemma {:induction false} Reparented(h: Ptrs, h': Ptrs, touched: set<Region>, t: Tree, from: Region?, to: Region?)
    requires Linked(h, t, from) && Apart(t) && Untouched(h, h', touched)
    requires Nodes(t) * touched <= Opt(Top(t)) && (t.Branch? ==> OnlyParent(h, h', t.n, to))
    ensures Linked(h', t, to)
  {
    Reparent(h, h', t, from, to);
  }

  lemma {:induction false} Refilled(h: Ptrs, h': Ptrs, touched: set<Region>, c: Ctx, hole: Region?, hole': Region?)
    requires CtxLinked(h, c, hole, null) && CtxApart(c) && Untouched(h, h', touched)
    requires CtxNodes(c) * touched <= Opt(Above(c, null)) && NewChild(h, h', c, hole')
    ensures CtxLinked(h', c, hole', null)
  {
    Refill(h, h', c, hole, hole', null);
  }

  ghost predicate Covers(h: Ptrs, h': Ptrs) {
    h.left.Keys <= h'.left.Keys && h.right.Keys <= h'.right.Keys && h.parent.Keys <= h'.parent.Keys
  }

  ghost function SetLeft(h: Ptrs, x: Region?, v: Region?): Ptrs {
    if x == null then h else h.(left := h.left[x := v])
  }

  ghost function SetRight(h: Ptrs, x: Region?, v: Region?): Ptrs {
    if x == null then h else h.(right := h.right[x := v])
  }

  ghost function SetParent(h: Ptrs, x: Region?, v: Region?): Ptrs {
    if x == null then h else h.(parent := h.parent[x := v])
  }

  /** Replace `n` by `x` below `p`. */
  ghost function SetChild(h: Ptrs, p: Region?, n: Region, x: Region?): Ptrs
    requires p != null ==> h.Has(p)
  {
    if p != null && h.left[p] == n then SetLeft(h, p, x) else SetRight(h, p, x)
  }

  /** The two rotations, as updates of the pointers. */
  ghost function TurnedLeft(h: Ptrs, n: Region, l: Region): Ptrs
    requires h.Has(n) && h.Has(l) && (h.parent[n] != null ==> h.Has(h.parent[n]))
  {
    var p, b := h.parent[n], h.right[l];
    var h1 := SetRight(SetParent(SetLeft(SetParent(h, l, p), n, b), n, l), l, n);
    SetParent(SetChild(h1, p, n, l), b, n)
  }

  /** The nodes a rotation rewrites are different nodes. */
  ghost predicate Unaliased(p: Region?, n: Region, l: Region, b: Region?) {
    n != l && p != n && p != l && b != n && b != l && (b != null ==> b != p)
  }

  /** The node above the hole of `c` has `n` on the side of the hole only. */
  ghost predicate ChildSide(h: Ptrs, c: Ctx, n: Region) {
    match c
    case Root => true
    case LeftOf(p, _, _) => h.Has(p) && h.left[p] == n
    case RightOf(p, _, _) => h.Has(p) && h.right[p] == n && h.left[p] != n
  }

  lemma {:induction false} CtxChildSide(h: Ptrs, c: Ctx, n: Region)
    requires CtxLinked(h, c, n, null) && n !in CtxNodes(c)
    ensures ChildSide(h, c, n)
  {
    if c.RightOf? && c.sib.Branch? {
      assert c.sib.n in Nodes(c.sib);
    }
  }

  lemma {:induction false} TurnedLeftEffect(h: Ptrs, c: Ctx, n: Region, l: Region)
    requires h.Has(n) && h.Has(l) && h.parent[n] == Above(c, null) && ChildSide(h, c, n)
    requires h.right[l] != null ==> h.Has(h.right[l])
    requires Unaliased(Above(c, null), n, l, h.right[l])
    ensures var h', p, b := TurnedLeft(h, n, l), Above(c, null), h.right[l];
            && Untouched(h, h', {n, l} + Opt(b) + Opt(p))
            && h'.Has(n) && h'.parent[n] == l && h'.left[n] == b && h'.right[n] == h.right[n]
            && h'.Has(l) && h'.parent[l] == p && h'.left[l] == h.left[l] && h'.right[l] == n
            && (b != null ==> OnlyParent(h, h', b, n))
            && NewChild(h, h', c, l)
  {
  }

  lemma {:induction false} TurnLeftLinked(h: Ptrs, c: Ctx, a: Tree, l: Region, b: Tree, n: Region, r: Tree)
    requires Apart(Branch(Branch(a, l, b), n, r)) && Linked(h, Branch(Branch(a, l, b), n, r), Above(c, null))
    requires CtxApart(c) && CtxLinked(h, c, n, null) && CtxNodes(c) !! Nodes(Branch(Branch(a, l, b), n, r))
    ensures h.Has(n) && h.Has(l) && (h.parent[n] != null ==> h.Has(h.parent[n]))
    ensures var h' := TurnedLeft(h, n, l);
            Linked(h', Branch(a, l, Branch(b, n, r)), Above(c, null)) && CtxLinked(h', c, l, null)
  {
    assert Linked(h, Branch(a, l, b), n) && Linked(h, b, l);
    assert b.Branch? ==> b.n in Nodes(b);
    CtxChildSide(h, c, n);
    TurnedLeftEffect(h, c, n, l);
    var h' := TurnedLeft(h, n, l);
    var touched := {n, l} + Opt(Top(b)) + Opt(Above(c, null));
    assert Apart(b) && Apart(a);
    Elsewhere(h, h', touched, a, l);
    Elsewhere(h, h', touched, r, n);
    Reparented(h, h', touched, b, l, n);
    assert Linked(h', Branch(b, n, r), l);
    Refilled(h, h', touched, c, n, l);
  }

  ghost function TurnedRight(h: Ptrs, n: Region, r: Region): Ptrs
    requires h.Has(n) && h.Has(r) && (h.parent[n] != null ==> h.Has(h.parent[n]))
  {
    var p, b := h.parent[n], h.left[r];
    var h1 := SetLeft(SetParent(SetRight(SetParent(h, r, p), n, b), n, r), r, n);
    SetParent(SetChild(h1, p, n, r), b, n)
  }

  lemma {:induction false} TurnedRightEffect(h: Ptrs, c: Ctx, n: Region, r: Region)
    requires h.Has(n) && h.Has(r) && h.parent[n] == Above(c, null) && ChildSide(h, c, n)
    requires h.left[r] != null ==> h.Has(h.left[r])
    requires Unaliased(Above(c, null), n, r, h.left[r])
    ensures var h', p, b := TurnedRight(h, n, r), Above(c, null), h.left[r];
            && Untouched(h, h', {n, r} + Opt(b) + Opt(p))
            && h'.Has(n) && h'.parent[n] == r && h'.right[n] == b && h'.left[n] == h.left[n]
            && h'.Has(r) && h'.parent[r] == p && h'.right[r] == h.right[r] && h'.left[r] == n
            && (b != null ==> OnlyParent(h, h', b, n))
            && NewChild(h, h', c, r)
  {
  }

  lemma {:induction false} TurnRightLinked(h: Ptrs, c: Ctx, l: Tree, n: Region, b: Tree, r: Region, a: Tree)
    requires Apart(Branch(l, n, Branch(b, r, a))) && Linked(h, Branch(l, n, Branch(b, r, a)), Above(c, null))
    requires CtxApart(c) && CtxLinked(h, c, n, null) && CtxNodes(c) !! Nodes(Branch(l, n, Branch(b, r, a)))
    ensures h.Has(n) && h.Has(r) && (h.parent[n] != null ==> h.Has(h.parent[n]))
    ensures var h' := TurnedRight(h, n, r);
            Linked(h', Branch(Branch(l, n, b), r, a), Above(c, null)) && CtxLinked(h', c, r, null)
  {
    assert Linked(h, Branch(b, r, a), n) && Linked(h, b, r);
    assert b.Branch? ==> b.n in Nodes(b);
    CtxChildSide(h, c, n);
    TurnedRightEffect(h, c, n, r);
    var h' := TurnedRight(h, n, r);
    var touched := {n, r} + Opt(Top(b)) + Opt(Above(c, null));
    assert Apart(b) && Apart(a);
    Elsewhere(h, h', touched, a, r);
    Elsewhere(h, h', touched, l, n);
    Reparented(h, h', touched, b, r, n);
    assert Linked(h', Branch(l, n, b), r);
    Refilled(h, h', touched, c, n, r);
  }

  // ----------------------------------------------------------- code on the heap

  method PutLeft(x: Region, v: Region?, ghost nodes: set<Region>)
    requires x in nodes
    modifies x`left
    ensures x.left == v && Snap(nodes) == SetLeft(old(Snap(nodes)), x, v)
  {
    x.left := v;
  }

  method PutRight(x: Region, v: Region?, ghost nodes: set<Region>)
    requires x in nodes
    modifies x`right
    ensures x.right == v && Snap(nodes) == SetRight(old(Snap(nodes)), x, v)
  {
    x.right := v;
  }

  method PutParent(x: Region, v: Region?, ghost nodes: set<Region>)
    requires x in nodes
    modifies x`parent
    ensures x.parent == v && Snap(nodes) == SetParent(old(Snap(nodes)), x, v)
  {
    x.parent := v;
  }

  /** Lines 36-39: whichever child of `p` was `n` becomes `x`. */
  method PutChild(p: Region?, n: Region, x: Region?, ghost nodes: set<Region>)
    requires p != null ==> p in nodes
    modifies Opt(p)`left, Opt(p)`right
    ensures Snap(nodes) == SetChild(old(Snap(nodes)), p, n, x)
  {
    if p != null && p.left == n {
      PutLeft(p, x, nodes);
    } else if p != null {
      PutRight(p, x, nodes);
    }
  }

  /** `__sp_turn_left`: the left child takes the place of `n`, which drops to its right. */
  method TurnLeft(n: Region, ghost l': Region, ghost nodes: set<Region>)
    requires n in nodes && n.left == l' && l' in nodes
    requires n.parent != null ==> n.parent in nodes
    requires n.left.right != null ==> n.left.right in nodes
    requires Unaliased(n.parent, n, n.left, n.left.right)
    modifies nodes`left, nodes`right, nodes`parent
    ensures Snap(nodes) == TurnedLeft(old(Snap(nodes)), n, l')
  {
    var l, p := n.left, n.parent;
    var b := l.right;
    PutParent(l, p, nodes);
    PutLeft(n, b, nodes);
    PutParent(n, l, nodes);
    PutRight(l, n, nodes);
    PutChild(p, n, l, nodes);
    if b != null {
      PutParent(b, n, nodes);
    }
  }

  /** `__sp_turn_right` */
  method TurnRight(n: Region, ghost r': Region, ghost nodes: set<Region>)
    requires n in nodes && n.right == r' && r' in nodes
    requires n.parent != null ==> n.parent in nodes
    requires n.right.left != null ==> n.right.left in nodes
    requires Unaliased(n.parent, n, n.right, n.right.left)
    modifies nodes`left, nodes`right, nodes`parent
    ensures Snap(nodes) == TurnedRight(old(Snap(nodes)), n, r')
  {
    var r, p := n.right, n.parent;
    var b := r.left;
    PutParent(r, p, nodes);
    PutRight(n, b, nodes);
    PutParent(n, r, nodes);
    PutLeft(r, n, nodes);
    PutChild(p, n, r, nodes);
    if b != null {
      PutParent(b, n, nodes);
    }
  }

  /** The heap holds exactly `t`: all its child and parent pointers are consistent. */
  ghost predicate Holds(t: Tree)
    reads Nodes(t)`left, Nodes(t)`right, Nodes(t)`parent
  {
    Apart(t) && Linked(Snap(Nodes(t)), t, null)
  }

  ghost predicate HintsOk(nodes: set<Region>)
    reads nodes`hint
  {
    forall x :: x in nodes ==> x.hint >= 0
  }

  class SpRoot {
    var root: Region?
    ghost var tree: Tree

    ghost predicate Valid()
      reads this, Nodes(tree)`left, Nodes(tree)`right, Nodes(tree)`parent, Nodes(tree)`hint
    {
      Holds(tree) && HintsOk(Nodes(tree)) && root == Top(tree)
    }

    constructor ()
      ensures Valid() && tree == Leaf
    {
      root, tree := null, Leaf;
    }
  }

  /** `__sp_balance` */
  function Balance(n: Region): int
    reads n, Opt(n.left), Opt(n.right)
  {
    (if n.left != null then n.left.hint + 1 else 0) - (if n.right != null then n.right.hint + 1 else 0)
  }

  /** `__sp_max_hint` */
  function MaxHint(n: Region): int
    reads n, Opt(n.left), Opt(n.right)
  {
    var l := if n.left != null then n.left.hint + 1 else 0;
    var r := if n.right != null then n.right.hint + 1 else 0;
    if l > r then l else r
  }

  /** The heap holds a tree, seen as the subtree `t` in the context `c`. */
  ghost predicate At(c: Ctx, t: Tree, nodes: set<Region>)
    reads nodes`left, nodes`right, nodes`parent
  {
    && nodes == CtxNodes(c) + Nodes(t) && CtxNodes(c) !! Nodes(t) && CtxApart(c) && Apart(t)
    && CtxLinked(Snap(nodes), c, Top(t), null) && Linked(Snap(nodes), t, Above(c, null))
  }

  lemma {:induction false} AtIffHolds(c: Ctx, t: Tree, nodes: set<Region>)
    ensures At(c, t, nodes) <==> nodes == Nodes(Plug(c, t)) && Holds(Plug(c, t))
    ensures Top(Plug(c, t)) == CtxTop(c, Top(t))
  {
    PlugNodes(c, t);
    PlugApart(c, t);
    PlugLinked(Snap(nodes), c, t, null);
  }

  lemma {:induction false} RotatedTree(a: Tree, l: Region, b: Tree, n: Region, r: Tree)
    ensures var t, t' := Branch(Branch(a, l, b), n, r), Branch(a, l, Branch(b, n, r));
            Nodes(t) == Nodes(t') && Inorder(t) == Inorder(t') && (Apart(t) <==> Apart(t'))
  {
    assert Inorder(a) + [l] + Inorder(b) + [n] + Inorder(r) == Inorder(a) + [l] + (Inorder(b) + [n] + Inorder(r));
    assert Nodes(Branch(Branch(a, l, b), n, r)) == Nodes(a) + {l} + Nodes(b) + {n} + Nodes(r);
    assert Nodes(Branch(a, l, Branch(b, n, r))) == Nodes(a) + {l} + Nodes(b) + {n} + Nodes(r);
  }

  /** The pointers a left rotation at the top of `t` reads. */
  lemma {:induction false} LeftReady(h: Ptrs, c: Ctx, t: Tree, nodes: set<Region>)
    requires t.Branch? && t.l.Branch? && Apart(t) && Linked(h, t, Above(c, null))
    requires CtxNodes(c) !! Nodes(t) && nodes == CtxNodes(c) + Nodes(t)
    ensures var n, l, b, p := t.n, t.l.n, Top(t.l.r), Above(c, null);
            && h.Has(n) && h.Has(l) && h.left[n] == l && h.parent[n] == p && h.right[l] == b
            && n in nodes && l in nodes && Opt(b) <= nodes && Opt(p) <= nodes && Unaliased(p, n, l, b)
  {
    assert Linked(h, t.l, t.n);
    assert t.l.r.Branch? ==> t.l.r.n in Nodes(t.l.r);
    assert !c.Root? ==> c.n in CtxNodes(c);
  }

  lemma {:induction false} RightReady(h: Ptrs, c: Ctx, t: Tree, nodes: set<Region>)
    requires t.Branch? && t.r.Branch? && Apart(t) && Linked(h, t, Above(c, null))
    requires CtxNodes(c) !! Nodes(t) && nodes == CtxNodes(c) + Nodes(t)
    ensures var n, r, b, p := t.n, t.r.n, Top(t.r.l), Above(c, null);
            && h.Has(n) && h.Has(r) && h.right[n] == r && h.parent[n] == p && h.left[r] == b
            && n in nodes && r in nodes && Opt(b) <= nodes && Opt(p) <= nodes && Unaliased(p, n, r, b)
  {
    assert Linked(h, t.r, t.n);
    assert t.r.l.Branch? ==> t.r.l.n in Nodes(t.r.l);
    assert !c.Root? ==> c.n in CtxNodes(c);
  }

  /** The tree after a right rotation at its top. */
  ghost function RightTurn(t: Tree): Tree
    requires t.Branch? && t.r.Branch?
  {
    var n := t.n;
    Branch(Branch(t.l, n, t.r.l), t.r.n, t.r.r)
  }

  lemma {:induction false} PlanRight(h: Ptrs, c: Ctx, t: Tree, nodes: set<Region>)
    requires t.Branch? && t.r.Branch? && Apart(t) && Linked(h, t, Above(c, null))
    requires CtxApart(c) && CtxLinked(h, c, t.n, null)
    requires CtxNodes(c) !! Nodes(t) && nodes == CtxNodes(c) + Nodes(t)
    ensures Nodes(RightTurn(t)) == Nodes(t) && Inorder(RightTurn(t)) == Inorder(t) && Apart(RightTurn(t))
    ensures h.Has(t.n) && h.Has(t.r.n) && h.right[t.n] == t.r.n
    ensures t.n in nodes && t.r.n in nodes && Opt(h.parent[t.n]) <= nodes && Opt(h.left[h.right[t.n]]) <= nodes
    ensures h.parent[t.n] != null ==> h.Has(h.parent[t.n])
    ensures Unaliased(h.parent[t.n], t.n, t.r.n, h.left[h.right[t.n]])
    ensures var h' := TurnedRight(h, t.n, t.r.n);
            Linked(h', RightTurn(t), Above(c, null)) && CtxLinked(h', c, t.r.n, null)
  {
    RightReady(h, c, t, nodes);
    TurnRightLinked(h, c, t.l, t.n, t.r.l, t.r.n, t.r.r);
    RotatedTree(t.l, t.n, t.r.l, t.r.n, t.r.r);
  }

  /** Lines 131-137 */
  method RotateRight(rt: SpRoot, n: Region, ghost c: Ctx, ghost t: Tree, ghost nodes: set<Region>)
    requires t.Branch? && t.n == n && t.r.Branch? && At(c, t, nodes) && rt.root == CtxTop(c, n)
    modifies rt`root, nodes`left, nodes`right, nodes`parent
    ensures At(c, RightTurn(t), nodes) && Inorder(RightTurn(t)) == Inorder(t)
    ensures rt.root == CtxTop(c, t.r.n)
  {
    hide Linked, CtxLinked, Apart, CtxApart, Plug, Inorder;
    RootAbove(c, t, rt.root);
    if n == rt.root {
      rt.root := n.right;
    }
    ghost var h := Snap(nodes);
    PlanRight(h, c, t, nodes);
    TurnRight(n, t.r.n, nodes);
  }

  /** The tree after a left rotation at its top. */
  ghost function LeftTurn(t: Tree): Tree
    requires t.Branch? && t.l.Branch?
  {
    var n := t.n;
    Branch(t.l.l, t.l.n, Branch(t.l.r, n, t.r))
  }

  lemma {:induction false} PlanLeft(h: Ptrs, c: Ctx, t: Tree, nodes: set<Region>)
    requires t.Branch? && t.l.Branch? && Apart(t) && Linked(h, t, Above(c, null))
    requires CtxApart(c) && CtxLinked(h, c, t.n, null)
    requires CtxNodes(c) !! Nodes(t) && nodes == CtxNodes(c) + Nodes(t)
    ensures Nodes(LeftTurn(t)) == Nodes(t) && Inorder(LeftTurn(t)) == Inorder(t) && Apart(LeftTurn(t))
    ensures h.Has(t.n) && h.Has(t.l.n) && h.left[t.n] == t.l.n
    ensures t.n in nodes && t.l.n in nodes && Opt(h.parent[t.n]) <= nodes && Opt(h.right[h.left[t.n]]) <= nodes
    ensures h.parent[t.n] != null ==> h.Has(h.parent[t.n])
    ensures Unaliased(h.parent[t.n], t.n, t.l.n, h.right[h.left[t.n]])
    ensures var h' := TurnedLeft(h, t.n, t.l.n);
            Linked(h', LeftTurn(t), Above(c, null)) && CtxLinked(h', c, t.l.n, null)
  {
    LeftReady(h, c, t, nodes);
    TurnLeftLinked(h, c, t.l.l, t.l.n, t.l.r, t.n, t.r);
    RotatedTree(t.l.l, t.l.n, t.l.r, t.n, t.r);
  }

  /** Lines 139-145 */
  method RotateLeft(rt: SpRoot, n: Region, ghost c: Ctx, ghost t: Tree, ghost nodes: set<Region>)
    requires t.Branch? && t.n == n && t.l.Branch? && At(c, t, nodes) && rt.root == CtxTop(c, n)
    modifies rt`root, nodes`left, nodes`right, nodes`parent
    ensures At(c, LeftTurn(t), nodes) && Inorder(LeftTurn(t)) == Inorder(t)
    ensures rt.root == CtxTop(c, t.l.n)
  {
    hide Linked, CtxLinked, Apart, CtxApart, Plug, Inorder;
    RootAbove(c, t, rt.root);
    if n == rt.root {
      rt.root := n.left;
    }
    ghost var h := Snap(nodes);
    PlanLeft(h, c, t, nodes);
    TurnLeft(n, t.l.n, nodes);
  }

  /** The root pointer is at the top node: it moves with a rotation exactly if the rotated node is the top. */
  lemma {:induction false} RootAbove(c: Ctx, t: Tree, root: Region?)
    requires t.Branch? && root == CtxTop(c, t.n) && t.n !in CtxNodes(c)
    ensures root == t.n <==> c.Root?
    ensures forall x: Region? :: !c.Root? ==> CtxTop(c, x) == root
  {
    if !c.Root? { TopInCtx(c.up, c.n); }
  }

  lemma {:induction false} TopInCtx(c: Ctx, n: Region)
    ensures CtxTop(c, n) == n || CtxTop(c, n) in CtxNodes(c)
  {
    if !c.Root? { TopInCtx(c.up, c.n); }
  }

  lemma {:induction false} LinkedClosed(h: Ptrs, t: Tree, parent: Region?, x: Region)
    requires Linked(h, t, parent) && x in Nodes(t)
    ensures h.Has(x) && Opt(h.left[x]) <= Nodes(t) && Opt(h.right[x]) <= Nodes(t)
    ensures Opt(h.parent[x]) <= Nodes(t) + Opt(parent)
  {
    if x in Nodes(t.l) {
      LinkedClosed(h, t.l, t.n, x);
    } else if x in Nodes(t.r) {
      LinkedClosed(h, t.r, t.n, x);
    }
  }

  /** Child pointers stay within the tree. */
  lemma {:induction false} AtClosed(c: Ctx, t: Tree, nodes: set<Region>, x: Region)
    requires At(c, t, nodes) && x in nodes
    ensures Opt(x.left) <= nodes && Opt(x.right) <= nodes
  {
    AtIffHolds(c, t, nodes);
    LinkedClosed(Snap(nodes), Plug(c, t), null, x);
  }

  lemma {:induction false} TopPointers(c: Ctx, t: Tree, nodes: set<Region>)
    requires At(c, t, nodes) && t.Branch?
    ensures t.n in nodes && t.n.left == Top(t.l) && t.n.right == Top(t.r) && t.n.parent == Above(c, null)
    ensures Opt(t.n.left) <= nodes && Opt(t.n.right) <= nodes
  {
    assert Snap(nodes).left[t.n] == t.n.left && Snap(nodes).right[t.n] == t.n.right;
    assert Snap(nodes).parent[t.n] == t.n.parent;
    AtClosed(c, t, nodes, t.n);
  }

  /** The subtree one level up. */
  ghost function Parent(c: Ctx, t: Tree): Tree
    requires !c.Root?
  {
    if c.LeftOf? then Branch(t, c.n, c.sib) else Branch(c.sib, c.n, t)
  }

  lemma {:induction false} MoveUp(c: Ctx, t: Tree, nodes: set<Region>)
    requires At(c, t, nodes) && !c.Root?
    ensures At(c.up, Parent(c, t), nodes)
    ensures Before(c) + Inorder(t) + After(c) == Before(c.up) + Inorder(Parent(c, t)) + After(c.up)
  {
    AtIffHolds(c, t, nodes);
    AtIffHolds(c.up, Parent(c, t), nodes);
    InorderPlug(c, t);
    InorderPlug(c.up, Parent(c, t));
  }

  /** `__sp_update`: the fix-up climbs to the root, stopping where a hint does not change. */
  method Update(rt: SpRoot, n0: Region?, ghost c0: Ctx, ghost t0: Tree, ghost nodes: set<Region>)
    requires n0 == Top(t0) && At(c0, t0, nodes) && HintsOk(nodes) && rt.root == CtxTop(c0, n0)
    modifies rt, nodes`left, nodes`right, nodes`parent, nodes`hint
    ensures rt.Valid() && Nodes(rt.tree) == nodes && Inorder(rt.tree) == Before(c0) + Inorder(t0) + After(c0)
  {
    var n := n0;
    ghost var c, t := c0, t0;
    while n != null
      invariant At(c, t, nodes) && HintsOk(nodes) && rt.root == CtxTop(c, Top(t))
      invariant n != null ==> n == Top(t)
      invariant Before(c) + Inorder(t) + After(c) == Before(c0) + Inorder(t0) + After(c0)
      decreases if n == null then 0 else 1 + Height(c)
    {
      TopPointers(c, t, nodes);
      var p := n.parent;
      var changed;
      changed, t := Rebalance(rt, n, c, t, nodes);
      if !changed {
        break;
      }
      n := p;
      if !c.Root? {
        MoveUp(c, t, nodes);
        c, t := c.up, Parent(c, t);
      }
    }
    Seal(rt, c, t, nodes);
  }

  /** Records the tree the heap holds. */
  ghost method Seal(rt: SpRoot, c: Ctx, t: Tree, nodes: set<Region>)
    requires At(c, t, nodes) && HintsOk(nodes) && rt.root == CtxTop(c, Top(t))
    modifies rt`tree
    ensures rt.Valid() && Nodes(rt.tree) == nodes && rt.tree == Plug(c, t)
    ensures Inorder(rt.tree) == Before(c) + Inorder(t) + After(c)
  {
    AtIffHolds(c, t, nodes);
    InorderPlug(c, t);
    rt.tree := Plug(c, t);
  }

  /** Lines 127-151: rotate if the hints ask for it, then recompute the hint. */
  method Rebalance(rt: SpRoot, n: Region, ghost c: Ctx, ghost t: Tree, ghost nodes: set<Region>)
    returns (changed: bool, ghost t': Tree)
    requires t.Branch? && t.n == n && At(c, t, nodes) && HintsOk(nodes) && rt.root == CtxTop(c, n)
    modifies rt`root, nodes`left, nodes`right, nodes`parent, n`hint
    ensures At(c, t', nodes) && HintsOk(nodes) && rt.root == CtxTop(c, Top(t')) && Inorder(t') == Inorder(t)
  {
    var hint := n.hint;
    t' := Rotate(rt, n, c, t, nodes);
    RefreshHint(n, c, t', nodes);
    changed := n.hint == 0 || n.hint != hint;
  }

  /** Lines 131-145; the child the rotation asserts to exist does exist. */
  method Rotate(rt: SpRoot, n: Region, ghost c: Ctx, ghost t: Tree, ghost nodes: set<Region>)
    returns (ghost t': Tree)
    requires t.Branch? && t.n == n && At(c, t, nodes) && HintsOk(nodes) && rt.root == CtxTop(c, n)
    modifies rt`root, nodes`left, nodes`right, nodes`parent
    ensures At(c, t', nodes) && rt.root == CtxTop(c, Top(t')) && Inorder(t') == Inorder(t)
  {
    TopPointers(c, t, nodes);
    t' := t;
    var b := Balance(n);
    if b < -1 {
      t' := RightTurn(t);
      RotateRight(rt, n, c, t, nodes);
    } else if b > 1 {
      t' := LeftTurn(t);
      RotateLeft(rt, n, c, t, nodes);
    }
  }

  method RefreshHint(n: Region, ghost c: Ctx, ghost t: Tree, ghost nodes: set<Region>)
    requires At(c, t, nodes) && HintsOk(nodes) && n in nodes
    modifies n`hint
    ensures At(c, t, nodes) && HintsOk(nodes)
  {
    AtClosed(c, t, nodes, n);
    n.hint := MaxHint(n);
  }

  ghost function Height(c: Ctx): nat {
    if c.Root? then 0 else 1 + Height(c.up)
  }

  // ------------------------------------------------------------------ insertion

  datatype Dir = GoLeft | GoRight

  /** The hole a search ended in: below `p` on side `d`, or the whole tree. */
  ghost predicate Slot(c: Ctx, p: Region?, d: Dir) {
    match c
    case Root => true
    case LeftOf(n, _, _) => p == n && d == GoLeft
    case RightOf(n, _, _) => p == n && d == GoRight
  }

  ghost function Hung(h: Ptrs, p: Region, n: Region, d: Dir): Ptrs {
    SetParent(if d == GoLeft then SetLeft(h, p, n) else SetRight(h, p, n), n, p)
  }

  lemma {:induction false} HungLinked(h: Ptrs, c: Ctx, n: Region, d: Dir)
    requires !c.Root? && Slot(c, c.n, d) && CtxLinked(h, c, null, null) && CtxApart(c) && n !in CtxNodes(c)
    requires h.Has(n) && h.left[n] == null && h.right[n] == null
    ensures CtxLinked(Hung(h, c.n, n, d), c, n, null) && Linked(Hung(h, c.n, n, d), Branch(Leaf, n, Leaf), c.n)
  {
    Refilled(h, Hung(h, c.n, n, d), {n, c.n}, c, null, n);
  }

  /** `sp_insert`: the new node appears in the in-order sequence at its slot, nothing else moves. */
  method Insert(rt: SpRoot, p: Region?, n: Region, d: Dir, ghost c: Ctx, ghost nodes: set<Region>)
    requires rt.Valid() && rt.tree == Plug(c, Leaf) && Slot(c, p, d) && n !in Nodes(rt.tree)
    requires n.left == null && n.right == null && n.parent == null && n.hint == 0
    requires nodes == Nodes(rt.tree) + {n}
    modifies rt, nodes`left, nodes`right, nodes`parent, nodes`hint
    ensures rt.Valid() && Nodes(rt.tree) == nodes
    ensures Inorder(rt.tree) == Before(c) + [n] + After(c)
  {
    hide Linked, CtxLinked, Apart, CtxApart, Plug, Before, After;
    OpenHole(rt, c, n);
    if rt.root == null {
      PlantRoot(rt, n, c, nodes);
    } else {
      Hang(p, n, d, c, nodes);
      Update(rt, n, c, Branch(Leaf, n, Leaf), nodes);
      OneNode(n);
    }
  }

  /** Lines 158-161 */
  method PlantRoot(rt: SpRoot, n: Region, ghost c: Ctx, ghost nodes: set<Region>)
    requires c == Root && nodes == CtxNodes(c) + {n} && n.left == null && n.right == null && n.parent == null
        && HintsOk(nodes)
    modifies rt
    ensures rt.Valid() && Nodes(rt.tree) == nodes && Inorder(rt.tree) == Before(c) + [n] + After(c)
  {
    rt.root := n;
    LoneNode(c, n, nodes);
    Seal(rt, c, Branch(Leaf, n, Leaf), nodes);
    OneNode(n);
  }

  lemma {:induction false} LoneNode(c: Ctx, n: Region, nodes: set<Region>)
    requires c == Root && nodes == CtxNodes(c) + {n} && n.left == null && n.right == null && n.parent == null
    ensures At(c, Branch(Leaf, n, Leaf), nodes)
  {
  }

  lemma {:induction false} OneNode(n: Region)
    ensures Inorder(Branch(Leaf, n, Leaf)) == [n]
  {
    assert [] + [n] + [] == [n];
  }

  lemma {:induction false} OpenHole(rt: SpRoot, c: Ctx, n: Region)
    requires rt.Valid() && rt.tree == Plug(c, Leaf) && n !in Nodes(rt.tree)
    ensures var nodes := Nodes(rt.tree) + {n};
            && nodes == CtxNodes(c) + {n} && n !in CtxNodes(c) && CtxApart(c)
            && CtxLinked(Snap(nodes), c, null, null)
    ensures if rt.root == null then c == Root else !c.Root? && rt.root == CtxTop(c, n)
  {
    AtIffHolds(c, Leaf, Nodes(rt.tree));
    CtxFrame(Snap(Nodes(rt.tree)), Snap(Nodes(rt.tree) + {n}), c, null, null);
    if rt.root == null { EmptyCtx(c); } else { NonemptyCtx(c); }
  }

  method PutSide(p: Region, n: Region, d: Dir, ghost nodes: set<Region>)
    requires p in nodes && n in nodes && p != n
    modifies p`left, p`right, n`parent
    ensures Snap(nodes) == Hung(old(Snap(nodes)), p, n, d)
  {
    if d == GoLeft {
      PutLeft(p, n, nodes);
    } else {
      PutRight(p, n, nodes);
    }
    PutParent(n, p, nodes);
  }

  /** Lines 163-168 */
  method Hang(p: Region, n: Region, d: Dir, ghost c: Ctx, ghost nodes: set<Region>)
    requires !c.Root? && Slot(c, p, d) && nodes == CtxNodes(c) + {n} && n !in CtxNodes(c) && CtxApart(c)
    requires CtxLinked(Snap(nodes), c, null, null) && n.left == null && n.right == null
    modifies p`left, p`right, n`parent
    ensures At(c, Branch(Leaf, n, Leaf), nodes)
  {
    ghost var h := Snap(nodes);
    assert h.left[n] == null && h.right[n] == null;
    HungLinked(h, c, n, d);
    PutSide(p, n, d, nodes);
    assert Nodes(Branch(Leaf, n, Leaf)) == {n};
  }

  lemma {:induction false} EmptyCtx(c: Ctx)
    requires Top(Plug(c, Leaf)) == null
    ensures c == Root
  {
    PlugNodes(c, Leaf);
    if !c.Root? { TopInCtx(c.up, c.n); }
  }

  lemma {:induction false} NonemptyCtx(c: Ctx)
    requires Top(Plug(c, Leaf)) != null
    ensures !c.Root?
  {
  }

  // -------------------------------------------------------------------- removal

  /** The hole is at the far left (right) end of the tree. */
  ghost predicate LeftSpine(c: Ctx) {
    c.Root? || (c.LeftOf? && LeftSpine(c.up))
  }

  ghost predicate RightSpine(c: Ctx) {
    c.Root? || (c.RightOf? && RightSpine(c.up))
  }

  lemma {:induction false} SpineOrder(c: Ctx)
    ensures LeftSpine(c) ==> Before(c) == []
    ensures RightSpine(c) ==> After(c) == []
  {
    if !c.Root? { SpineOrder(c.up); }
  }

  /** `sp_first` */
  method First(n: Region, ghost h: Ptrs, ghost t: Tree, ghost parent: Region?, ghost nodes: set<Region>)
    returns (x: Region, ghost c: Ctx, ghost r: Tree)
    requires t.Branch? && t.n == n && Nodes(t) <= nodes && h == Snap(nodes) && Linked(h, t, parent)
    ensures t == Plug(c, Branch(Leaf, x, r)) && LeftSpine(c)
    ensures Inorder(t) != [] && x == Inorder(t)[0]
    decreases t
  {
    assert h.left[n] == n.left;
    if n.left == null {
      LeastOrder(Root, n, t.r);
      return n, Root, t.r;
    }
    x, c, r := First(n.left, h, t.l, n, nodes);
    PlugInto(c, LeftOf(n, t.r, Root), Branch(Leaf, x, r));
    SpineCompose(c, n, t.r);
    c := Compose(c, LeftOf(n, t.r, Root));
    LeastOrder(c, x, r);
  }

  /** `sp_last` */
  method Last(n: Region, ghost h: Ptrs, ghost t: Tree, ghost parent: Region?, ghost nodes: set<Region>)
    returns (x: Region, ghost c: Ctx, ghost l: Tree)
    requires t.Branch? && t.n == n && Nodes(t) <= nodes && h == Snap(nodes) && Linked(h, t, parent)
    ensures t == Plug(c, Branch(l, x, Leaf)) && RightSpine(c)
    ensures Inorder(t) != [] && x == Inorder(t)[|Inorder(t)| - 1]
    decreases t
  {
    assert h.right[n] == n.right;
    if n.right == null {
      MostOrder(Root, t.l, n);
      return n, Root, t.l;
    }
    x, c, l := Last(n.right, h, t.r, n, nodes);
    PlugInto(c, RightOf(n, t.l, Root), Branch(l, x, Leaf));
    SpineCompose(c, n, t.l);
    c := Compose(c, RightOf(n, t.l, Root));
    MostOrder(c, l, x);
  }

  lemma {:induction false} SpineCompose(c: Ctx, n: Region, sib: Tree)
    ensures LeftSpine(c) ==> LeftSpine(Compose(c, LeftOf(n, sib, Root)))
    ensures RightSpine(c) ==> RightSpine(Compose(c, RightOf(n, sib, Root)))
  {
    if !c.Root? { SpineCompose(c.up, n, sib); }
  }

  /** Lines 183-190: `r` leaves its place. */
  ghost function LeftRightPlace(h: Ptrs, n: Region, r: Region): (h': Ptrs)
    requires h.Has(n) && h.Has(r) && h.parent[r] != null && h.Has(h.parent[r])
    ensures Covers(h, h')
  {
    var rp := h.parent[r];
    var h1 := if h.left[rp] == r then SetParent(SetLeft(h, rp, h.right[r]), h.right[r], rp) else h;
    if h1.parent[rp] == n then SetParent(h1, rp, r) else h1
  }

  /** Lines 192-198: `r` takes over the neighbours of `n`. */
  ghost function TookRight(h: Ptrs, p: Region?, n: Region, r: Region): (h': Ptrs)
    requires h.Has(n)
    ensures Covers(h, h')
  {
    var h3 := SetLeft(SetParent(h, r, p), r, h.left[n]);
    if h3.right[n] != r then SetParent(SetRight(h3, r, h3.right[n]), h3.right[n], r) else h3
  }

  ghost function MovedRight(h: Ptrs, n: Region, r: Region): (h': Ptrs)
    requires h.Has(n) && h.Has(r) && h.parent[r] != null && h.Has(h.parent[r])
    ensures Covers(h, h')
  {
    TookRight(LeftRightPlace(h, n, r), h.parent[n], n, r)
  }

  /** `__sp_replace_right` as an update of the pointers. */
  ghost function ReplacedRight(h: Ptrs, n: Region, r: Region): Ptrs
    requires h.Has(n) && h.Has(r) && h.parent[r] != null && h.Has(h.parent[r])
    requires h.parent[n] != null ==> h.Has(h.parent[n])
  {
    var h5 := SetChild(MovedRight(h, n, r), h.parent[n], n, r);
    SetParent(h5, h5.left[n], r)
  }

  /** `x` has taken the place of `n` between the node above, the left tree and the right tree. */
  ghost predicate Substituted(h: Ptrs, h': Ptrs, c: Ctx, x: Region, lt: Region?, rt: Region?) {
    && Untouched(h, h', {x} + Opt(lt) + Opt(rt) + Opt(Above(c, null)))
    && h'.Has(x) && h'.parent[x] == Above(c, null) && h'.left[x] == lt && h'.right[x] == rt
    && (lt != null ==> h.Has(lt) && OnlyParent(h, h', lt, x))
    && (rt != null ==> h.Has(rt) && OnlyParent(h, h', rt, x))
    && NewChild(h, h', c, x)
  }

  lemma {:induction false} SubstitutedLinked(h: Ptrs, h': Ptrs, c: Ctx, l: Tree, n: Region, r: Tree, x: Region)
    requires Apart(Branch(l, n, r)) && Linked(h, Branch(l, n, r), Above(c, null))
    requires CtxApart(c) && CtxLinked(h, c, n, null) && CtxNodes(c) !! Nodes(Branch(l, n, r))
    requires x !in CtxNodes(c) && x !in Nodes(l) && x !in Nodes(r)
    requires Substituted(h, h', c, x, Top(l), Top(r))
    ensures Linked(h', Branch(l, x, r), Above(c, null)) && CtxLinked(h', c, x, null)
  {
    var touched := {x} + Opt(Top(l)) + Opt(Top(r)) + Opt(Above(c, null));
    assert l.Branch? ==> l.n in Nodes(l);
    assert r.Branch? ==> r.n in Nodes(r);
    Reparented(h, h', touched, l, n, x);
    Reparented(h, h', touched, r, n, x);
    Refilled(h, h', touched, c, n, x);
  }

  /** Replacing `n` by its right child, which has no left child. */
  lemma {:induction false} NearEffect(h: Ptrs, c: Ctx, n: Region, r: Region)
    requires h.Has(n) && h.Has(r) && h.parent[n] == Above(c, null) && ChildSide(h, c, n)
    requires h.parent[r] == n && h.right[n] == r && h.left[n] != r && n != r
    requires Unaliased(Above(c, null), n, r, h.left[n]) && (h.left[n] != null ==> h.Has(h.left[n]))
    ensures var h', p, lt := ReplacedRight(h, n, r), Above(c, null), h.left[n];
            && Untouched(h, h', {r} + Opt(lt) + Opt(p))
            && h'.Has(r) && h'.parent[r] == p && h'.left[r] == lt && h'.right[r] == h.right[r]
            && (lt != null ==> OnlyParent(h, h', lt, r))
            && NewChild(h, h', c, r)
  {
  }

  lemma {:induction false} NearLinked(h: Ptrs, c: Ctx, l: Tree, n: Region, r: Region, rr: Tree)
    requires var t := Branch(l, n, Branch(Leaf, r, rr));
             && Apart(t) && Linked(h, t, Above(c, null)) && CtxNodes(c) !! Nodes(t)
    requires CtxApart(c) && CtxLinked(h, c, n, null)
    ensures h.Has(n) && h.Has(r) && h.parent[r] == n && (h.parent[n] != null ==> h.Has(h.parent[n]))
    ensures var h' := ReplacedRight(h, n, r);
            Linked(h', Branch(l, r, rr), Above(c, null)) && CtxLinked(h', c, r, null)
  {
    assert Linked(h, Branch(Leaf, r, rr), n) && Linked(h, rr, r);
    assert l.Branch? ==> l.n in Nodes(l);
    CtxChildSide(h, c, n);
    NearEffect(h, c, n, r);
    var h' := ReplacedRight(h, n, r);
    var touched := {r} + Opt(Top(l)) + Opt(Above(c, null));
    assert Apart(l) && Apart(rr) && Apart(Branch(Leaf, r, rr));
    Reparented(h, h', touched, l, n, r);
    Elsewhere(h, h', touched, rr, r);
    Refilled(h, h', touched, c, n, r);
  }

  /** Lines 183-187: the least node leaves the right subtree. */
  ghost function Unhooked(h: Ptrs, rp: Region, r: Region): Ptrs
    requires h.Has(r)
  {
    SetParent(SetLeft(h, rp, h.right[r]), h.right[r], rp)
  }

  lemma {:induction false} UnhookLinked(h: Ptrs, cr: Ctx, r: Region, rr: Tree, n: Region)
    requires cr.LeftOf? && Linked(h, Plug(cr, Branch(Leaf, r, rr)), n) && Apart(Plug(cr, Branch(Leaf, r, rr)))
    ensures h.Has(r) && h.parent[r] == cr.n && h.right[r] == Top(rr) && h.Has(cr.n) && h.left[cr.n] == r
    ensures Linked(Unhooked(h, cr.n, r), Plug(cr, rr), n)
    ensures Untouched(h, Unhooked(h, cr.n, r), {cr.n} + Opt(Top(rr)))
    ensures cr.n in Nodes(Plug(cr, rr)) && Opt(Top(rr)) <= Nodes(Plug(cr, rr))
  {
    PlugLinked(h, cr, Branch(Leaf, r, rr), n);
    PlugApart(cr, Branch(Leaf, r, rr));
    PlugNodes(cr, rr);
    var h1 := Unhooked(h, cr.n, r);
    assert rr.Branch? ==> rr.n in Nodes(rr);
    Refill(h, h1, cr, r, Top(rr), n);
    Reparent(h, h1, rr, r, cr.n);
    PlugLinked(h1, cr, rr, n);
  }

  /** The nodes touched when the least node of the right subtree is not its top. */
  ghost predicate FarApart(p: Region?, n: Region, r: Region, lt: Region?, rt: Region, rp: Region, rrt: Region?) {
    && n != r && p != n && p != r && rp != n && rp != r && rt != n && rt != r && lt != n && lt != r && rrt != n
        && rrt != r
    && p != rp && p != rt && (p != null ==> p != lt && p != rrt)
    && lt != rp && lt != rt && (lt != null ==> lt != rrt)
    && rrt != rp && rrt != rt
  }

  /** Node `x` between the parent of `n` and two subtrees. */
  ghost function Placed(h: Ptrs, p: Region?, n: Region, x: Region, lt: Region?, rt: Region?): Ptrs
    requires h.Has(x) && (p != null ==> h.Has(p))
  {
    var h1 := SetParent(SetRight(SetLeft(SetParent(h, x, p), x, lt), x, rt), rt, x);
    SetParent(SetChild(h1, p, n, x), lt, x)
  }

  lemma {:induction false} PlacedEffect(h: Ptrs, c: Ctx, n: Region, x: Region, lt: Region?, rt: Region?)
    requires h.Has(x) && (lt != null ==> h.Has(lt)) && (rt != null ==> h.Has(rt)) && ChildSide(h, c, n)
    requires var p := Above(c, null); x != lt && x != rt && x != p && (p != null ==> p != lt && p != rt)
    requires lt != null ==> lt != rt
    ensures Substituted(h, Placed(h, Above(c, null), n, x, lt, rt), c, x, lt, rt)
  {
    PlacedMaps(h, c, n, x, lt, rt);
    MapsEffect(h, Placed(h, Above(c, null), n, x, lt, rt), c, x, lt, rt);
  }

  ghost function With(m: map<Region, Region?>, x: Region?, v: Region?): map<Region, Region?> {
    if x == null then m else m[x := v]
  }

  ghost predicate PlacedIn(h: Ptrs, h': Ptrs, c: Ctx, x: Region, lt: Region?, rt: Region?) {
    && h'.left == With(h.left[x := lt], if c.LeftOf? then c.n else null, x)
    && h'.right == With(h.right[x := rt], if c.RightOf? then c.n else null, x)
    && h'.parent == With(With(h.parent[x := Above(c, null)], rt, x), lt, x)
  }

  lemma {:induction false} PlacedMaps(h: Ptrs, c: Ctx, n: Region, x: Region, lt: Region?, rt: Region?)
    requires h.Has(x) && ChildSide(h, c, n) && Above(c, null) != x
    ensures PlacedIn(h, Placed(h, Above(c, null), n, x, lt, rt), c, x, lt, rt)
  {
  }

  lemma {:induction false} MapsEffect(h: Ptrs, h': Ptrs, c: Ctx, x: Region, lt: Region?, rt: Region?)
    requires h.Has(x) && (lt != null ==> h.Has(lt)) && (rt != null ==> h.Has(rt)) && (!c.Root? ==> h.Has(c.n))
    requires var p := Above(c, null); x != lt && x != rt && x != p && (p != null ==> p != lt && p != rt)
    requires lt != null ==> lt != rt
    requires PlacedIn(h, h', c, x, lt, rt)
    ensures Substituted(h, h', c, x, lt, rt)
  {
    hide PlacedIn, Untouched, OnlyParent, NewChild;
    MapsUntouched(h, h', c, x, lt, rt);
    MapsNode(h, h', c, x, lt, rt);
    MapsChildren(h, h', c, x, lt, rt);
    MapsAbove(h, h', c, x, lt, rt);
  }

  lemma {:induction false} MapsUntouched(h: Ptrs, h': Ptrs, c: Ctx, x: Region, lt: Region?, rt: Region?)
    requires h.Has(x) && (lt != null ==> h.Has(lt)) && (rt != null ==> h.Has(rt)) && (!c.Root? ==> h.Has(c.n))
    requires var p := Above(c, null); x != lt && x != rt && x != p && (p != null ==> p != lt && p != rt)
    requires lt != null ==> lt != rt
    requires PlacedIn(h, h', c, x, lt, rt)
    ensures Untouched(h, h', {x} + Opt(lt) + Opt(rt) + Opt(Above(c, null)))
  {
  }

  lemma {:induction false} MapsNode(h: Ptrs, h': Ptrs, c: Ctx, x: Region, lt: Region?, rt: Region?)
    requires h.Has(x) && (lt != null ==> h.Has(lt)) && (rt != null ==> h.Has(rt)) && (!c.Root? ==> h.Has(c.n))
    requires var p := Above(c, null); x != lt && x != rt && x != p && (p != null ==> p != lt && p != rt)
    requires lt != null ==> lt != rt
    requires PlacedIn(h, h', c, x, lt, rt)
    ensures h'.Has(x) && h'.parent[x] == Above(c, null) && h'.left[x] == lt && h'.right[x] == rt
  {
  }

  lemma {:induction false} MapsChildren(h: Ptrs, h': Ptrs, c: Ctx, x: Region, lt: Region?, rt: Region?)
    requires h.Has(x) && (lt != null ==> h.Has(lt)) && (rt != null ==> h.Has(rt)) && (!c.Root? ==> h.Has(c.n))
    requires var p := Above(c, null); x != lt && x != rt && x != p && (p != null ==> p != lt && p != rt)
    requires lt != null ==> lt != rt
    requires PlacedIn(h, h', c, x, lt, rt)
    ensures lt != null ==> OnlyParent(h, h', lt, x)
    ensures rt != null ==> OnlyParent(h, h', rt, x)
  {
  }

  lemma {:induction false} MapsAbove(h: Ptrs, h': Ptrs, c: Ctx, x: Region, lt: Region?, rt: Region?)
    requires h.Has(x) && (lt != null ==> h.Has(lt)) && (rt != null ==> h.Has(rt)) && (!c.Root? ==> h.Has(c.n))
    requires var p := Above(c, null); x != lt && x != rt && x != p && (p != null ==> p != lt && p != rt)
    requires lt != null ==> lt != rt
    requires PlacedIn(h, h', c, x, lt, rt)
    ensures NewChild(h, h', c, x)
  {
  }

  lemma {:induction false} FarEffect(h: Ptrs, c: Ctx, n: Region, r: Region, rt: Region, rp: Region)
    requires h.Has(n) && h.Has(r) && h.Has(rp) && h.Has(rt) && h.parent[n] == Above(c, null) && ChildSide(h, c, n)
    requires h.right[n] == rt && h.parent[r] == rp && h.left[rp] == r && (h.parent[rp] == n <==> rp == rt)
    requires FarApart(Above(c, null), n, r, h.left[n], rt, rp, h.right[r])
    requires (h.left[n] != null ==> h.Has(h.left[n])) && (h.right[r] != null ==> h.Has(h.right[r]))
    ensures Substituted(Unhooked(h, rp, r), ReplacedRight(h, n, r), c, r, h.left[n], rt)
  {
    var h1, p, lt := Unhooked(h, rp, r), Above(c, null), h.left[n];
    assert ChildSide(h1, c, n);
    FarPlaced(h, n, r, rt, rp);
    PlacedEffect(h1, c, n, r, lt, rt);
  }

  lemma {:induction false} FarPlaced(h: Ptrs, n: Region, r: Region, rt: Region, rp: Region)
    requires h.Has(n) && h.Has(r) && h.Has(rp) && h.Has(rt) && (h.parent[n] != null ==> h.Has(h.parent[n]))
    requires h.right[n] == rt && h.parent[r] == rp && h.left[rp] == r && (h.parent[rp] == n <==> rp == rt)
    requires FarApart(h.parent[n], n, r, h.left[n], rt, rp, h.right[r])
    ensures ReplacedRight(h, n, r) == Placed(Unhooked(h, rp, r), h.parent[n], n, r, h.left[n], rt)
  {
    var h1, p, lt := Unhooked(h, rp, r), h.parent[n], h.left[n];
    var h2 := if h1.parent[rp] == n then SetParent(h1, rp, r) else h1;
    assert h2.left[n] == lt;
    var h3 := SetLeft(SetParent(h2, r, p), r, lt);
    assert h3.right[n] == rt;
    var h4 := SetParent(SetRight(h3, r, rt), rt, r);
    assert h4.parent == h1.parent[r := p][rt := r];
    assert h4 == SetParent(SetRight(SetLeft(SetParent(h1, r, p), r, lt), r, rt), rt, r);
    assert SetChild(h4, p, n, r).left[n] == lt;
  }

  lemma {:induction false} FarLinked(h: Ptrs, c: Ctx, l: Tree, n: Region, cr: Ctx, r: Region, rr: Tree)
    requires cr.LeftOf?
    requires var t := Branch(l, n, Plug(cr, Branch(Leaf, r, rr)));
             && Apart(t) && Linked(h, t, Above(c, null)) && CtxNodes(c) !! Nodes(t)
    requires CtxApart(c) && CtxLinked(h, c, n, null)
    ensures h.Has(n) && h.Has(r) && h.parent[r] == cr.n && h.Has(cr.n)
    ensures h.parent[n] != null ==> h.Has(h.parent[n])
    ensures var h' := ReplacedRight(h, n, r);
            Linked(h', Branch(l, r, Plug(cr, rr)), Above(c, null)) && CtxLinked(h', c, r, null)
  {
    FarReady(h, c, l, n, cr, r, rr);
    FarUnhooked(h, c, l, n, cr, r, rr);
    FarEffect(h, c, n, r, Plug(cr, Branch(Leaf, r, rr)).n, cr.n);
    SubstitutedLinked(Unhooked(h, cr.n, r), ReplacedRight(h, n, r), c, l, n, Plug(cr, rr), r);
  }

  /** With the least node unhooked the rest is still a tree below `n`. */
  lemma {:induction false} FarUnhooked(h: Ptrs, c: Ctx, l: Tree, n: Region, cr: Ctx, r: Region, rr: Tree)
    requires cr.LeftOf?
    requires var t := Branch(l, n, Plug(cr, Branch(Leaf, r, rr)));
             && Apart(t) && Linked(h, t, Above(c, null)) && CtxNodes(c) !! Nodes(t)
    requires CtxApart(c) && CtxLinked(h, c, n, null)
    ensures h.Has(r) && h.Has(cr.n) && h.parent[r] == cr.n && h.left[cr.n] == r && h.right[r] == Top(rr)
    ensures var h1, t' := Unhooked(h, cr.n, r), Branch(l, n, Plug(cr, rr));
            && Apart(t') && Linked(h1, t', Above(c, null)) && CtxNodes(c) !! Nodes(t') && CtxLinked(h1, c, n, null)
            && r !in CtxNodes(c) && r !in Nodes(l) && r !in Nodes(Plug(cr, rr))
            && Top(Plug(cr, rr)) == Top(Plug(cr, Branch(Leaf, r, rr)))
  {
    hide CtxLinked, CtxApart;
    UnhookLinked(h, cr, r, rr, n);
    ExtractNodes(cr, r, rr);
    hide Plug;
    var h1 := Unhooked(h, cr.n, r);
    var touched := {cr.n} + Opt(Top(rr));
    Elsewhere(h, h1, touched, l, n);
    CtxFrame(h, h1, c, n, null);
  }

  lemma {:induction false} ExtractNodes(cr: Ctx, r: Region, rr: Tree)
    requires !cr.Root?
    ensures var big, small := Plug(cr, Branch(Leaf, r, rr)), Plug(cr, rr);
            && big.Branch? && Top(small) == big.n && cr.n in Nodes(small) && Nodes(rr) <= Nodes(small)
            && (Apart(big) ==>
                Apart(small) && Nodes(small) == Nodes(big) - {r} && r in Nodes(big) && Nodes(rr) !! CtxNodes(cr))
            && big.n in CtxNodes(cr)
  {
    var one := Branch(Leaf, r, rr);
    PlugNodes(cr, one);
    PlugNodes(cr, rr);
    PlugApart(cr, one);
    PlugApart(cr, rr);
    TopInCtx(cr.up, cr.n);
    assert Nodes(one) == {r} + Nodes(rr);
  }

  /** The nodes touched are different, and the node above the least one hangs below `n` only if it is the top. */
  lemma {:induction false} FarReady(h: Ptrs, c: Ctx, l: Tree, n: Region, cr: Ctx, r: Region, rr: Tree)
    requires cr.LeftOf?
    requires var t := Branch(l, n, Plug(cr, Branch(Leaf, r, rr)));
             && Apart(t) && Linked(h, t, Above(c, null)) && CtxNodes(c) !! Nodes(t)
    requires CtxApart(c) && CtxLinked(h, c, n, null)
    ensures var big := Plug(cr, Branch(Leaf, r, rr));
            && big.Branch? && h.Has(n) && h.Has(r) && h.Has(cr.n) && h.Has(big.n)
            && ChildSide(h, c, n) && h.right[n] == big.n && h.left[n] == Top(l)
            && (h.parent[cr.n] == n <==> cr.n == big.n)
            && FarApart(Above(c, null), n, r, Top(l), big.n, cr.n, Top(rr))
            && (l.Branch? ==> h.Has(l.n)) && (rr.Branch? ==> h.Has(rr.n))
  {
    var one := Branch(Leaf, r, rr);
    var big := Plug(cr, one);
    ExtractNodes(cr, r, rr);
    PlugLinked(h, cr, one, n);
    PlugApart(cr, one);
    PlugNodes(cr, one);
    CtxChildSide(h, c, n);
    assert l.Branch? ==> l.n in Nodes(l);
    assert rr.Branch? ==> rr.n in Nodes(rr);
    assert big.n in CtxNodes(cr) && cr.n in CtxNodes(cr);
    assert !c.Root? ==> c.n in CtxNodes(c);
    if cr.up.Root? {
      assert big == Branch(one, cr.n, cr.sib);
    } else {
      assert cr.up.n in CtxNodes(cr);
      TopInCtx(cr.up.up, cr.up.n);
    }
  }

  // --------------------------------------------------- the mirror image, for the left side

  ghost function Mirror(h: Ptrs): Ptrs {
    Ptrs(h.right, h.left, h.parent)
  }

  ghost function Flip(t: Tree): Tree {
    match t
    case Leaf => Leaf
    case Branch(l, n, r) => Branch(Flip(r), n, Flip(l))
  }

  ghost function FlipCtx(c: Ctx): Ctx {
    match c
    case Root => Root
    case LeftOf(n, sib, up) => RightOf(n, Flip(sib), FlipCtx(up))
    case RightOf(n, sib, up) => LeftOf(n, Flip(sib), FlipCtx(up))
  }

  lemma {:induction false} FlipFacts(h: Ptrs, t: Tree, parent: Region?)
    ensures Nodes(Flip(t)) == Nodes(t) && (Apart(Flip(t)) <==> Apart(t)) && Top(Flip(t)) == Top(t)
    ensures Linked(Mirror(h), Flip(t), parent) <==> Linked(h, t, parent)
  {
    if t.Branch? {
      FlipFacts(h, t.l, t.n);
      FlipFacts(h, t.r, t.n);
    }
  }

  lemma {:induction false} FlipCtxFacts(h: Ptrs, c: Ctx, hole: Region?)
    ensures CtxNodes(FlipCtx(c)) == CtxNodes(c) && (CtxApart(FlipCtx(c)) <==> CtxApart(c))
    ensures Above(FlipCtx(c), null) == Above(c, null)
    ensures CtxLinked(Mirror(h), FlipCtx(c), hole, null) <==> CtxLinked(h, c, hole, null)
  {
    if !c.Root? {
      FlipFacts(h, c.sib, c.n);
      FlipCtxFacts(h, c.up, c.n);
    }
  }

  lemma {:induction false} FlipPlug(c: Ctx, t: Tree)
    ensures Flip(Plug(c, t)) == Plug(FlipCtx(c), Flip(t))
    decreases c
  {
    match c
    case Root =>
    case LeftOf(n, sib, up) => FlipPlug(up, Branch(t, n, sib));
    case RightOf(n, sib, up) => FlipPlug(up, Branch(sib, n, t));
  }

  /** Lines 220-227: `l` leaves its place. */
  ghost function LeftLeftPlace(h: Ptrs, n: Region, l: Region): (h': Ptrs)
    requires h.Has(n) && h.Has(l) && h.parent[l] != null && h.Has(h.parent[l])
    ensures Covers(h, h')
  {
    var lp := h.parent[l];
    var h1 := if h.right[lp] == l then SetParent(SetRight(h, lp, h.left[l]), h.left[l], lp) else h;
    if h1.parent[lp] == n then SetParent(h1, lp, l) else h1
  }

  /** Lines 229-235: `l` takes over the neighbours of `n`. */
  ghost function TookLeft(h: Ptrs, p: Region?, n: Region, l: Region): (h': Ptrs)
    requires h.Has(n)
    ensures Covers(h, h')
  {
    var h3 := SetRight(SetParent(h, l, p), l, h.right[n]);
    if h3.left[n] != l then SetParent(SetLeft(h3, l, h3.left[n]), h3.left[n], l) else h3
  }

  ghost function MovedLeft(h: Ptrs, n: Region, l: Region): (h': Ptrs)
    requires h.Has(n) && h.Has(l) && h.parent[l] != null && h.Has(h.parent[l])
    ensures Covers(h, h')
  {
    TookLeft(LeftLeftPlace(h, n, l), h.parent[n], n, l)
  }

  /** `__sp_replace_left` as an update of the pointers. */
  ghost function ReplacedLeft(h: Ptrs, n: Region, l: Region): Ptrs
    requires h.Has(n) && h.Has(l) && h.parent[l] != null && h.Has(h.parent[l])
    requires h.parent[n] != null ==> h.Has(h.parent[n])
  {
    var h5 := SetChild(MovedLeft(h, n, l), h.parent[n], n, l);
    SetParent(h5, h5.right[n], l)
  }

  lemma {:induction false} MirrorMoved(h: Ptrs, n: Region, l: Region)
    requires h.Has(n) && h.Has(l) && h.parent[l] != null && h.Has(h.parent[l])
    ensures MovedLeft(h, n, l) == Mirror(MovedRight(Mirror(h), n, l))
  {
  }

  lemma {:induction false} MovedKeepsChildren(h: Ptrs, n: Region, l: Region, p: Region)
    requires h.Has(n) && h.Has(l) && h.parent[l] != null && h.Has(h.parent[l])
    requires h.Has(p) && p != l && p != h.parent[l]
    ensures MovedLeft(h, n, l).Has(p)
    ensures MovedLeft(h, n, l).left[p] == h.left[p] && MovedLeft(h, n, l).right[p] == h.right[p]
  {
  }

  lemma {:induction false} MirrorReplaced(h: Ptrs, n: Region, l: Region)
    requires h.Has(n) && h.Has(l) && h.parent[l] != null && h.Has(h.parent[l])
    requires var p := h.parent[n];
             p != null ==> h.Has(p) && p != l && p != h.parent[l] && ((h.left[p] == n) != (h.right[p] == n))
    ensures ReplacedLeft(h, n, l) == Mirror(ReplacedRight(Mirror(h), n, l))
  {
    MirrorMoved(h, n, l);
    var p, h4 := h.parent[n], MovedLeft(h, n, l);
    if p != null { MovedKeepsChildren(h, n, l, p); }
    assert SetChild(Mirror(h4), p, n, l) == Mirror(SetChild(h4, p, n, l));
  }

  /** Exactly one child of the node above the hole is `n`. */
  lemma {:induction false} OneSide(h: Ptrs, c: Ctx, n: Region)
    requires CtxLinked(h, c, n, null) && n !in CtxNodes(c) && !c.Root?
    ensures h.Has(c.n) && ((h.left[c.n] == n) != (h.right[c.n] == n))
  {
    assert c.sib.Branch? ==> c.sib.n in Nodes(c.sib);
  }

  lemma {:induction false} NearLeftLinked(h: Ptrs, c: Ctx, ll: Tree, l: Region, n: Region, r: Tree)
    requires var t := Branch(Branch(ll, l, Leaf), n, r);
             && Apart(t) && Linked(h, t, Above(c, null)) && CtxNodes(c) !! Nodes(t)
    requires CtxApart(c) && CtxLinked(h, c, n, null)
    ensures h.Has(n) && h.Has(l) && h.parent[l] == n && (h.parent[n] != null ==> h.Has(h.parent[n]))
    ensures var h' := ReplacedLeft(h, n, l);
            Linked(h', Branch(ll, l, r), Above(c, null)) && CtxLinked(h', c, l, null)
  {
    var t := Branch(Branch(ll, l, Leaf), n, r);
    FlipFacts(h, t, Above(c, null));
    FlipCtxFacts(h, c, n);
    assert Flip(t) == Branch(Flip(r), n, Branch(Leaf, l, Flip(ll)));
    NearLinked(Mirror(h), FlipCtx(c), Flip(r), n, l, Flip(ll));
    if !c.Root? { OneSide(h, c, n); }
    MirrorReplaced(h, n, l);
    FlipFacts(ReplacedLeft(h, n, l), Branch(ll, l, r), Above(c, null));
    FlipCtxFacts(ReplacedLeft(h, n, l), c, l);
  }

  lemma {:induction false} FarLeftLinked(h: Ptrs, c: Ctx, cl: Ctx, ll: Tree, l: Region, n: Region, r: Tree)
    requires cl.RightOf?
    requires var t := Branch(Plug(cl, Branch(ll, l, Leaf)), n, r);
             && Apart(t) && Linked(h, t, Above(c, null)) && CtxNodes(c) !! Nodes(t)
    requires CtxApart(c) && CtxLinked(h, c, n, null)
    ensures h.Has(n) && h.Has(l) && h.parent[l] == cl.n && h.Has(cl.n)
    ensures h.parent[n] != null ==> h.Has(h.parent[n])
    ensures var h' := ReplacedLeft(h, n, l);
            Linked(h', Branch(Plug(cl, ll), l, r), Above(c, null)) && CtxLinked(h', c, l, null)
  {
    var t := Branch(Plug(cl, Branch(ll, l, Leaf)), n, r);
    FlipFacts(h, t, Above(c, null));
    FlipCtxFacts(h, c, n);
    FlipPlug(cl, Branch(ll, l, Leaf));
    FlipPlug(cl, ll);
    assert Flip(t) == Branch(Flip(r), n, Plug(FlipCtx(cl), Branch(Leaf, l, Flip(ll))));
    FarLinked(Mirror(h), FlipCtx(c), Flip(r), n, FlipCtx(cl), l, Flip(ll));
    PlugNodes(cl, Branch(ll, l, Leaf));
    if !c.Root? { OneSide(h, c, n); }
    MirrorReplaced(h, n, l);
    FlipFacts(ReplacedLeft(h, n, l), Branch(Plug(cl, ll), l, r), Above(c, null));
    FlipCtxFacts(ReplacedLeft(h, n, l), c, l);
  }

  // -------------------------------------------------------- removal on the heap

  /** The pointers `__sp_replace_right` and `__sp_replace_left` follow stay within the tree. */
  ghost predicate Replaceable(n: Region, x: Region, nodes: set<Region>)
    reads n, x, nodes
  {
    && n in nodes && x in nodes && n != x && n.parent != n && x.parent != null && x.parent in nodes
    && Opt(n.parent) + Opt(n.left) + Opt(n.right) + Opt(x.left) + Opt(x.right) <= nodes
  }

  /** `__sp_replace_right` */
  method ReplaceRight(n: Region, r: Region, ghost nodes: set<Region>)
    requires Replaceable(n, r, nodes) && n.right != null && (r.parent == n ==> n.left != r)
    modifies nodes`left, nodes`right, nodes`parent
    ensures Snap(nodes) == ReplacedRight(old(Snap(nodes)), n, r)
  {
    var p := n.parent;
    MoveRight(n, r, nodes);
    AdoptRight(p, n, r, nodes);
  }

  method AdoptRight(p: Region?, n: Region, r: Region, ghost nodes: set<Region>)
    requires n in nodes && Opt(p) + Opt(n.left) <= nodes && p != n
    modifies nodes`left, nodes`right, nodes`parent
    ensures var h5 := SetChild(old(Snap(nodes)), p, n, r);
            Snap(nodes) == SetParent(h5, h5.left[n], r)
  {
    PutChild(p, n, r, nodes);
    if n.left != null {
      PutParent(n.left, r, nodes);
    }
  }

  /** Lines 180-198 */
  method MoveRight(n: Region, r: Region, ghost nodes: set<Region>)
    requires Replaceable(n, r, nodes) && n.right != null && (r.parent == n ==> n.left != r)
    modifies nodes`left, nodes`right, nodes`parent
    ensures Snap(nodes) == MovedRight(old(Snap(nodes)), n, r) && n.left == old(n.left)
  {
    var p := n.parent;
    LeavePlaceRight(n, r, nodes);
    TakeOverRight(p, n, r, nodes);
  }

  method LeavePlaceRight(n: Region, r: Region, ghost nodes: set<Region>)
    requires Replaceable(n, r, nodes) && (r.parent == n ==> n.left != r)
    modifies nodes`left, nodes`parent
    ensures Snap(nodes) == LeftRightPlace(old(Snap(nodes)), n, r) && n.left == old(n.left)
  {
    var rp := r.parent;
    if rp.left == r {
      PutLeft(rp, r.right, nodes);
      if r.right != null {
        PutParent(r.right, rp, nodes);
      }
    }
    if rp.parent == n {
      PutParent(rp, r, nodes);
    }
  }

  method TakeOverRight(p: Region?, n: Region, r: Region, ghost nodes: set<Region>)
    requires n in nodes && r in nodes && n != r && n.right != null && n.right in nodes
    modifies nodes`left, nodes`right, nodes`parent
    ensures Snap(nodes) == TookRight(old(Snap(nodes)), p, n, r) && n.left == old(n.left)
  {
    PutParent(r, p, nodes);
    PutLeft(r, n.left, nodes);
    if n.right != r {
      PutRight(r, n.right, nodes);
      PutParent(n.right, r, nodes);
    }
  }

  /** `__sp_replace_left` */
  method ReplaceLeft(n: Region, l: Region, ghost nodes: set<Region>)
    requires Replaceable(n, l, nodes) && n.left != null && (l.parent == n ==> n.right != l)
    modifies nodes`left, nodes`right, nodes`parent
    ensures Snap(nodes) == ReplacedLeft(old(Snap(nodes)), n, l)
  {
    var p := n.parent;
    MoveLeft(n, l, nodes);
    AdoptLeft(p, n, l, nodes);
  }

  method AdoptLeft(p: Region?, n: Region, l: Region, ghost nodes: set<Region>)
    requires n in nodes && Opt(p) + Opt(n.right) <= nodes && p != n
    modifies nodes`left, nodes`right, nodes`parent
    ensures var h5 := SetChild(old(Snap(nodes)), p, n, l);
            Snap(nodes) == SetParent(h5, h5.right[n], l)
  {
    PutChild(p, n, l, nodes);
    if n.right != null {
      PutParent(n.right, l, nodes);
    }
  }

  /** Lines 217-235 */
  method MoveLeft(n: Region, l: Region, ghost nodes: set<Region>)
    requires Replaceable(n, l, nodes) && n.left != null && (l.parent == n ==> n.right != l)
    modifies nodes`left, nodes`right, nodes`parent
    ensures Snap(nodes) == MovedLeft(old(Snap(nodes)), n, l) && n.right == old(n.right)
  {
    var p := n.parent;
    LeavePlaceLeft(n, l, nodes);
    TakeOverLeft(p, n, l, nodes);
  }

  method LeavePlaceLeft(n: Region, l: Region, ghost nodes: set<Region>)
    requires Replaceable(n, l, nodes) && (l.parent == n ==> n.right != l)
    modifies nodes`right, nodes`parent
    ensures Snap(nodes) == LeftLeftPlace(old(Snap(nodes)), n, l) && n.right == old(n.right)
  {
    var lp := l.parent;
    if lp.right == l {
      PutRight(lp, l.left, nodes);
      if l.left != null {
        PutParent(l.left, lp, nodes);
      }
    }
    if lp.parent == n {
      PutParent(lp, l, nodes);
    }
  }

  method TakeOverLeft(p: Region?, n: Region, l: Region, ghost nodes: set<Region>)
    requires n in nodes && l in nodes && n != l && n.left != null && n.left in nodes
    modifies nodes`left, nodes`right, nodes`parent
    ensures Snap(nodes) == TookLeft(old(Snap(nodes)), p, n, l) && n.right == old(n.right)
  {
    PutParent(l, p, nodes);
    PutRight(l, n.right, nodes);
    if n.left != l {
      PutLeft(l, n.left, nodes);
      PutParent(n.left, l, nodes);
    }
  }

  /** A tree that no longer contains `gone`, seen in the remaining nodes. */
  lemma {:induction false} AtWithout(c: Ctx, t: Tree, nodes: set<Region>, gone: Region)
    requires CtxApart(c) && Apart(t) && CtxNodes(c) !! Nodes(t) && nodes - {gone} == CtxNodes(c) + Nodes(t)
    requires CtxLinked(Snap(nodes), c, Top(t), null) && Linked(Snap(nodes), t, Above(c, null))
    ensures At(c, t, nodes - {gone})
  {
    LinkedFrame(Snap(nodes), Snap(nodes - {gone}), t, Above(c, null));
    CtxFrame(Snap(nodes), Snap(nodes - {gone}), c, Top(t), null);
  }

  lemma {:induction false} MoveDown(c: Ctx, l: Tree, x: Region, r: Tree, nodes: set<Region>)
    requires At(c, Branch(l, x, r), nodes)
    ensures At(RightOf(x, l, c), r, nodes) && At(LeftOf(x, r, c), l, nodes)
    ensures x in nodes && x.left == Top(l) && x.right == Top(r)
  {
    AtIffHolds(c, Branch(l, x, r), nodes);
    AtIffHolds(RightOf(x, l, c), r, nodes);
    AtIffHolds(LeftOf(x, r, c), l, nodes);
    TopPointers(c, Branch(l, x, r), nodes);
  }

  /** What a removal at the top of `t` in context `c` leaves. */
  ghost function Rest(c: Ctx, t: Tree): seq<Region>
    requires t.Branch?
  {
    Before(c) + (Inorder(t.l) + Inorder(t.r)) + After(c)
  }

  lemma {:induction false} ReplaceReady(c: Ctx, t: Tree, nodes: set<Region>, x: Region)
    requires At(c, t, nodes) && t.Branch? && x in Nodes(t) && x != t.n
    ensures Replaceable(t.n, x, nodes)
  {
    AtIffHolds(c, t, nodes);
    var h := Snap(nodes);
    LinkedClosed(h, Plug(c, t), null, t.n);
    LinkedClosed(h, Plug(c, t), null, x);
    InnerParent(h, t, Above(c, null), x);
    assert h.parent[x] == x.parent && h.left[x] == x.left && h.right[x] == x.right;
    TopPointers(c, t, nodes);
  }

  lemma {:induction false} InnerParent(h: Ptrs, t: Tree, parent: Region?, x: Region)
    requires Linked(h, t, parent) && x in Nodes(t) && x != Top(t)
    ensures h.Has(x) && h.parent[x] != null && h.parent[x] in Nodes(t)
  {
    if x in Nodes(t.l) {
      if x != t.l.n { InnerParent(h, t.l, t.n, x); }
    } else {
      if x != t.r.n { InnerParent(h, t.r, t.n, x); }
    }
  }

  /** The least node of a tree is the first of its in-order sequence. */
  lemma {:induction false} LeastOrder(cr: Ctx, x: Region, rr: Tree)
    requires LeftSpine(cr)
    ensures Inorder(Plug(cr, Branch(Leaf, x, rr))) == [x] + Inorder(Plug(cr, rr))
  {
    InorderPlug(cr, Branch(Leaf, x, rr));
    InorderPlug(cr, rr);
    SpineOrder(cr);
    assert [] + [x] + Inorder(rr) == [x] + Inorder(rr);
  }

  lemma {:induction false} LeastNodes(cr: Ctx, x: Region, rr: Tree)
    requires Apart(Plug(cr, Branch(Leaf, x, rr)))
    ensures var big, small := Plug(cr, Branch(Leaf, x, rr)), Plug(cr, rr);
            Apart(small) && Nodes(small) == Nodes(big) - {x} && x in Nodes(big)
  {
    var one := Branch(Leaf, x, rr);
    assert Nodes(one) == {x} + Nodes(rr);
    PlugNodes(cr, one);
    PlugApart(cr, one);
    PlugNodes(cr, rr);
    PlugApart(cr, rr);
  }

  /** The tree after the least node `x` of the right subtree has replaced the top. */
  lemma {:induction false} RightReplacementTree(l: Tree, n: Region, cr: Ctx, x: Region, rr: Tree)
    requires LeftSpine(cr) && Apart(Branch(l, n, Plug(cr, Branch(Leaf, x, rr))))
    ensures var t, t' := Branch(l, n, Plug(cr, Branch(Leaf, x, rr))), Branch(l, x, Plug(cr, rr));
            x in Nodes(t.r) && x != n && x !in Nodes(l) && Apart(t') && Nodes(t') == Nodes(t) - {n}
  {
    LeastNodes(cr, x, rr);
  }

  /** The pointers after it. */
  lemma {:induction false} RightReplacement(h: Ptrs, c: Ctx, l: Tree, n: Region, cr: Ctx, x: Region, rr: Tree)
    requires LeftSpine(cr)
    requires var t := Branch(l, n, Plug(cr, Branch(Leaf, x, rr)));
             && Apart(t) && Linked(h, t, Above(c, null)) && CtxNodes(c) !! Nodes(t)
    requires CtxApart(c) && CtxLinked(h, c, n, null)
    ensures h.Has(n) && h.Has(x) && h.parent[x] != null && h.Has(h.parent[x])
    ensures h.parent[n] != null ==> h.Has(h.parent[n])
    ensures var h', t' := ReplacedRight(h, n, x), Branch(l, x, Plug(cr, rr));
            Linked(h', t', Above(c, null)) && CtxLinked(h', c, x, null)
  {
    if cr.Root? {
      NearLinked(h, c, l, n, x, rr);
    } else {
      FarLinked(h, c, l, n, cr, x, rr);
    }
  }

  lemma {:induction false} RightRest(c: Ctx, t: Tree, x: Region, rest: Tree)
    requires t.Branch? && Inorder(t.r) == [x] + Inorder(rest)
    ensures var c' := RightOf(x, t.l, c); Before(c') + Inorder(rest) + After(c') == Rest(c, t)
  {
    Regroup(Before(c), Inorder(t.l), [x], Inorder(rest), After(c));
  }

  lemma {:induction false} Regroup(a: seq<Region>, b: seq<Region>, c: seq<Region>, d: seq<Region>, e: seq<Region>)
    ensures (a + b + c) + d + e == a + (b + (c + d)) + e
  {
  }

  /** Lines 251-252 */
  method MoveRoot(rt: SpRoot, del: Region, x: Region, ghost c: Ctx, ghost t: Tree)
    requires t.Branch? && t.n == del && rt.root == CtxTop(c, del) && del !in CtxNodes(c)
    modifies rt`root
    ensures rt.root == CtxTop(c, x)
  {
    RootAbove(c, t, rt.root);
    if del == rt.root {
      rt.root := x;
    }
  }

  /** Lines 249-254 */
  method PullLeast(rt: SpRoot, del: Region, ghost c: Ctx, ghost t: Tree, ghost nodes: set<Region>)
    returns (least: Region, ghost cr: Ctx, ghost rr: Tree)
    requires t.Branch? && t.n == del && t.r.Branch? && At(c, t, nodes) && rt.root == CtxTop(c, del)
    modifies rt`root, nodes`left, nodes`right, nodes`parent
    ensures At(c, Branch(t.l, least, Plug(cr, rr)), nodes - {del}) && rt.root == CtxTop(c, least)
    ensures LeftSpine(cr) && t.r == Plug(cr, Branch(Leaf, least, rr))
  {
    hide CtxLinked, CtxApart, CtxNodes;
    TopPointers(c, t, nodes);
    least, cr, rr := First(del.right, Snap(nodes), t.r, del, nodes);
    MoveRoot(rt, del, least, c, t);
    SwapInRight(del, least, c, t, cr, rr, nodes);
  }

  /** Lines 248-257 */
  method RemoveToRight(rt: SpRoot, del: Region, ghost c: Ctx, ghost t: Tree, ghost nodes: set<Region>)
    requires t.Branch? && t.n == del && t.r.Branch? && At(c, t, nodes) && HintsOk(nodes) && rt.root == CtxTop(c, del)
    modifies rt, nodes`left, nodes`right, nodes`parent, nodes`hint
    ensures rt.Valid() && Nodes(rt.tree) == nodes - {del} && Inorder(rt.tree) == Rest(c, t)
  {
    hide Linked, CtxLinked, Apart, CtxApart, Plug, Rest, Inorder;
    var least: Region;
    ghost var cr, rr;
    least, cr, rr := PullLeast(rt, del, c, t, nodes);
    ghost var rest := Plug(cr, rr);
    LeastOrder(cr, least, rr);
    RightRest(c, t, least, rest);
    MoveDown(c, t.l, least, rest, nodes - {del});
    Update(rt, least.right, RightOf(least, t.l, c), rest, nodes - {del});
  }

  /** Line 254 */
  method SwapInRight(del: Region, least: Region, ghost c: Ctx, ghost t: Tree, ghost cr: Ctx, ghost rr: Tree,
                     ghost nodes: set<Region>)
    requires t.Branch? && t.n == del && At(c, t, nodes)
    requires LeftSpine(cr) && t.r == Plug(cr, Branch(Leaf, least, rr))
    modifies nodes`left, nodes`right, nodes`parent
    ensures At(c, Branch(t.l, least, Plug(cr, rr)), nodes - {del})
  {
    RightSwapReady(c, t, cr, least, rr, nodes);
    RightReplacement(Snap(nodes), c, t.l, del, cr, least, rr);
    ReplaceRight(del, least, nodes);
    AtWithout(c, Branch(t.l, least, Plug(cr, rr)), nodes, del);
  }

  lemma {:induction false} RightSwapReady(c: Ctx, t: Tree, cr: Ctx, least: Region, rr: Tree, nodes: set<Region>)
    requires t.Branch? && At(c, t, nodes) && LeftSpine(cr) && t.r == Plug(cr, Branch(Leaf, least, rr))
    ensures Replaceable(t.n, least, nodes) && t.n.right != null && t.n.left != least
    ensures var t' := Branch(t.l, least, Plug(cr, rr));
            Apart(t') && CtxNodes(c) !! Nodes(t') && nodes - {t.n} == CtxNodes(c) + Nodes(t')
  {
    hide Linked, CtxLinked, Plug;
    RightReplacementTree(t.l, t.n, cr, least, rr);
    ReplaceReady(c, t, nodes, least);
    TopPointers(c, t, nodes);
    assert t.l.Branch? ==> t.l.n in Nodes(t.l);
    assert t.r.Branch?;
  }

  // the mirror image of the lemmas and methods above

  lemma {:induction false} MostOrder(cl: Ctx, ll: Tree, x: Region)
    requires RightSpine(cl)
    ensures Inorder(Plug(cl, Branch(ll, x, Leaf))) == Inorder(Plug(cl, ll)) + [x]
  {
    InorderPlug(cl, Branch(ll, x, Leaf));
    InorderPlug(cl, ll);
    SpineOrder(cl);
    assert Inorder(ll) + [x] + [] == Inorder(ll) + [x];
  }

  lemma {:induction false} LeftRest(c: Ctx, t: Tree, x: Region, rest: Tree)
    requires t.Branch? && Inorder(t.l) == Inorder(rest) + [x]
    ensures var c' := LeftOf(x, t.r, c); Before(c') + Inorder(rest) + After(c') == Rest(c, t)
  {
    RegroupLeft(Before(c), Inorder(rest), [x], Inorder(t.r), After(c));
  }

  lemma RegroupLeft(a: seq<Region>, b: seq<Region>, c: seq<Region>, d: seq<Region>, e: seq<Region>)
    ensures a + b + (c + d + e) == a + ((b + c) + d) + e
  {
  }

  lemma {:induction false} LeftReplacement(h: Ptrs, c: Ctx, cl: Ctx, ll: Tree, x: Region, n: Region, r: Tree)
    requires RightSpine(cl)
    requires var t := Branch(Plug(cl, Branch(ll, x, Leaf)), n, r);
             && Apart(t) && Linked(h, t, Above(c, null)) && CtxNodes(c) !! Nodes(t)
    requires CtxApart(c) && CtxLinked(h, c, n, null)
    ensures h.Has(n) && h.Has(x) && h.parent[x] != null && h.Has(h.parent[x])
    ensures h.parent[n] != null ==> h.Has(h.parent[n])
    ensures var h', t' := ReplacedLeft(h, n, x), Branch(Plug(cl, ll), x, r);
            Linked(h', t', Above(c, null)) && CtxLinked(h', c, x, null)
  {
    if cl.Root? {
      NearLeftLinked(h, c, ll, x, n, r);
    } else {
      FarLeftLinked(h, c, cl, ll, x, n, r);
    }
  }

  lemma {:induction false} MostNodes(cl: Ctx, ll: Tree, x: Region)
    requires Apart(Plug(cl, Branch(ll, x, Leaf)))
    ensures var big, small := Plug(cl, Branch(ll, x, Leaf)), Plug(cl, ll);
            Apart(small) && Nodes(small) == Nodes(big) - {x} && x in Nodes(big)
  {
    var one := Branch(ll, x, Leaf);
    assert Nodes(one) == {x} + Nodes(ll);
    PlugNodes(cl, one);
    PlugApart(cl, one);
    PlugNodes(cl, ll);
    PlugApart(cl, ll);
  }

  lemma {:induction false} LeftReplacementTree(cl: Ctx, ll: Tree, x: Region, n: Region, r: Tree)
    requires Apart(Branch(Plug(cl, Branch(ll, x, Leaf)), n, r))
    ensures var t, t' := Branch(Plug(cl, Branch(ll, x, Leaf)), n, r), Branch(Plug(cl, ll), x, r);
            x in Nodes(t.l) && x != n && x !in Nodes(r) && Apart(t') && Nodes(t') == Nodes(t) - {n}
  {
    MostNodes(cl, ll, x);
  }

  lemma {:induction false} LeftSwapReady(c: Ctx, t: Tree, cl: Ctx, ll: Tree, most: Region, nodes: set<Region>)
    requires t.Branch? && At(c, t, nodes) && t.l == Plug(cl, Branch(ll, most, Leaf))
    ensures Replaceable(t.n, most, nodes) && t.n.left != null && t.n.right != most
    ensures var t' := Branch(Plug(cl, ll), most, t.r);
            Apart(t') && CtxNodes(c) !! Nodes(t') && nodes - {t.n} == CtxNodes(c) + Nodes(t')
  {
    LeftReplacementTree(cl, ll, most, t.n, t.r);
    ReplaceReady(c, t, nodes, most);
    TopPointers(c, t, nodes);
    assert t.r.Branch? ==> t.r.n in Nodes(t.r);
    assert t.l.Branch?;
  }

  /** Line 265 */
  method SwapInLeft(del: Region, most: Region, ghost c: Ctx, ghost t: Tree, ghost cl: Ctx, ghost ll: Tree,
                    ghost nodes: set<Region>)
    requires t.Branch? && t.n == del && At(c, t, nodes)
    requires RightSpine(cl) && t.l == Plug(cl, Branch(ll, most, Leaf))
    modifies nodes`left, nodes`right, nodes`parent
    ensures At(c, Branch(Plug(cl, ll), most, t.r), nodes - {del})
  {
    LeftSwapReady(c, t, cl, ll, most, nodes);
    LeftReplacement(Snap(nodes), c, cl, ll, most, del, t.r);
    ReplaceLeft(del, most, nodes);
    AtWithout(c, Branch(Plug(cl, ll), most, t.r), nodes, del);
  }

  /** Lines 260-265 */
  method PullMost(rt: SpRoot, del: Region, ghost c: Ctx, ghost t: Tree, ghost nodes: set<Region>)
    returns (most: Region, ghost cl: Ctx, ghost ll: Tree)
    requires t.Branch? && t.n == del && t.l.Branch? && At(c, t, nodes) && rt.root == CtxTop(c, del)
    modifies rt`root, nodes`left, nodes`right, nodes`parent
    ensures At(c, Branch(Plug(cl, ll), most, t.r), nodes - {del}) && rt.root == CtxTop(c, most)
    ensures RightSpine(cl) && t.l == Plug(cl, Branch(ll, most, Leaf))
  {
    hide CtxLinked, CtxApart, CtxNodes;
    TopPointers(c, t, nodes);
    most, cl, ll := Last(del.left, Snap(nodes), t.l, del, nodes);
    MoveRoot(rt, del, most, c, t);
    SwapInLeft(del, most, c, t, cl, ll, nodes);
  }

  /** Lines 259-268 */
  method RemoveToLeft(rt: SpRoot, del: Region, ghost c: Ctx, ghost t: Tree, ghost nodes: set<Region>)
    requires t.Branch? && t.n == del && t.l.Branch? && At(c, t, nodes) && HintsOk(nodes) && rt.root == CtxTop(c, del)
    modifies rt, nodes`left, nodes`right, nodes`parent, nodes`hint
    ensures rt.Valid() && Nodes(rt.tree) == nodes - {del} && Inorder(rt.tree) == Rest(c, t)
  {
    hide Linked, CtxLinked, Apart, CtxApart, Plug, Rest, Inorder;
    var most: Region;
    ghost var cl, ll;
    most, cl, ll := PullMost(rt, del, c, t, nodes);
    ghost var rest := Plug(cl, ll);
    MostOrder(cl, ll, most);
    LeftRest(c, t, most, rest);
    MoveDown(c, rest, most, t.r, nodes - {del});
    Update(rt, most.left, LeftOf(most, t.r, c), rest, nodes - {del});
  }

  lemma {:induction false} LeafGone(h: Ptrs, c: Ctx, del: Region)
    requires !c.Root? && CtxApart(c) && CtxLinked(h, c, del, null) && del !in CtxNodes(c)
    ensures h.Has(c.n) && CtxLinked(SetChild(h, c.n, del, null), c, null, null)
  {
    CtxChildSide(h, c, del);
    Refilled(h, SetChild(h, c.n, del, null), {c.n}, c, del, null);
  }

  lemma {:induction false} LeafRest(c: Ctx, del: Region)
    ensures Rest(c, Branch(Leaf, del, Leaf)) == Before(c) + Inorder(Leaf) + After(c)
    ensures c.Root? ==> Rest(c, Branch(Leaf, del, Leaf)) == []
  {
    assert Inorder(Leaf) + Inorder(Leaf) == Inorder(Leaf);
  }

  /** Lines 270-283 */
  method RemoveLeaf(rt: SpRoot, del: Region, ghost c: Ctx, ghost nodes: set<Region>)
    requires At(c, Branch(Leaf, del, Leaf), nodes) && HintsOk(nodes) && rt.root == CtxTop(c, del)
    modifies rt, nodes`left, nodes`right, nodes`parent, nodes`hint
    ensures rt.Valid() && Nodes(rt.tree) == nodes - {del} && Inorder(rt.tree) == Rest(c, Branch(Leaf, del, Leaf))
  {
    ghost var t := Branch(Leaf, del, Leaf);
    RootAbove(c, t, rt.root);
    TopPointers(c, t, nodes);
    if del == rt.root {
      LeafRest(c, del);
      rt.root := null;
      rt.tree := Leaf;
    } else {
      CutLeaf(del, c, nodes);
      MoveUp(c, Leaf, nodes - {del});
      LeafRest(c, del);
      Update(rt, del.parent, c.up, Parent(c, Leaf), nodes - {del});
    }
  }

  /** Lines 278-281 */
  method CutLeaf(del: Region, ghost c: Ctx, ghost nodes: set<Region>)
    requires !c.Root? && At(c, Branch(Leaf, del, Leaf), nodes) && del.parent == c.n
    modifies nodes`left, nodes`right
    ensures At(c, Leaf, nodes - {del})
  {
    ghost var h := Snap(nodes);
    LeafGone(h, c, del);
    PutChild(del.parent, del, null, nodes);
    assert Nodes(Branch(Leaf, del, Leaf)) == {del};
    AtWithout(c, Leaf, nodes, del);
  }

  /** `sp_remove`: exactly the removed node leaves the in-order sequence. */
  method Remove(rt: SpRoot, del: Region, ghost nodes: set<Region>) returns (ghost i: nat)
    requires rt.Valid() && del in nodes && nodes == Nodes(rt.tree)
    modifies rt, nodes`left, nodes`right, nodes`parent, nodes`hint
    ensures rt.Valid() && Nodes(rt.tree) == nodes - {del}
    ensures i < |old(Inorder(rt.tree))| && old(Inorder(rt.tree))[i] == del
    ensures Inorder(rt.tree) == old(Inorder(rt.tree))[..i] + old(Inorder(rt.tree))[i + 1..]
  {
    ghost var c, t := Focus(rt.tree, del);
    AtIffHolds(c, t, nodes);
    TopPointers(c, t, nodes);
    i := RestIsRemoval(c, t);
    if del.right != null {
      RemoveToRight(rt, del, c, t, nodes);
    } else if del.left != null {
      RemoveToLeft(rt, del, c, t, nodes);
    } else {
      RemoveLeaf(rt, del, c, nodes);
    }
  }

  lemma {:induction false} RestIsRemoval(c: Ctx, t: Tree) returns (i: nat)
    requires t.Branch?
    ensures var s := Inorder(Plug(c, t)); i < |s| && s[i] == t.n && Rest(c, t) == s[..i] + s[i + 1..]
  {
    InorderPlug(c, t);
    i := |Before(c)| + |Inorder(t.l)|;
    CutMiddle(Before(c), Inorder(t.l), t.n, Inorder(t.r), After(c));
  }

  lemma CutMiddle(a: seq<Region>, b: seq<Region>, x: Region, d: seq<Region>, e: seq<Region>)
    ensures var s, i := a + (b + [x] + d) + e, |a| + |b|;
            s[i] == x && a + (b + d) + e == s[..i] + s[i + 1..]
  {
  }
}
