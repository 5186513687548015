/** Linked nodes in memory that have a given shape. */
module RbHeap {
  import opened RbShape

  /** The fields of one node, and of many. */
  datatype Links = Links(parent: RbNode, left: RbNode, right: RbNode, red: bool)
  {
    function Child(s: Side): RbNode { if s.Left? then left else right }
    function Redirect(s: Side, m: RbNode): Links { if s.Left? then this.(left := m) else this.(right := m) }
  }
  type Store = map<RbNode, Links>

  /** Memory holds what `S` says. */
  ghost predicate Mem(S: Store)
    reads S.Keys
  {
    forall n | n in S :: n.parent == S[n].parent && n.left == S[n].left && n.right == S[n].right && n.red == S[n].red
  }

  /** The node a subtree's parent points at. */
  function Ptr(t: Tree, nil: RbNode): RbNode { if t.Leaf? then nil else t.n }

  /** `S` holds `t` below `par`, no node twice. */
  ghost predicate Rep(S: Store, t: Tree, par: RbNode, nil: RbNode) {
    match t
    case Leaf => true
    case Node(l, n, red, r) =>
      && n in S && S[n] == Links(par, Ptr(l, nil), Ptr(r, nil), red)
      && n !in Nodes(l) && n !in Nodes(r) && Nodes(l) !! Nodes(r)
      && Rep(S, l, n, nil) && Rep(S, r, n, nil)
  }

  /** `S` holds `c` around a place at which it points to `hole`. */
  ghost predicate RepCtx(S: Store, c: Ctx, hole: RbNode, nil: RbNode) {
    match c
    case Top(s) => s in S && S[s] == Links(nil, hole, nil, false)
    case Frame(side, n, red, sib, up) =>
      && n in S && S[n].parent == up.Parent() && S[n].red == red
      && S[n].Child(side) == hole && S[n].Child(side.Flip()) == Ptr(sib, nil)
      && n !in Nodes(sib) && n !in CtxNodes(up) && Nodes(sib) !! CtxNodes(up)
      && Rep(S, sib, n, nil) && RepCtx(S, up, n, nil)
  }

  /** `S` holds the whole tree, seen from the place of `t` within `c`. */
  ghost predicate Focus(S: Store, c: Ctx, t: Tree, nil: RbNode) {
    && nil !in CtxNodes(c) && nil !in Nodes(t) && CtxNodes(c) !! Nodes(t)
    && Rep(S, t, c.Parent(), nil) && RepCtx(S, c, Ptr(t, nil), nil)
  }

  /** Memory holds the red-black tree `T` below the sentinel `root`. */
  ghost predicate WellFormed(root: RbNode, nil: RbNode, T: Tree, S: Store)
    reads S.Keys
  {
    && Mem(S) && S.Keys == Nodes(T) + {nil, root} && nil != root && !S[nil].red
    && Focus(S, Top(root), T, nil)
    && RedBlack(T) && !T.IsRed() && Sorted(InOrder(T))
  }

  /** What `S` holds, it knows the fields of. */
  lemma {:induction false} RepKeys(S: Store, t: Tree, par: RbNode, nil: RbNode)
    requires Rep(S, t, par, nil)
    ensures Nodes(t) <= S.Keys
  {
    if t.Node? {
      RepKeys(S, t.left, t.n, nil);
      RepKeys(S, t.right, t.n, nil);
    }
  }

  lemma {:induction false} RepCtxKeys(S: Store, c: Ctx, hole: RbNode, nil: RbNode)
    requires RepCtx(S, c, hole, nil)
    ensures CtxNodes(c) <= S.Keys
  {
    if c.Frame? {
      RepKeys(S, c.sib, c.n, nil);
      RepCtxKeys(S, c.up, c.n, nil);
    }
  }

  lemma {:induction false} RepFrame(S: Store, S': Store, t: Tree, par: RbNode, nil: RbNode)
    requires Rep(S, t, par, nil) && forall n | n in Nodes(t) && n in S :: n in S' && S'[n] == S[n]
    ensures Rep(S', t, par, nil)
  {
    if t.Node? {
      RepFrame(S, S', t.left, t.n, nil);
      RepFrame(S, S', t.right, t.n, nil);
    }
  }

  lemma {:induction false} RepCtxFrame(S: Store, S': Store, c: Ctx, hole: RbNode, nil: RbNode)
    requires RepCtx(S, c, hole, nil) && forall n | n in CtxNodes(c) && n in S :: n in S' && S'[n] == S[n]
    ensures RepCtx(S', c, hole, nil)
  {
    if c.Frame? {
      RepFrame(S, S', c.sib, c.n, nil);
      RepCtxFrame(S, S', c.up, c.n, nil);
    }
  }

  ghost function CtxSide(c: Ctx): Side { if c.Top? then Left else c.side }

  /** Hanging `t` below another parent. */
  lemma {:induction false} Reparent(S: Store, S': Store, t: Tree, p: RbNode, q: RbNode, nil: RbNode)
    requires Rep(S, t, p, nil)
    requires forall n | n in Nodes(t) && n in S && n != Ptr(t, nil) :: n in S' && S'[n] == S[n]
    requires t.Node? ==> t.n in S' && S'[t.n] == S[t.n].(parent := q)
    ensures Rep(S', t, q, nil)
  {
    if t.Node? {
      RepFrame(S, S', t.left, t.n, nil);
      RepFrame(S, S', t.right, t.n, nil);
    }
  }

  /** Letting the parent of the place point at another node. */
  lemma {:induction false} Rehole(S: Store, S': Store, c: Ctx, h: RbNode, h': RbNode, nil: RbNode)
    requires RepCtx(S, c, h, nil)
    requires forall n | n in CtxNodes(c) && n in S && n != c.Parent() :: n in S' && S'[n] == S[n]
    requires c.Parent() in S' && S'[c.Parent()] == S[c.Parent()].Redirect(CtxSide(c), h')
    ensures RepCtx(S', c, h', nil)
  {
    if c.Frame? {
      RepFrame(S, S', c.sib, c.n, nil);
      RepCtxFrame(S, S', c.up, c.n, nil);
    }
  }

  /** What the pointers around the node in focus are. */
  lemma {:induction false} FocusLinks(S: Store, c: Ctx, t: Tree, nil: RbNode)
    requires Focus(S, c, t, nil)
    ensures c.Parent() in S && c.Parent() != nil && S[c.Parent()].Child(CtxSide(c)) == Ptr(t, nil)
    ensures S[c.Parent()].red == c.IsRed() && (t.Node? ==> S[c.Parent()].Child(CtxSide(c).Flip()) != t.n)
    ensures c.Frame? ==> S[c.n].parent == c.up.Parent() && S[c.n].Child(c.side.Flip()) == Ptr(c.sib, nil)
    ensures c.Frame? && c.sib.Node? ==> c.sib.n in S && S[c.sib.n].red == c.sib.red && c.sib.n != nil
    ensures t.Node? ==> t.n in S && t.n != nil && S[t.n].parent == c.Parent() && S[t.n].red == t.red
  {
  }

  /** Looking from one node further up changes nothing. */
  lemma {:induction false} FocusUp(S: Store, c: Ctx, t: Tree, nil: RbNode)
    requires c.Frame?
    ensures Focus(S, c, t, nil) <==> Focus(S, c.up, Mk(c.side, t, c.n, c.red, c.sib), nil)
  {
  }

  lemma {:induction false} FocusTop(S: Store, c: Ctx, t: Tree, nil: RbNode)
    requires Focus(S, c, t, nil)
    ensures Focus(S, Top(Bottom(c)), Plug(c, t), nil)
  {
    if c.Frame? {
      FocusUp(S, c, t, nil);
      FocusTop(S, c.up, Mk(c.side, t, c.n, c.red, c.sib), nil);
    }
  }

  lemma {:induction false} BottomIn(c: Ctx)
    ensures Bottom(c) in CtxNodes(c)
  {
    if c.Frame? { BottomIn(c.up); }
  }

  /** The fields of a node whose child on side `s` is `near`. */
  function LinksOf(s: Side, par: RbNode, near: RbNode, far: RbNode, red: bool): Links {
    if s.Left? then Links(par, near, far, red) else Links(par, far, near, red)
  }

  /** The shape after a rotation towards `s`. */
  function Rotated(s: Side, t: Tree): Tree
    requires t.Node? && t.Kid(s.Flip()).Node?
  {
    var y := t.Kid(s.Flip());
    Mk(s, Mk(s, t.Kid(s), t.n, t.red, y.Kid(s)), y.n, y.red, y.Kid(s.Flip()))
  }

  lemma {:induction false} RotatedInOrder(s: Side, t: Tree)
    requires t.Node? && t.Kid(s.Flip()).Node?
    ensures InOrder(Rotated(s, t)) == InOrder(t)
  {
    var y := t.Kid(s.Flip());
    if s.Left? {
      assert InOrder(Rotated(s, t)) == InOrder(t.left) + [t.n] + InOrder(y.left) + [y.n] + InOrder(y.right);
    } else {
      assert InOrder(Rotated(s, t)) == InOrder(y.left) + [y.n] + InOrder(y.right) + [t.n] + InOrder(t.right);
    }
  }

  /** The six writes of a rotation, as the macro orders them. */
  ghost function RotateStore(S: Store, s: Side, x: RbNode, nil: RbNode): (r: Store)
    requires x in S && S[x].Child(s.Flip()) in S && S[x].parent in S
    requires var b := S[S[x].Child(s.Flip())].Child(s); b == nil || b in S
    ensures r.Keys == S.Keys
  {
    var y, p := S[x].Child(s.Flip()), S[x].parent;
    var b := S[y].Child(s);
    var S1 := S[x := S[x].Redirect(s.Flip(), b)];
    var S2 := if b != nil then S1[b := S1[b].(parent := x)] else S1;
    var S3 := S2[y := S2[y].(parent := p)];
    var S4 := S3[p := S3[p].Redirect(if x == S3[p].left then Left else Right, y)];
    var S5 := S4[y := S4[y].Redirect(s, x)];
    S5[x := S5[x].(parent := y)]
  }

  /** Where the nodes of a rotation are. */
  lemma {:induction false} RotateParts(S: Store, s: Side, c: Ctx, t: Tree, nil: RbNode)
    requires Focus(S, c, t, nil) && t.Node? && t.Kid(s.Flip()).Node?
    ensures var yt := t.Kid(s.Flip());
            var a, b, d := t.Kid(s), yt.Kid(s), yt.Kid(s.Flip());
            var x, y, p := t.n, yt.n, c.Parent();
            && x in S && y in S && p in S && S[x].Child(s.Flip()) == y && S[x].parent == p && S[y].Child(s) == Ptr(b, nil)
            && S[x].Child(s) == Ptr(a, nil) && S[y].Child(s.Flip()) == Ptr(d, nil) && S[x].red == t.red && S[y].red == yt.red
            && (x == S[p].left <==> CtxSide(c).Left?)
            && (b.Node? ==> b.n in S && b.n != nil)
            && Rep(S, a, x, nil) && Rep(S, b, y, nil) && Rep(S, d, y, nil) && RepCtx(S, c, x, nil)
            && Nodes(a) !! Nodes(b) && Nodes(a) !! Nodes(d) && Nodes(b) !! Nodes(d) && x != y
            && (forall n | n in Nodes(a) + Nodes(b) + Nodes(d) :: n != x && n != y && n != nil && n !in CtxNodes(c))
            && x !in CtxNodes(c) && y !in CtxNodes(c) && p in CtxNodes(c) && x != nil && y != nil && nil !in CtxNodes(c)
  {
    var yt := t.Kid(s.Flip());
    assert Rep(S, yt, t.n, nil) && Rep(S, yt.Kid(s), yt.n, nil);
    assert Nodes(t) == Nodes(t.Kid(s)) + {t.n} + Nodes(yt);
    assert Nodes(yt) == Nodes(yt.Kid(s)) + {yt.n} + Nodes(yt.Kid(s.Flip()));
  }

  lemma {:induction false} RotateStoreAt(S: Store, s: Side, x: RbNode, y: RbNode, p: RbNode, b: RbNode, nil: RbNode)
    requires x in S && y in S && p in S && x != y && x != p && y != p
    requires S[x].Child(s.Flip()) == y && S[x].parent == p && S[y].Child(s) == b
    requires b != nil ==> b in S && b != x && b != y && b != p
    ensures var S' := RotateStore(S, s, x, nil);
            && S'.Keys == S.Keys
            && S'[x] == S[x].Redirect(s.Flip(), b).(parent := y) && S'[y] == S[y].Redirect(s, x).(parent := p)
            && S'[p] == S[p].Redirect(if x == S[p].left then Left else Right, y)
            && (b != nil ==> S'[b] == S[b].(parent := x))
            && forall n | n in S && n != x && n != y && n != p && (b == nil || n != b) :: S'[n] == S[n]
  {
  }

  /** A rotation leaves the fields of nil alone. */
  lemma {:induction false} RotateNil(S: Store, s: Side, c: Ctx, t: Tree, nil: RbNode)
    requires Focus(S, c, t, nil) && t.Node? && t.Kid(s.Flip()).Node? && nil in S
    ensures t.n in S && S[t.n].Child(s.Flip()) in S && S[t.n].parent in S
    ensures var b := S[S[t.n].Child(s.Flip())].Child(s); b == nil || b in S
    ensures RotateStore(S, s, t.n, nil)[nil] == S[nil]
  {
    RotateParts(S, s, c, t, nil);
    var yt := t.Kid(s.Flip());
    RotateStoreAt(S, s, t.n, yt.n, c.Parent(), Ptr(yt.Kid(s), nil), nil);
  }

  lemma {:induction false} MkRep(S: Store, s: Side, near: Tree, n: RbNode, red: bool, far: Tree, par: RbNode, nil: RbNode)
    requires n in S && S[n] == LinksOf(s, par, Ptr(near, nil), Ptr(far, nil), red)
    requires n !in Nodes(near) && n !in Nodes(far) && Nodes(near) !! Nodes(far)
    requires Rep(S, near, n, nil) && Rep(S, far, n, nil)
    ensures Rep(S, Mk(s, near, n, red, far), par, nil)
    ensures Nodes(Mk(s, near, n, red, far)) == Nodes(near) + {n} + Nodes(far)
    ensures Ptr(Mk(s, near, n, red, far), nil) == n
  {
  }

  lemma {:induction false} MkFocus(S: Store, c: Ctx, s: Side, near: Tree, n: RbNode, red: bool, far: Tree, nil: RbNode)
    requires n in S && S[n] == LinksOf(s, c.Parent(), Ptr(near, nil), Ptr(far, nil), red)
    requires n !in Nodes(near) && n !in Nodes(far) && Nodes(near) !! Nodes(far)
    requires Rep(S, near, n, nil) && Rep(S, far, n, nil) && RepCtx(S, c, n, nil)
    requires n != nil && nil !in Nodes(near) && nil !in Nodes(far) && nil !in CtxNodes(c)
    requires n !in CtxNodes(c) && Nodes(near) !! CtxNodes(c) && Nodes(far) !! CtxNodes(c)
    ensures Focus(S, c, Mk(s, near, n, red, far), nil)
  {
    MkRep(S, s, near, n, red, far, c.Parent(), nil);
  }

  /** The parts of the tree after the six writes. */
  lemma {:induction false} RotatedRep(S: Store, S': Store, s: Side, c: Ctx, a: Tree, x: RbNode, rx: bool,
                                      b: Tree, y: RbNode, ry: bool, d: Tree, nil: RbNode)
    requires x in S' && y in S' && c.Parent() in S' && c.Parent() in S && x != y
    requires Rep(S, a, x, nil) && Rep(S, b, y, nil) && Rep(S, d, y, nil) && RepCtx(S, c, x, nil)
    requires Nodes(a) !! Nodes(b) && Nodes(a) !! Nodes(d) && Nodes(b) !! Nodes(d)
    requires forall n | n in Nodes(a) + Nodes(b) + Nodes(d) :: n != x && n != y && n != nil && n !in CtxNodes(c)
    requires x !in CtxNodes(c) && y !in CtxNodes(c) && c.Parent() in CtxNodes(c) && x != nil && y != nil && nil !in CtxNodes(c)
    requires S'[x] == LinksOf(s, y, Ptr(a, nil), Ptr(b, nil), rx) && S'[y] == LinksOf(s, c.Parent(), x, Ptr(d, nil), ry)
    requires S'[c.Parent()] == S[c.Parent()].Redirect(CtxSide(c), y)
    requires b.Node? ==> b.n in S && b.n in S' && S'[b.n] == S[b.n].(parent := x)
    requires forall n | n in S && n != x && n != y && n != c.Parent() && !(b.Node? && n == b.n) :: n in S' && S'[n] == S[n]
    ensures Focus(S', c, Mk(s, Mk(s, a, x, rx, b), y, ry, d), nil)
  {
    RepFrame(S, S', a, x, nil);
    Reparent(S, S', b, y, x, nil);
    RepFrame(S, S', d, y, nil);
    Rehole(S, S', c, x, y, nil);
    MkRep(S', s, a, x, rx, b, y, nil);
    MkFocus(S', c, s, Mk(s, a, x, rx, b), y, ry, d, nil);
  }

  lemma {:induction false} RotateFocus(S: Store, s: Side, c: Ctx, t: Tree, nil: RbNode)
    requires Focus(S, c, t, nil) && t.Node? && t.Kid(s.Flip()).Node?
    ensures t.n in S && S[t.n].Child(s.Flip()) in S && S[t.n].parent in S
    ensures var b := S[S[t.n].Child(s.Flip())].Child(s); b == nil || b in S
    ensures Focus(RotateStore(S, s, t.n, nil), c, Rotated(s, t), nil)
  {
    RotateParts(S, s, c, t, nil);
    var yt := t.Kid(s.Flip());
    RotateStoreAt(S, s, t.n, yt.n, c.Parent(), Ptr(yt.Kid(s), nil), nil);
    RotatedRep(S, RotateStore(S, s, t.n, nil), s, c, t.Kid(s), t.n, t.red, yt.Kid(s), yt.n, yt.red, yt.Kid(s.Flip()), nil);
  }

  /** Painting the root of the subtree in focus. */
  lemma {:induction false} PaintFocus(S: Store, c: Ctx, t: Tree, red: bool, nil: RbNode)
    requires Focus(S, c, t, nil) && t.Node?
    ensures t.n in S && Focus(S[t.n := S[t.n].(red := red)], c, Paint(t, red), nil)
  {
    var S' := S[t.n := S[t.n].(red := red)];
    RepFrame(S, S', t.left, t.n, nil);
    RepFrame(S, S', t.right, t.n, nil);
    RepCtxFrame(S, S', c, t.n, nil);
  }

  /** Painting the parent, and painting the sibling. */
  lemma {:induction false} PaintParent(S: Store, c: Ctx, t: Tree, red: bool, nil: RbNode)
    requires Focus(S, c, t, nil) && c.Frame?
    ensures c.n in S && c.n != nil && Focus(S[c.n := S[c.n].(red := red)], c.(red := red), t, nil)
  {
    var S' := S[c.n := S[c.n].(red := red)];
    RepFrame(S, S', t, c.n, nil);
    RepFrame(S, S', c.sib, c.n, nil);
    RepCtxFrame(S, S', c.up, c.n, nil);
  }

  lemma {:induction false} PaintSibling(S: Store, c: Ctx, t: Tree, red: bool, nil: RbNode)
    requires Focus(S, c, t, nil) && c.Frame? && c.sib.Node?
    ensures c.sib.n in S && c.sib.n != nil
    ensures Focus(S[c.sib.n := S[c.sib.n].(red := red)], c.(sib := Paint(c.sib, red)), t, nil)
  {
    var S' := S[c.sib.n := S[c.sib.n].(red := red)];
    RepFrame(S, S', t, c.n, nil);
    RepFrame(S, S', c.sib.left, c.sib.n, nil);
    RepFrame(S, S', c.sib.right, c.sib.n, nil);
    RepCtxFrame(S, S', c.up, c.n, nil);
    assert Nodes(Paint(c.sib, red)) == Nodes(c.sib);
  }

  // ---------- Writes to memory ----------

  method SetChild(n: RbNode, s: Side, v: RbNode, ghost S: Store) returns (ghost S': Store)
    requires Mem(S) && n in S
    modifies n
    ensures S' == S[n := S[n].Redirect(s, v)] && Mem(S')
  {
    if s.Left? { n.left := v; } else { n.right := v; }
    S' := S[n := S[n].Redirect(s, v)];
  }

  method SetParent(n: RbNode, v: RbNode, ghost S: Store) returns (ghost S': Store)
    requires Mem(S) && n in S
    modifies n
    ensures S' == S[n := S[n].(parent := v)] && Mem(S')
  {
    n.parent := v;
    S' := S[n := S[n].(parent := v)];
  }

  method SetRed(n: RbNode, v: bool, ghost S: Store) returns (ghost S': Store)
    requires Mem(S) && n in S
    modifies n
    ensures S' == S[n := S[n].(red := v)] && Mem(S')
  {
    n.red := v;
    S' := S[n := S[n].(red := v)];
  }

  /** FUNC_ROTATE, with `s` for `_left` and its flip for `_right`. */
  method Rotate(s: Side, x: RbNode, nil: RbNode, ghost S: Store) returns (ghost S': Store)
    requires Mem(S) && x in S && S[x].Child(s.Flip()) in S && S[x].parent in S
    requires var b := S[S[x].Child(s.Flip())].Child(s); b == nil || b in S
    modifies S.Keys
    ensures S' == RotateStore(S, s, x, nil) && Mem(S')
  {
    var y, p := x.Child(s.Flip()), x.parent;
    var b := y.Child(s);
    S' := SetChild(x, s.Flip(), b, S);
    if b != nil {
      S' := SetParent(b, x, S');
    }
    S' := SetParent(y, p, S');
    S' := SetChild(p, if x == p.left then Left else Right, y, S');
    S' := SetChild(y, s, x, S');
    S' := SetParent(x, y, S');
  }

  lemma {:induction false} HangFocus(S: Store, S': Store, c: Ctx, z: RbNode, red: bool, nil: RbNode)
    requires Focus(S, c, Leaf, nil) && z !in S && nil in S && c.Parent() in S
    requires S' == S[z := Links(c.Parent(), nil, nil, red)][c.Parent() := S[c.Parent()].Redirect(CtxSide(c), z)]
    ensures Focus(S', c, Node(Leaf, z, red, Leaf), nil)
  {
    RepCtxKeys(S, c, nil, nil);
    Rehole(S, S', c, nil, z, nil);
  }

  /** Gives the node `z` from outside its first links and the colour red, and lets `y` point to it. */
  method Hang(z: RbNode, y: RbNode, s: Side, nil: RbNode, ghost c: Ctx, ghost S: Store) returns (ghost S': Store)
    requires Mem(S) && z !in S && nil in S && Focus(S, c, Leaf, nil) && y == c.Parent() && s == CtxSide(c)
    modifies z, y
    ensures Mem(S') && S'.Keys == S.Keys + {z} && S'[nil] == S[nil]
    ensures Focus(S', c, Node(Leaf, z, true, Leaf), nil)
  {
    RepCtxKeys(S, c, nil, nil);
    assert y in CtxNodes(c);
    z.left, z.right := nil, nil;
    z.parent := y;
    z.red := true;
    ghost var S1 := S[z := Links(y, nil, nil, true)];
    assert Mem(S1);
    S' := SetChild(y, s, z, S1);
    HangFocus(S, S', c, z, true, nil);
  }
}
