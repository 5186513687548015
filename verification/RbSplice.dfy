/** rb_delete: the node taken out of its place, and the node that may take over another place. */
module RbSplice {
  import opened RbShape
  import opened RbHeap
  import opened RbDeleteSteps

  /** Every node of a tree has a place. */
  lemma {:induction false} FindNode(S: Store, c0: Ctx, t0: Tree, z: RbNode, nil: RbNode) returns (c: Ctx, t: Tree)
    requires Focus(S, c0, t0, nil) && Settled(c0, t0) && z in Nodes(t0)
    ensures Focus(S, c, t, nil) && Settled(c, t) && t.Node? && t.n == z
    ensures Plug(c, t) == Plug(c0, t0) && Bottom(c) == Bottom(c0)
    decreases t0
  {
    if t0.n == z {
      c, t := c0, t0;
    } else {
      var s := if z in Nodes(t0.left) then Left else Right;
      DescendRules(c0, t0, s);
      FocusUp(S, Below(c0, t0, s), t0.Kid(s), nil);
      c, t := FindNode(S, Below(c0, t0, s), t0.Kid(s), z, nil);
    }
  }

  /** `d` is reached from `base` by going left only. */
  ghost predicate LeftChain(d: Ctx, base: Ctx) {
    d == base || (d.Frame? && d.side.Left? && LeftChain(d.up, base))
  }

  /** The subtree at `base` when `t` is in the place `d`. */
  ghost function PlugTo(d: Ctx, base: Ctx, t: Tree): Tree
    requires LeftChain(d, base)
  {
    if d == base then t else PlugTo(d.up, base, Mk(Left, t, d.n, d.red, d.sib))
  }

  /** The place `d` with its last surroundings exchanged. */
  ghost function Rebase(d: Ctx, base: Ctx, base': Ctx): Ctx
    requires LeftChain(d, base)
  {
    if d == base then base' else Frame(Left, d.n, d.red, d.sib, Rebase(d.up, base, base'))
  }

  lemma {:induction false} ChainFocus(S: Store, d: Ctx, base: Ctx, t: Tree, nil: RbNode)
    requires LeftChain(d, base)
    ensures Focus(S, d, t, nil) <==> Focus(S, base, PlugTo(d, base, t), nil)
  {
    if d != base {
      FocusUp(S, d, t, nil);
      ChainFocus(S, d.up, base, Mk(Left, t, d.n, d.red, d.sib), nil);
    }
  }

  lemma {:induction false} RebaseChain(d: Ctx, base: Ctx, base': Ctx, t: Tree)
    requires LeftChain(d, base)
    ensures LeftChain(Rebase(d, base, base'), base')
    ensures base'.Frame? && base.Frame? && base'.side.Right? && base.side.Right? ==>
      PlugTo(Rebase(d, base, base'), base', t) == PlugTo(d, base, t)
  {
    if d != base {
      RebaseChain(d.up, base, base', Mk(Left, t, d.n, d.red, d.sib));
    }
  }

  /** Exchanging a node of the surroundings for another of the same colour keeps the rules. */
  lemma {:induction false} RebaseRules(d: Ctx, base: Ctx, y: RbNode, h: nat)
    requires LeftChain(d, base) && base.Frame?
    ensures var d' := Rebase(d, base, base.(n := y));
            (CtxRedBlack(d', h) <==> CtxRedBlack(d, h)) && d'.IsRed() == d.IsRed() && d'.Frame? && Bottom(d') == Bottom(d)
  {
    if d != base {
      RebaseRules(d.up, base, y, if d.red then h else h + 1);
    }
  }

  lemma {:induction false} RebasePlug(d: Ctx, base: Ctx, t: Tree)
    requires LeftChain(d, base)
    ensures Plug(d, t) == Plug(base, PlugTo(d, base, t))
  {
    if d != base {
      RebasePlug(d.up, base, Mk(Left, t, d.n, d.red, d.sib));
    }
  }

  /** Without its leftmost node a subtree holds the others in the same order. */
  lemma {:induction false} ChainInOrder(d: Ctx, base: Ctx, ty: Tree)
    requires LeftChain(d, base) && ty.Node? && ty.left.Leaf?
    ensures InOrder(PlugTo(d, base, ty)) == [ty.n] + InOrder(PlugTo(d, base, ty.right))
  {
    ChainPrefix(d, base, ty, ty.right, [ty.n]);
  }

  lemma {:induction false} ChainPrefix(d: Ctx, base: Ctx, t: Tree, u: Tree, a: seq<RbNode>)
    requires LeftChain(d, base) && InOrder(t) == a + InOrder(u)
    ensures InOrder(PlugTo(d, base, t)) == a + InOrder(PlugTo(d, base, u))
  {
    if d != base {
      assert InOrder(Mk(Left, t, d.n, d.red, d.sib)) == a + InOrder(Mk(Left, u, d.n, d.red, d.sib));
      ChainPrefix(d.up, base, Mk(Left, t, d.n, d.red, d.sib), Mk(Left, u, d.n, d.red, d.sib), a);
    }
  }

  /** The loop of rb_tree_successor below the right child `y0`. */
  method Leftmost(y0: RbNode, nil: RbNode, ghost base: Ctx, ghost u: Tree, ghost S: Store)
      returns (y: RbNode, ghost d: Ctx, ghost ty: Tree)
    requires Mem(S) && Focus(S, base, u, nil) && u.Node? && y0 == u.n && Settled(base, u) && base.Frame? && base.side.Right?
    ensures Focus(S, d, ty, nil) && ty.Node? && ty.n == y && ty.left.Leaf? && Settled(d, ty)
    ensures LeftChain(d, base) && PlugTo(d, base, ty) == u && y in S
  {
    y, d, ty := y0, base, u;
    FocusLinks(S, d, ty, nil);
    while y.left != nil
      invariant Focus(S, d, ty, nil) && ty.Node? && ty.n == y && y in S && Settled(d, ty)
      invariant LeftChain(d, base) && PlugTo(d, base, ty) == u
      decreases ty
    {
      DescendRules(d, ty, Left);
      FocusUp(S, Below(d, ty, Left), ty.left, nil);
      y := y.left;
      d, ty := Below(d, ty, Left), ty.left;
      FocusLinks(S, d, ty, nil);
    }
  }

  // ---------- Taking a node out ----------

  /** The one child, or nil. */
  function OnlyKid(t: Tree): Tree
    requires t.Node?
  {
    if t.left.Node? then t.left else t.right
  }

  lemma {:induction false} SpliceRules(d: Ctx, ty: Tree)
    requires Settled(d, ty) && ty.Node? && (ty.left.Leaf? || ty.right.Leaf?)
    ensures ty.red ==> Settled(d, OnlyKid(ty))
    ensures !ty.red ==> Lacking(d, OnlyKid(ty))
  {
    PaintRules(OnlyKid(ty));
  }

  lemma {:induction false} SpliceFocus(S: Store, S': Store, d: Ctx, ty: Tree, nil: RbNode)
    requires Focus(S, d, ty, nil) && ty.Node? && (ty.left.Leaf? || ty.right.Leaf?) && nil in S
    requires d.Parent() in S && Ptr(OnlyKid(ty), nil) in S
    requires var S1 := S[Ptr(OnlyKid(ty), nil) := S[Ptr(OnlyKid(ty), nil)].(parent := d.Parent())];
             S' == S1[d.Parent() := S1[d.Parent()].Redirect(CtxSide(d), Ptr(OnlyKid(ty), nil))]
    ensures Focus(S', d, OnlyKid(ty), nil)
    ensures ty.n !in CtxNodes(d) && ty.n !in Nodes(OnlyKid(ty)) && ty.n != nil
  {
    var tx := OnlyKid(ty);
    FocusLinks(S, d, ty, nil);
    BottomIn(d);
    assert tx.Node? ==> tx.n in Nodes(tx);
    Reparent(S, S', tx, ty.n, d.Parent(), nil);
    Rehole(S, S', d, ty.n, Ptr(tx, nil), nil);
  }

  /** The pointers around the node taken out. */
  lemma {:induction false} SpliceLinks(S: Store, d: Ctx, ty: Tree, nil: RbNode)
    requires Focus(S, d, ty, nil) && ty.Node? && (ty.left.Leaf? || ty.right.Leaf?) && nil in S
    ensures var x, p, y := Ptr(OnlyKid(ty), nil), d.Parent(), ty.n;
            && y in S && p in S && x in S && S[y].parent == p && S[y].red == ty.red && x != p && y != p && x != y && p != nil && y != nil
            && x == (if S[y].left != nil then S[y].left else S[y].right)
            && S[y].left in S && S[y].right in S && S[y].left != y && S[y].right != y
            && (S[p].left == y <==> CtxSide(d).Left?)
  {
    FocusLinks(S, d, ty, nil);
    assert ty.left.Node? ==> ty.left.n in Nodes(ty.left);
    assert ty.right.Node? ==> ty.right.n in Nodes(ty.right);
    RepKeys(S, ty, d.Parent(), nil);
    assert d.Parent() in CtxNodes(d);
  }

  /** The first half of rb_delete: `x` takes the place of its parent `y`. */
  method SpliceOut(y: RbNode, nil: RbNode, ghost d: Ctx, ghost ty: Tree, ghost S: Store) returns (x: RbNode, ghost S': Store)
    requires Mem(S) && nil in S && Focus(S, d, ty, nil) && ty.Node? && ty.n == y && (ty.left.Leaf? || ty.right.Leaf?)
    modifies S.Keys
    ensures Mem(S') && S'.Keys == S.Keys && S'[nil].red == S[nil].red
    ensures Focus(S', d, OnlyKid(ty), nil) && x == Ptr(OnlyKid(ty), nil) && x in S' && S'[x].parent == d.Parent()
    ensures y !in CtxNodes(d) && y !in Nodes(OnlyKid(ty)) && y != nil && y in S' && S'[y].red == ty.red
  {
    SpliceLinks(S, d, ty, nil);
    x, S' := SpliceMem(y, nil, S);
    SpliceFocus(S, S', d, ty, nil);
  }

  method SpliceMem(y: RbNode, nil: RbNode, ghost S: Store) returns (x: RbNode, ghost S': Store)
    requires Mem(S) && nil in S && y in S && S[y].parent in S && S[y].left in S && S[y].right in S
    requires y != S[y].parent && y != S[y].left && y != S[y].right
    modifies S.Keys
    ensures x == (if S[y].left != nil then S[y].left else S[y].right)
    ensures var p := S[y].parent;
            var S1 := S[x := S[x].(parent := p)];
            S' == S1[p := S1[p].Redirect(if S1[p].left == y then Left else Right, x)] && Mem(S')
  {
    x := if y.left != nil then y.left else y.right;
    S' := SetParent(x, y.parent, S);
    S' := SetChild(y.parent, if y == y.parent.left then Left else Right, x, S');
  }

  // ---------- Taking over another node's place ----------

  /** The writes by which `y` takes the place of `z`, the copy of all fields last. */
  ghost function TakeStore(S: Store, z: RbNode, y: RbNode): (r: Store)
    requires z in S && y in S && S[z].parent in S && S[z].left in S && S[z].right in S
    requires z != S[z].parent && z != S[z].left && z != S[z].right
    ensures r.Keys == S.Keys
  {
    var p, a, b := S[z].parent, S[z].left, S[z].right;
    var S1 := S[p := S[p].Redirect(if S[p].left == z then Left else Right, y)];
    var S2 := S1[b := S1[b].(parent := y)];
    var S3 := S2[a := S2[a].(parent := y)];
    S3[y := S3[z]]
  }

  lemma {:induction false} TakeLinks(S: Store, c: Ctx, t: Tree, nil: RbNode)
    requires Focus(S, c, t, nil) && t.Node? && t.left.Node? && nil in S
    ensures var z, p, a, b := t.n, c.Parent(), t.left.n, Ptr(t.right, nil);
            && z in S && p in S && a in S && b in S && S[z] == Links(p, a, b, t.red)
            && z != p && z != a && z != b && a != b && a != p && b != p && z != nil && a != nil && p != nil
            && (S[p].left == z <==> CtxSide(c).Left?)
  {
    FocusLinks(S, c, t, nil);
    RepKeys(S, t, c.Parent(), nil);
    assert t.left.n in Nodes(t.left) && (t.right.Node? ==> t.right.n in Nodes(t.right));
    assert c.Parent() in CtxNodes(c);
  }

  lemma {:induction false} TakeFocus(S: Store, c: Ctx, t: Tree, y: RbNode, nil: RbNode)
    requires Focus(S, c, t, nil) && t.Node? && t.left.Node? && nil in S && y in S
    requires y !in CtxNodes(c) && y !in Nodes(t) && y != nil
    requires t.n in S && S[t.n].parent in S && S[t.n].left in S && S[t.n].right in S
    requires t.n != S[t.n].parent && t.n != S[t.n].left && t.n != S[t.n].right
    ensures Focus(TakeStore(S, t.n, y), c, t.(n := y), nil)
    ensures TakeStore(S, t.n, y)[nil] == if t.right.Leaf? then S[nil].(parent := y) else S[nil]
  {
    var S' := TakeStore(S, t.n, y);
    TakeLinks(S, c, t, nil);
    assert Nodes(t) == Nodes(t.left) + {t.n} + Nodes(t.right);
    Reparent(S, S', t.left, t.n, y, nil);
    Reparent(S, S', t.right, t.n, y, nil);
    Rehole(S, S', c, t.n, y, nil);
  }

  /** The second half of rb_delete. */
  method TakePlace(z: RbNode, y: RbNode, ghost S: Store) returns (ghost S': Store)
    requires Mem(S) && z in S && y in S && S[z].parent in S && S[z].left in S && S[z].right in S
    requires z != S[z].parent && z != S[z].left && z != S[z].right && y != z && y != S[z].left && y != S[z].right && y != S[z].parent
    modifies S.Keys
    ensures S' == TakeStore(S, z, y) && Mem(S')
  {
    if z == z.parent.left {
      S' := SetChild(z.parent, Left, y, S);
    } else {
      S' := SetChild(z.parent, Right, y, S);
    }
    S' := SetParent(z.right, y, S');
    S' := SetParent(z.left, y, S');
    S' := CopyNode(y, z, S');
  }

  method CopyNode(y: RbNode, z: RbNode, ghost S: Store) returns (ghost S': Store)
    requires Mem(S) && y in S && z in S
    modifies y
    ensures S' == S[y := S[z]] && Mem(S')
  {
    y.red, y.parent, y.left, y.right := z.red, z.parent, z.left, z.right;
    S' := S[y := S[z]];
  }

  // ---------- The whole deletion ----------

  /** `z` taken out. */
  ghost function Removed(s: seq<RbNode>, z: RbNode): seq<RbNode> {
    if s == [] then [] else if s[0] == z then s[1..] else [s[0]] + Removed(s[1..], z)
  }

  lemma {:induction false} RemovedBetween(a: seq<RbNode>, z: RbNode, b: seq<RbNode>)
    requires z !in a
    ensures Removed(a + [z] + b, z) == a + b
  {
    if a == [] {
      assert a + [z] + b == [z] + b && a + b == b;
    } else {
      assert (a + [z] + b)[1..] == a[1..] + [z] + b && a[0] in a && a == [a[0]] + a[1..];
      RemovedBetween(a[1..], z, b);
    }
  }

  lemma {:induction false} BeforeIn(c: Ctx)
    ensures Elems(Before(c)) <= CtxNodes(c) && Elems(After(c)) <= CtxNodes(c)
  {
    if c.Frame? {
      BeforeIn(c.up);
      NodesInOrder(c.sib);
      ElemsConcat(Before(c.up), InOrder(c.sib));
      ElemsConcat(Before(c.up) + InOrder(c.sib), [c.n]);
      ElemsConcat([c.n], InOrder(c.sib));
      ElemsConcat([c.n] + InOrder(c.sib), After(c.up));
    }
  }

  lemma {:induction false} RemovedFacts(a: seq<RbNode>, z: RbNode, b: seq<RbNode>)
    requires z !in Elems(a) && z !in Elems(b)
    ensures Removed(a + [z] + b, z) == a + b
    ensures Elems(a + b) == Elems(a + [z] + b) - {z}
    ensures Sorted(a + [z] + b) ==> Sorted(a + b)
  {
    RemovedBetween(a, z, b);
    ElemsConcat(a, b);
    ElemsConcat(a, [z]);
    ElemsConcat(a + [z], b);
    if Sorted(a + [z] + b) {
      SortedParts(a + [z], b);
      SortedParts(a, [z]);
      assert forall m | m in a :: m in a + [z];
      SortedParts(a, b);
    }
  }

  lemma {:induction false} OnceInOrder(S: Store, c: Ctx, t: Tree, nil: RbNode)
    requires Focus(S, c, t, nil) && t.Node?
    ensures t.n !in Elems(Before(c) + InOrder(t.left)) && t.n !in Elems(InOrder(t.right) + After(c))
  {
    BeforeIn(c);
    NodesInOrder(t.left);
    NodesInOrder(t.right);
    ElemsConcat(Before(c), InOrder(t.left));
    ElemsConcat(InOrder(t.right), After(c));
  }

  lemma {:induction false} Middle<X>(a: seq<X>, b: seq<X>, m: seq<X>, d: seq<X>, e: seq<X>)
    ensures a + (b + m + d) + e == (a + b) + m + (d + e)
    ensures a + (b + d) + e == (a + b) + (d + e)
  {
  }

  /** The order without the node at the place. */
  lemma {:induction false} RemovedAt(c: Ctx, t: Tree, u: Tree)
    requires t.Node? && InOrder(u) == InOrder(t.left) + InOrder(t.right)
    requires t.n !in Elems(Before(c) + InOrder(t.left)) && t.n !in Elems(InOrder(t.right) + After(c))
    ensures InOrder(Plug(c, u)) == Removed(InOrder(Plug(c, t)), t.n)
    ensures Elems(InOrder(Plug(c, u))) == Elems(InOrder(Plug(c, t))) - {t.n}
    ensures Sorted(InOrder(Plug(c, t))) ==> Sorted(InOrder(Plug(c, u)))
  {
    PlugInOrder(c, t);
    PlugInOrder(c, u);
    Middle(Before(c), InOrder(t.left), [t.n], InOrder(t.right), After(c));
    RemovedFacts(Before(c) + InOrder(t.left), t.n, InOrder(t.right) + After(c));
  }

  lemma {:induction false} ChainNodes(d: Ctx, base: Ctx, t: Tree)
    requires LeftChain(d, base)
    ensures CtxNodes(d) + Nodes(t) == CtxNodes(base) + Nodes(PlugTo(d, base, t))
    ensures d != base ==> PlugTo(d, base, t).Node?
  {
    if d != base {
      assert Nodes(Mk(Left, t, d.n, d.red, d.sib)) == Nodes(t) + {d.n} + Nodes(d.sib);
      ChainNodes(d.up, base, Mk(Left, t, d.n, d.red, d.sib));
      assert d.up == base ==> PlugTo(d, base, t) == Mk(Left, t, d.n, d.red, d.sib);
    }
  }

  /** The tree at `z` once its successor, found in the place `d`, is out. */
  ghost function WithoutSuccessor(c: Ctx, t: Tree, d: Ctx, ty: Tree): Tree
    requires t.Node? && ty.Node? && LeftChain(d, Below(c, t, Right))
    ensures WithoutSuccessor(c, t, d, ty).Node?
  {
    t.(right := PlugTo(d, Below(c, t, Right), ty.right))
  }

  /** rb_tree_successor for a node with a right child. */
  method SuccessorBelow(z: RbNode, nil: RbNode, ghost c: Ctx, ghost t: Tree, ghost S: Store)
      returns (y: RbNode, ghost d: Ctx, ghost ty: Tree)
    requires Mem(S) && Focus(S, c, t, nil) && Settled(c, t) && t.Node? && t.n == z && t.right.Node?
    ensures Focus(S, d, ty, nil) && LeftChain(d, Below(c, t, Right)) && ty.Node? && ty.n == y && ty.left.Leaf? && Settled(d, ty)
    ensures PlugTo(d, Below(c, t, Right), ty) == t.right && y in S && y.red == ty.red
  {
    ghost var base := Below(c, t, Right);
    DescendRules(c, t, Right);
    FocusLinks(S, c, t, nil);
    FocusUp(S, base, t.right, nil);
    FocusLinks(S, base, t.right, nil);
    y, d, ty := Leftmost(z.right, nil, base, t.right, S);
    FocusLinks(S, d, ty, nil);
  }

  method SpliceSuccessor(z: RbNode, nil: RbNode, ghost c: Ctx, ghost t: Tree, ghost S: Store)
      returns (x: RbNode, y: RbNode, ghost d: Ctx, ghost ty: Tree, ghost S': Store)
    requires Mem(S) && nil in S && !S[nil].red && Focus(S, c, t, nil) && Settled(c, t) && t.Node? && t.n == z && t.right.Node?
    modifies S.Keys
    ensures Mem(S') && S'.Keys == S.Keys && !S'[nil].red
    ensures LeftChain(d, Below(c, t, Right)) && ty.Node? && ty.n == y && ty.left.Leaf? && Settled(d, ty)
    ensures PlugTo(d, Below(c, t, Right), ty) == t.right
    ensures Focus(S', c, WithoutSuccessor(c, t, d, ty), nil)
    ensures y in S' && y != nil && y !in CtxNodes(c) && y !in Nodes(WithoutSuccessor(c, t, d, ty)) && S'[y].red == ty.red
    ensures x == Ptr(ty.right, nil) && x in S' && S'[x].parent == d.Parent()
  {
    y, d, ty := SuccessorBelow(z, nil, c, t, S);
    x, S' := SpliceOut(y, nil, d, ty, S);
    SuccessorOut(S', c, t, d, ty, nil);
  }

  lemma {:induction false} SuccessorOut(S: Store, c: Ctx, t: Tree, d: Ctx, ty: Tree, nil: RbNode)
    requires t.Node? && ty.Node? && LeftChain(d, Below(c, t, Right)) && Focus(S, d, ty.right, nil)
    requires ty.n !in CtxNodes(d) && ty.n !in Nodes(ty.right)
    ensures Focus(S, c, WithoutSuccessor(c, t, d, ty), nil)
    ensures ty.n !in CtxNodes(c) && ty.n !in Nodes(WithoutSuccessor(c, t, d, ty))
  {
    var base := Below(c, t, Right);
    ChainFocus(S, d, base, ty.right, nil);
    ChainNodes(d, base, ty.right);
    FocusUp(S, base, PlugTo(d, base, ty.right), nil);
    assert Mk(Right, PlugTo(d, base, ty.right), t.n, t.red, t.left) == WithoutSuccessor(c, t, d, ty);
  }

  /** Seen from the place of the successor's child after `y` has taken over. */
  lemma {:induction false} TakenOver(S: Store, c: Ctx, t: Tree, d: Ctx, ty: Tree, nil: RbNode)
    requires t.Node? && t.left.Node? && ty.Node? && LeftChain(d, Below(c, t, Right)) && nil in S
    requires Focus(S, c, WithoutSuccessor(c, t, d, ty), nil) && ty.n in S && ty.n != nil
    requires ty.n !in CtxNodes(c) && ty.n !in Nodes(WithoutSuccessor(c, t, d, ty))
    requires Ptr(ty.right, nil) in S && S[Ptr(ty.right, nil)].parent == d.Parent()
    ensures t.n in S && S[t.n].parent in S && S[t.n].left in S && S[t.n].right in S
    ensures t.n != S[t.n].parent && t.n != S[t.n].left && t.n != S[t.n].right
    ensures ty.n != t.n && ty.n != S[t.n].left && ty.n != S[t.n].right && ty.n != S[t.n].parent
    ensures var base, S' := Below(c, t, Right), TakeStore(S, t.n, ty.n);
            && Focus(S', Rebase(d, base, base.(n := ty.n)), ty.right, nil)
            && S'[nil].red == S[nil].red
            && S'[Ptr(ty.right, nil)].parent == Rebase(d, base, base.(n := ty.n)).Parent()
  {
    var base, u := Below(c, t, Right), WithoutSuccessor(c, t, d, ty);
    var base' := base.(n := ty.n);
    TakeLinks(S, c, u, nil);
    TakeApart(S, c, u, ty.n, nil);
    TakeFocus(S, c, u, ty.n, nil);
    var S', d' := TakeStore(S, t.n, ty.n), Rebase(d, base, base');
    FocusUp(S', base', u.right, nil);
    RebaseChain(d, base, base', ty.right);
    ChainFocus(S', d', base', ty.right, nil);
    ChainNodes(d, base, ty.right);
    FocusLinks(S', d', ty.right, nil);
  }

  lemma {:induction false} TakeApart(S: Store, c: Ctx, u: Tree, y: RbNode, nil: RbNode)
    requires Focus(S, c, u, nil) && u.Node? && u.left.Node? && nil in S && y !in CtxNodes(c) && y !in Nodes(u) && y != nil
    ensures u.n in S && y != u.n && y != S[u.n].left && y != S[u.n].right && y != S[u.n].parent
  {
    FocusLinks(S, c, u, nil);
    assert u.left.n in Nodes(u.left) && (u.right.Node? ==> u.right.n in Nodes(u.right)) && c.Parent() in CtxNodes(c);
  }

  /** What the exchange does to the rules and to the order. */
  lemma {:induction false} TakenOverRules(c: Ctx, t: Tree, d: Ctx, ty: Tree) returns (c': Ctx)
    requires t.Node? && ty.Node? && ty.left.Leaf? && LeftChain(d, Below(c, t, Right)) && Settled(d, ty)
    requires PlugTo(d, Below(c, t, Right), ty) == t.right
    ensures c' == Rebase(d, Below(c, t, Right), Below(c, t, Right).(n := ty.n)) && Bottom(c') == Bottom(c)
    ensures if ty.red then Settled(c', ty.right) else Lacking(c', ty.right)
    ensures WithoutSuccessor(c, t, d, ty).Node?
    ensures var u := WithoutSuccessor(c, t, d, ty).(n := ty.n);
            Plug(c', ty.right) == Plug(c, u) && InOrder(u) == InOrder(t.left) + InOrder(t.right)
  {
    var base := Below(c, t, Right);
    var base' := base.(n := ty.n);
    c' := Rebase(d, base, base');
    SpliceRules(d, ty);
    var h := BlackHeight(ty.right) + (if ty.red then 0 else 1);
    RebaseRules(d, base, ty.n, h);
    BottomOfChain(d, base);
    RebaseChain(d, base, base', ty.right);
    RebasePlug(c', base', ty.right);
    ChainInOrder(d, base, ty);
  }

  lemma {:induction false} BottomOfChain(d: Ctx, base: Ctx)
    requires LeftChain(d, base)
    ensures Bottom(d) == Bottom(base)
  {
    if d != base { BottomOfChain(d.up, base); }
  }

  /** A node with two children: its successor is taken out and takes its place. */
  method DeleteInner(z: RbNode, nil: RbNode, ghost c: Ctx, ghost t: Tree, ghost S: Store)
      returns (x: RbNode, fix: bool, ghost c': Ctx, ghost t': Tree, ghost u: Tree, ghost S': Store)
    requires Mem(S) && nil in S && !S[nil].red && Focus(S, c, t, nil) && Settled(c, t) && t.Node? && t.n == z
    requires t.left.Node? && t.right.Node?
    modifies S.Keys
    ensures Mem(S') && S'.Keys == S.Keys && !S'[nil].red && Focus(S', c', t', nil) && Bottom(c') == Bottom(c)
    ensures x == Ptr(t', nil) && x in S' && S'[x].parent == c'.Parent()
    ensures if fix then Lacking(c', t') else Settled(c', t')
    ensures InOrder(u) == InOrder(t.left) + InOrder(t.right) && Plug(c', t') == Plug(c, u)
  {
    var y;
    ghost var d, ty;
    x, y, d, ty, S' := SpliceSuccessor(z, nil, c, t, S);
    fix := !y.red;
    TakenOver(S', c, t, d, ty, nil);
    S' := TakePlace(z, y, S');
    c' := TakenOverRules(c, t, d, ty);
    t', u := ty.right, WithoutSuccessor(c, t, d, ty).(n := ty.n);
  }

  /** A node with at most one child goes out itself. */
  method DeleteOuter(z: RbNode, nil: RbNode, ghost c: Ctx, ghost t: Tree, ghost S: Store)
      returns (x: RbNode, fix: bool, ghost S': Store)
    requires Mem(S) && nil in S && !S[nil].red && Focus(S, c, t, nil) && Settled(c, t) && t.Node? && t.n == z
    requires t.left.Leaf? || t.right.Leaf?
    modifies S.Keys
    ensures Mem(S') && S'.Keys == S.Keys && !S'[nil].red && Focus(S', c, OnlyKid(t), nil)
    ensures x == Ptr(OnlyKid(t), nil) && x in S' && S'[x].parent == c.Parent()
    ensures if fix then Lacking(c, OnlyKid(t)) else Settled(c, OnlyKid(t))
  {
    FocusLinks(S, c, t, nil);
    fix := !z.red;
    SpliceRules(c, t);
    x, S' := SpliceOut(z, nil, c, t, S);
  }

  /** rb_delete up to the call of the repair. */
  method TakeOut(z: RbNode, nil: RbNode, ghost c: Ctx, ghost t: Tree, ghost S: Store)
      returns (x: RbNode, fix: bool, ghost c': Ctx, ghost t': Tree, ghost u: Tree, ghost S': Store)
    requires Mem(S) && nil in S && !S[nil].red && Focus(S, c, t, nil) && Settled(c, t) && t.Node? && t.n == z
    modifies S.Keys
    ensures Mem(S') && S'.Keys == S.Keys && !S'[nil].red && Focus(S', c', t', nil) && Bottom(c') == Bottom(c)
    ensures x == Ptr(t', nil) && x in S' && S'[x].parent == c'.Parent()
    ensures if fix then Lacking(c', t') else Settled(c', t')
    ensures InOrder(u) == InOrder(t.left) + InOrder(t.right) && Plug(c', t') == Plug(c, u)
  {
    hide Focus, Lacking, Settled, Plug, Bottom, CtxNodes;
    NilKids(S, c, t, nil);
    if z.left == nil || z.right == nil {
      c', t', u := c, OnlyKid(t), OnlyKid(t);
      x, fix, S' := DeleteOuter(z, nil, c, t, S);
    } else {
      x, fix, c', t', u, S' := DeleteInner(z, nil, c, t, S);
    }
  }

  lemma {:induction false} NilKids(S: Store, c: Ctx, t: Tree, nil: RbNode)
    requires Focus(S, c, t, nil) && t.Node?
    ensures t.n in S && (S[t.n].left == nil <==> t.left.Leaf?) && (S[t.n].right == nil <==> t.right.Leaf?)
  {
    assert t.left.Node? ==> t.left.n in Nodes(t.left);
    assert t.right.Node? ==> t.right.n in Nodes(t.right);
  }

  method DeleteAt(z: RbNode, root: RbNode, nil: RbNode, ghost c: Ctx, ghost t: Tree, ghost S: Store)
      returns (ghost c': Ctx, ghost t': Tree, ghost u: Tree, ghost S': Store)
    requires Mem(S) && nil in S && !S[nil].red && Focus(S, c, t, nil) && Settled(c, t) && t.Node? && t.n == z && Bottom(c) == root
    modifies S.Keys
    ensures Mem(S') && S'.Keys == S.Keys && !S'[nil].red && Focus(S', c', t', nil) && Bottom(c') == root && Settled(c', t')
    ensures InOrder(u) == InOrder(t.left) + InOrder(t.right) && InOrder(Plug(c', t')) == InOrder(Plug(c, u))
  {
    var x, fix;
    x, fix, c', t', u, S' := TakeOut(z, nil, c, t, S);
    if fix {
      c', t', S' := DeleteFixup(x, root, nil, c', t', S');
    }
  }

  /** The whole tree after a deletion; the node taken out leaves the store. */
  lemma {:induction false} DeleteDone(S0: Store, c: Ctx, t: Tree, S1: Store, c': Ctx, t': Tree, u: Tree, root: RbNode, nil: RbNode)
      returns (T': Tree, S': Store)
    requires Focus(S0, c, t, nil) && t.Node? && Sorted(InOrder(Plug(c, t))) && root !in Nodes(Plug(c, t))
    requires Focus(S1, c', t', nil) && Settled(c', t') && Bottom(c') == root && t.n != root
    requires InOrder(u) == InOrder(t.left) + InOrder(t.right) && InOrder(Plug(c', t')) == InOrder(Plug(c, u))
    ensures InOrder(T') == Removed(InOrder(Plug(c, t)), t.n) && Sorted(InOrder(T')) && RedBlack(T') && !T'.IsRed()
    ensures Nodes(T') == Nodes(Plug(c, t)) - {t.n}
    ensures S'.Keys == S1.Keys - {t.n} && forall n | n in S' :: S'[n] == S1[n]
    ensures Focus(S', Top(root), T', nil)
  {
    T' := Plug(c', t');
    OnceInOrder(S0, c, t, nil);
    PlugRedBlack(c', t');
    FocusTop(S1, c', t', nil);
    S' := Forgotten(S1, t.n);
    assert Nodes(T') == Nodes(Plug(c, t)) - {t.n} && InOrder(T') == Removed(InOrder(Plug(c, t)), t.n) && Sorted(InOrder(T')) by {
      hide Focus, Plug, Removed, Sorted, Nodes;
      RemovedAt(c, t, u);
      NodesInOrder(T');
      NodesInOrder(Plug(c, t));
    }
    hide *;
    ForgottenFocus(S1, t.n, root, T', nil);
  }

  /** The store without one node. */
  ghost function Forgotten(S: Store, z: RbNode): Store { map n | n in S && n != z :: S[n] }

  lemma {:induction false} ForgottenFocus(S: Store, z: RbNode, root: RbNode, T: Tree, nil: RbNode)
    requires Focus(S, Top(root), T, nil) && z !in Nodes(T) && z != root
    ensures Forgotten(S, z).Keys == S.Keys - {z} && forall n | n in Forgotten(S, z) :: Forgotten(S, z)[n] == S[n]
    ensures Focus(Forgotten(S, z), Top(root), T, nil)
  {
    RepFrame(S, Forgotten(S, z), T, root, nil);
  }

  lemma {:induction false} KeysWithout<X>(n: set<X>, nil: X, root: X, z: X)
    requires z != nil && z != root
    ensures (n + {nil, root}) - {z} == (n - {z}) + {nil, root}
  {
  }

  method DeleteFrom(z: RbNode, root: RbNode, nil: RbNode, ghost T: Tree, ghost S: Store) returns (ghost T': Tree, ghost S': Store)
    requires WellFormed(root, nil, T, S) && z in Nodes(T)
    modifies S.Keys
    ensures WellFormed(root, nil, T', S') && S'.Keys == S.Keys - {z}
    ensures InOrder(T') == Removed(InOrder(T), z)
  {
    ghost var c, t := FindNode(S, Top(root), T, z, nil);
    ghost var c', t', u, S1 := DeleteAt(z, root, nil, c, t, S);
    assert root !in Nodes(T) && root != z && nil != z && Plug(c, t) == T;
    KeysWithout(Nodes(T), nil, root, z);
    T', S' := DeleteDone(S, c, t, S1, c', t', u, root, nil);
  }
}
