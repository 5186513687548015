/** The nodes next to a node in order. */
module RbNeighbours {
  import opened RbShape
  import opened RbHeap
  import opened RbDeleteSteps
  import opened RbSplice

  /** What comes before and after the root of the subtree in the whole order. */
  lemma {:induction false} AroundRoot(c: Ctx, t: Tree)
    requires t.Node?
    ensures InOrder(Plug(c, t)) == Before(c) + InOrder(t.left) + [t.n] + (InOrder(t.right) + After(c))
  {
    PlugInOrder(c, t);
    Middle(Before(c), InOrder(t.left), [t.n], InOrder(t.right), After(c));
  }

  /** The node next to `x` on the left or the right. */
  ghost predicate IsNext(order: seq<RbNode>, i: nat, y: RbNode, nil: RbNode) {
    i < |order| && y == if i + 1 < |order| then order[i + 1] else nil
  }

  ghost predicate IsPrevious(order: seq<RbNode>, i: nat, y: RbNode, nil: RbNode) {
    i < |order| && y == if i > 0 then order[i - 1] else nil
  }

  lemma {:induction false} NextOf(a: seq<RbNode>, x: RbNode, b: seq<RbNode>, y: RbNode, nil: RbNode)
    requires y == if b == [] then nil else b[0]
    ensures (a + [x] + b)[|a|] == x && IsNext(a + [x] + b, |a|, y, nil)
  {
  }

  lemma {:induction false} PreviousOf(a: seq<RbNode>, x: RbNode, b: seq<RbNode>, y: RbNode, nil: RbNode)
    requires y == if a == [] then nil else a[|a| - 1]
    ensures (a + [x] + b)[|a|] == x && IsPrevious(a + [x] + b, |a|, y, nil)
  {
  }

  lemma {:induction false} SentinelAbove(c: Ctx, S: Store, t: Tree, nil: RbNode)
    requires Focus(S, c, t, nil) && c.Frame?
    ensures c.n != Bottom(c)
  {
    BottomIn(c.up);
  }

  /** Going left does not change what comes before. */
  lemma {:induction false} ChainBefore(d: Ctx, base: Ctx)
    requires LeftChain(d, base)
    ensures Before(d) == Before(base)
  {
    if d != base { ChainBefore(d.up, base); }
  }

  /** The loop of rb_tree_predecessor below a left child. */
  method Rightmost(y0: RbNode, nil: RbNode, ghost base: Ctx, ghost u: Tree, ghost S: Store)
      returns (y: RbNode, ghost d: Ctx, ghost ty: Tree)
    requires Mem(S) && Focus(S, base, u, nil) && u.Node? && y0 == u.n
    ensures ty.Node? && ty.n == y && ty.right.Leaf? && Plug(d, ty) == Plug(base, u) && After(d) == After(base)
  {
    y, d, ty := y0, base, u;
    FocusLinks(S, d, ty, nil);
    while y.right != nil
      invariant Focus(S, d, ty, nil) && ty.Node? && ty.n == y && y in S && Plug(d, ty) == Plug(base, u)
      invariant After(d) == After(base)
      decreases ty
    {
      FocusUp(S, Below(d, ty, Right), ty.right, nil);
      y := y.right;
      d, ty := Below(d, ty, Right), ty.right;
      FocusLinks(S, d, ty, nil);
    }
  }

  /** The loop of rb_tree_successor above a node without a right child. */
  method ClimbRight(x0: RbNode, root: RbNode, nil: RbNode, ghost c: Ctx, ghost t: Tree, ghost S: Store) returns (y: RbNode)
    requires Mem(S) && Focus(S, c, t, nil) && t.Node? && t.n == x0 && Bottom(c) == root
    ensures y == if After(c) == [] then nil else After(c)[0]
  {
    FocusLinks(S, c, t, nil);
    ghost var d, u := c, t;
    var x := x0;
    y := x.parent;
    while x == y.right
      invariant Focus(S, d, u, nil) && u.Node? && u.n == x && y == d.Parent() && y in S
      invariant After(d) == After(c) && Bottom(d) == root
      decreases d
    {
      FocusUp(S, d, u, nil);
      d, u := d.up, Mk(d.side, u, d.n, d.red, d.sib);
      x := y;
      y := y.parent;
      FocusLinks(S, d, u, nil);
    }
    FocusLinks(S, d, u, nil);
    if d.Frame? { SentinelAbove(d, S, u, nil); }
    if y == root { y := nil; }
  }

  /** rb_tree_successor. */
  method Successor(x0: RbNode, root: RbNode, nil: RbNode, ghost c: Ctx, ghost t: Tree, ghost S: Store)
      returns (y: RbNode, ghost i: nat)
    requires Mem(S) && Focus(S, c, t, nil) && Settled(c, t) && t.Node? && t.n == x0 && Bottom(c) == root
    ensures i < |InOrder(Plug(c, t))| && InOrder(Plug(c, t))[i] == x0 && IsNext(InOrder(Plug(c, t)), i, y, nil)
  {
    ghost var a, b := Before(c) + InOrder(t.left), InOrder(t.right) + After(c);
    AroundRoot(c, t);
    FocusLinks(S, c, t, nil);
    NilKids(S, c, t, nil);
    if x0.right != nil {
      ghost var d, ty;
      y, d, ty := SuccessorBelow(x0, nil, c, t, S);
      ChainBefore(d, Below(c, t, Right));
      RebasePlug(d, Below(c, t, Right), ty);
      PlugInOrder(d, ty);
      NextInside(a, x0, InOrder(ty), After(d), y, nil);
    } else {
      y := ClimbRight(x0, root, nil, c, t, S);
      NextOf(a, x0, b, y, nil);
    }
    i := |a|;
  }

  /** The loop of rb_tree_predecessor above a node without a left child. */
  method ClimbLeft(x0: RbNode, root: RbNode, nil: RbNode, ghost c: Ctx, ghost t: Tree, ghost S: Store) returns (y: RbNode)
    requires Mem(S) && Focus(S, c, t, nil) && t.Node? && t.n == x0 && Bottom(c) == root
    ensures y == if Before(c) == [] then nil else Before(c)[|Before(c)| - 1]
  {
    FocusLinks(S, c, t, nil);
    ghost var d, u := c, t;
    var x := x0;
    y := x.parent;
    while x == y.left
      invariant Focus(S, d, u, nil) && u.Node? && u.n == x && y == d.Parent() && y in S
      invariant Before(d) == Before(c) && Bottom(d) == root
      decreases d
    {
      if d.Frame? { SentinelAbove(d, S, u, nil); }
      if y == root { return nil; }
      FocusUp(S, d, u, nil);
      d, u := d.up, Mk(d.side, u, d.n, d.red, d.sib);
      x := y;
      y := y.parent;
      FocusLinks(S, d, u, nil);
    }
    FocusLinks(S, d, u, nil);
  }

  /** rb_tree_predecessor. */
  method Predecessor(x0: RbNode, root: RbNode, nil: RbNode, ghost c: Ctx, ghost t: Tree, ghost S: Store)
      returns (y: RbNode, ghost i: nat)
    requires Mem(S) && Focus(S, c, t, nil) && t.Node? && t.n == x0 && Bottom(c) == root
    ensures i < |InOrder(Plug(c, t))| && InOrder(Plug(c, t))[i] == x0 && IsPrevious(InOrder(Plug(c, t)), i, y, nil)
  {
    ghost var a, b := Before(c) + InOrder(t.left), InOrder(t.right) + After(c);
    AroundRoot(c, t);
    FocusLinks(S, c, t, nil);
    NilKids(S, c, t, nil);
    y := x0.left;
    if y != nil {
      ghost var d, ty;
      FocusUp(S, Below(c, t, Left), t.left, nil);
      y, d, ty := Rightmost(y, nil, Below(c, t, Left), t.left, S);
      PlugInOrder(d, ty);
      PreviousInside(a, x0, b, Before(d), InOrder(ty), After(c), InOrder(t.right), y, nil);
    } else {
      y := ClimbLeft(x0, root, nil, c, t, S);
      PreviousOf(a, x0, b, y, nil);
    }
    i := |a|;
  }

  lemma {:induction false} NextInside(a: seq<RbNode>, x: RbNode, m: seq<RbNode>, e: seq<RbNode>, y: RbNode, nil: RbNode)
    requires |m| > 0 && m[0] == y
    ensures ((a + [x]) + m + e)[|a|] == x && IsNext((a + [x]) + m + e, |a|, y, nil)
  {
  }

  lemma {:induction false} PreviousInside(a: seq<RbNode>, x: RbNode, b: seq<RbNode>, f: seq<RbNode>, m: seq<RbNode>,
                                          e: seq<RbNode>, r: seq<RbNode>, y: RbNode, nil: RbNode)
    requires |m| > 0 && m[|m| - 1] == y && b == r + e && f + m + ([x] + r + e) == a + [x] + b
    ensures (a + [x] + b)[|a|] == x && IsPrevious(a + [x] + b, |a|, y, nil)
  {
    var all := a + [x] + b;
    assert |all| == |f| + |m| + 1 + |b|;
    assert |f| + |m| == |a|;
    assert all[|a| - 1] == (f + m + ([x] + r + e))[|f| + |m| - 1] == y;
  }
}
