/** Deletion: taking a node out, and the loop that restores the rules. */
module RbDeleteSteps {
  import opened RbShape
  import opened RbHeap

  // ---------- The repair loop ----------

  /** The node at the root of the whole tree when `hole` is at the place. */
  function RootNode(c: Ctx, hole: RbNode): RbNode {
    if c.Top? then hole else RootNode(c.up, c.n)
  }

  /** The place lacks one black node: painting a red `t` black would supply it. */
  ghost predicate Lacking(c: Ctx, t: Tree) {
    RedBlack(Paint(t, false)) && CtxRedBlack(c, BlackHeight(t) + 1)
  }

  /** The repair is complete. */
  ghost predicate Settled(c: Ctx, t: Tree) {
    RedBlack(t) && CtxRedBlack(c, BlackHeight(t)) && !(t.IsRed() && (c.IsRed() || c.Top?))
  }

  lemma {:induction false} SiblingExists(c: Ctx, t: Tree)
    requires Lacking(c, t) && c.Frame? && !t.IsRed()
    ensures RedBlack(t) && c.sib.Node? && RedBlack(c.sib) && BlackHeight(c.sib) == BlackHeight(t) + 1
    ensures RedBlack(c.sib.left) && RedBlack(c.sib.right)
    ensures c.sib.red ==> c.sib.left.Node? && c.sib.right.Node? && !c.sib.left.IsRed() && !c.sib.right.IsRed()
    ensures c.sib.red ==> !c.red
    ensures var k := BlackHeight(t) + (if c.sib.red then 1 else 0);
            BlackHeight(c.sib.left) == k && BlackHeight(c.sib.right) == k
  {
    assert t.Node? ==> Paint(t, false) == t;
  }

  /** A red sibling: after a rotation the new sibling is black. */
  function RedSiblingCtx(c: Ctx): Ctx
    requires c.Frame? && c.sib.Node?
  {
    Frame(c.side, c.n, true, c.sib.Kid(c.side), Frame(c.side, c.sib.n, false, c.sib.Kid(c.side.Flip()), c.up))
  }

  lemma {:induction false} RedSiblingKeeps(c: Ctx, t: Tree)
    requires Lacking(c, t) && c.Frame? && !t.IsRed() && c.sib.IsRed()
    ensures Lacking(RedSiblingCtx(c), t) && !RedSiblingCtx(c).sib.IsRed()
    ensures InOrder(Plug(RedSiblingCtx(c), t)) == InOrder(Plug(c, t)) && Bottom(RedSiblingCtx(c)) == Bottom(c)
  {
    SiblingExists(c, t);
    var s, g := c.side, Mk(c.side, t, c.n, c.red, c.sib);
    var g' := Mk(s, Mk(s, t, c.n, true, c.sib.Kid(s)), c.sib.n, false, c.sib.Kid(s.Flip()));
    RotatedInOrder(s, Mk(s, t, c.n, true, Paint(c.sib, false)));
    assert InOrder(Mk(s, t, c.n, true, Paint(c.sib, false))) == InOrder(g) by {
      assert InOrder(Paint(c.sib, false)) == InOrder(c.sib);
    }
    PlugInOrder(c.up, g);
    PlugInOrder(c.up, g');
    assert Plug(RedSiblingCtx(c), t) == Plug(RedSiblingCtx(c).up, Mk(s, t, c.n, true, c.sib.Kid(s)));
  }

  /** The captured root stays the root unless the rotation was at the root itself. */
  lemma {:induction false} RedSiblingRoot(c: Ctx, hole: RbNode)
    requires c.Frame? && c.sib.Node?
    ensures RootNode(c, hole) == RootNode(RedSiblingCtx(c), hole) || RootNode(c, hole) == c.n
  {
    assert RootNode(RedSiblingCtx(c), hole) == RootNode(RedSiblingCtx(c).up, c.n) == RootNode(c.up, c.sib.n);
    assert RootNode(c, hole) == RootNode(c.up, c.n);
  }

  /** Both children of the black sibling black: the lack moves to the parent. */
  function Lifted(c: Ctx, t: Tree): Tree
    requires c.Frame?
  {
    Mk(c.side, t, c.n, c.red, Paint(c.sib, true))
  }

  lemma {:induction false} LiftKeeps(c: Ctx, t: Tree)
    requires Lacking(c, t) && c.Frame? && !t.IsRed() && !c.sib.IsRed() && c.sib.Node?
    requires !c.sib.left.IsRed() && !c.sib.right.IsRed()
    ensures Lacking(c.up, Lifted(c, t)) && InOrder(Plug(c.up, Lifted(c, t))) == InOrder(Plug(c, t))
  {
    SiblingExists(c, t);
    MkRules(c.side, t, c.n, false, Paint(c.sib, true));
    assert Paint(Lifted(c, t), false) == Mk(c.side, t, c.n, false, Paint(c.sib, true));
    assert InOrder(Paint(c.sib, true)) == InOrder(c.sib);
    PlugInOrder(c.up, Lifted(c, t));
    PlugInOrder(c.up, Mk(c.side, t, c.n, c.red, c.sib));
  }

  /** The near child of the sibling red and the far one black: the near child becomes the sibling. */
  function NearRaised(c: Ctx): Ctx
    requires c.Frame? && c.sib.Node? && c.sib.Kid(c.side).Node?
  {
    var s, w := c.side, c.sib;
    var v := w.Kid(s);
    c.(sib := Mk(s, v.Kid(s), v.n, false, Mk(s, v.Kid(s.Flip()), w.n, true, w.Kid(s.Flip()))))
  }

  lemma {:induction false} NearKeeps(c: Ctx, t: Tree)
    requires Lacking(c, t) && c.Frame? && !t.IsRed() && c.sib.Node? && !c.sib.red
    requires c.sib.Kid(c.side).IsRed() && !c.sib.Kid(c.side.Flip()).IsRed()
    ensures Lacking(NearRaised(c), t) && NearRaised(c).sib.Kid(c.side.Flip()).IsRed()
    ensures InOrder(Plug(NearRaised(c), t)) == InOrder(Plug(c, t))
  {
    SiblingExists(c, t);
    var s, w := c.side, c.sib;
    var v := w.Kid(s);
    MkRules(s, v.Kid(s.Flip()), w.n, true, w.Kid(s.Flip()));
    MkRules(s, v.Kid(s), v.n, false, Mk(s, v.Kid(s.Flip()), w.n, true, w.Kid(s.Flip())));
    var w1 := Mk(s, Paint(v, false), w.n, true, w.Kid(s.Flip()));
    assert InOrder(w1) == InOrder(w) by { assert InOrder(Paint(v, false)) == InOrder(v); }
    RotatedInOrder(s.Flip(), w1);
    PlugInOrder(c.up, Mk(s, t, c.n, c.red, c.sib));
    PlugInOrder(c.up, Mk(s, t, c.n, c.red, NearRaised(c).sib));
  }

  /** The far child of the black sibling red: a rotation supplies the black node. */
  function Supplied(c: Ctx, t: Tree): Tree
    requires c.Frame? && c.sib.Node?
  {
    Mk(c.side, Mk(c.side, t, c.n, false, c.sib.Kid(c.side)), c.sib.n, c.red, Paint(c.sib.Kid(c.side.Flip()), false))
  }

  lemma {:induction false} SupplyKeeps(c: Ctx, t: Tree)
    requires Lacking(c, t) && c.Frame? && !t.IsRed() && c.sib.Node? && !c.sib.red && c.sib.Kid(c.side.Flip()).IsRed()
    ensures Settled(c.up, Supplied(c, t)) && InOrder(Plug(c.up, Supplied(c, t))) == InOrder(Plug(c, t))
  {
    SiblingExists(c, t);
    var s, w := c.side, c.sib;
    var f := w.Kid(s.Flip());
    PaintRules(f);
    MkRules(s, t, c.n, false, w.Kid(s));
    MkRules(s, Mk(s, t, c.n, false, w.Kid(s)), w.n, c.red, Paint(f, false));
    var g := Mk(s, t, c.n, c.red, w);
    RotatedInOrder(s, g);
    assert InOrder(Rotated(s, g)) == InOrder(Supplied(c, t)) by { assert InOrder(Paint(f, false)) == InOrder(f); }
    PlugInOrder(c.up, g);
    PlugInOrder(c.up, Supplied(c, t));
  }

  // ---------- The same steps on the fields ----------

  ghost function Painted(S: Store, n: RbNode, red: bool): (r: Store)
    requires n in S
    ensures r.Keys == S.Keys && forall m | m in S && m != n :: r[m] == S[m]
  {
    S[n := S[n].(red := red)]
  }

  /** Where a rotation towards `s` at `x` can be done. */
  ghost predicate CanRotate(S: Store, s: Side, x: RbNode, nil: RbNode) {
    && x in S && S[x].Child(s.Flip()) in S && S[x].parent in S
    && var b := S[S[x].Child(s.Flip())].Child(s); b == nil || b in S
  }

  lemma {:induction false} RedSiblingFocus(S: Store, c: Ctx, t: Tree, nil: RbNode)
    requires Focus(S, c, t, nil) && c.Frame? && c.sib.Node? && c.sib.Kid(c.side).Node? && nil in S
    ensures c.n in S && c.sib.n in S
    ensures var S1 := Painted(Painted(S, c.sib.n, false), c.n, true);
            && CanRotate(S1, c.side, c.n, nil)
            && Focus(RotateStore(S1, c.side, c.n, nil), RedSiblingCtx(c), t, nil)
            && RotateStore(S1, c.side, c.n, nil)[nil] == S[nil]
  {
    var s, w := c.side, Paint(c.sib, false);
    PaintSibling(S, c, t, false, nil);
    PaintParent(Painted(S, c.sib.n, false), c.(sib := w), t, true, nil);
    var S1 := Painted(Painted(S, c.sib.n, false), c.n, true);
    FocusUp(S1, Frame(s, c.n, true, w, c.up), t, nil);
    var g := Mk(s, t, c.n, true, w);
    RotateFocus(S1, s, c.up, g, nil);
    RotateNil(S1, s, c.up, g, nil);
    var S2 := RotateStore(S1, s, c.n, nil);
    FocusUp(S2, RedSiblingCtx(c).up, Mk(s, t, c.n, true, c.sib.Kid(s)), nil);
    FocusUp(S2, RedSiblingCtx(c), t, nil);
  }

  lemma {:induction false} LiftFocus(S: Store, c: Ctx, t: Tree, nil: RbNode)
    requires Focus(S, c, t, nil) && c.Frame? && c.sib.Node?
    ensures c.sib.n in S && c.sib.n != nil && Focus(Painted(S, c.sib.n, true), c.up, Lifted(c, t), nil)
  {
    PaintSibling(S, c, t, true, nil);
    FocusUp(Painted(S, c.sib.n, true), c.(sib := Paint(c.sib, true)), t, nil);
  }

  /** The same tree seen from the sibling of the place. */
  function AtSibling(c: Ctx, t: Tree): Ctx
    requires c.Frame?
  {
    Frame(c.side.Flip(), c.n, c.red, t, c.up)
  }

  lemma {:induction false} FocusSibling(S: Store, c: Ctx, t: Tree, nil: RbNode)
    requires c.Frame?
    ensures Focus(S, c, t, nil) <==> Focus(S, AtSibling(c, t), c.sib, nil)
  {
  }

  lemma {:induction false} NearFocus(S: Store, c: Ctx, t: Tree, nil: RbNode)
    requires Focus(S, c, t, nil) && c.Frame? && c.sib.Node? && c.sib.Kid(c.side).Node? && nil in S
    ensures c.sib.Kid(c.side).n in S && c.sib.n in S
    ensures var S1 := Painted(Painted(S, c.sib.Kid(c.side).n, false), c.sib.n, true);
            && CanRotate(S1, c.side.Flip(), c.sib.n, nil)
            && Focus(RotateStore(S1, c.side.Flip(), c.sib.n, nil), NearRaised(c), t, nil)
            && RotateStore(S1, c.side.Flip(), c.sib.n, nil)[nil] == S[nil]
  {
    var s, w := c.side, c.sib;
    var v, cw := w.Kid(s), AtSibling(c, t);
    FocusSibling(S, c, t, nil);
    var cv := Frame(s, w.n, w.red, w.Kid(s.Flip()), cw);
    FocusUp(S, cv, v, nil);
    PaintFocus(S, cv, v, false, nil);
    PaintParent(Painted(S, v.n, false), cv, Paint(v, false), true, nil);
    var S1 := Painted(Painted(S, v.n, false), w.n, true);
    FocusUp(S1, cv.(red := true), Paint(v, false), nil);
    var w1 := Mk(s, Paint(v, false), w.n, true, w.Kid(s.Flip()));
    RotateFocus(S1, s.Flip(), cw, w1, nil);
    RotateNil(S1, s.Flip(), cw, w1, nil);
    FocusSibling(RotateStore(S1, s.Flip(), w.n, nil), NearRaised(c), t, nil);
  }

  ghost function SupplyPaints(S: Store, w: RbNode, p: RbNode, f: RbNode): Store
    requires w in S && p in S && f in S
  {
    Painted(Painted(Painted(S, w, S[p].red), p, false), f, false)
  }

  lemma {:induction false} SupplyFocus(S: Store, c: Ctx, t: Tree, nil: RbNode)
    requires Focus(S, c, t, nil) && c.Frame? && c.sib.Node? && c.sib.Kid(c.side.Flip()).Node? && nil in S
    ensures c.sib.Kid(c.side.Flip()).n in S && c.sib.n in S && c.n in S
    ensures var S1 := SupplyPaints(S, c.sib.n, c.n, c.sib.Kid(c.side.Flip()).n);
            && CanRotate(S1, c.side, c.n, nil)
            && Focus(RotateStore(S1, c.side, c.n, nil), c.up, Supplied(c, t), nil)
            && RotateStore(S1, c.side, c.n, nil)[nil] == S[nil]
  {
    var s, w := c.side, c.sib;
    var f := w.Kid(s.Flip());
    PaintSibling(S, c, t, c.red, nil);
    var S1, w1 := Painted(S, w.n, c.red), Paint(w, c.red);
    PaintParent(S1, c.(sib := w1), t, false, nil);
    var S2, c2 := Painted(S1, c.n, false), Frame(s, c.n, false, w1, c.up);
    FocusSibling(S2, c2, t, nil);
    var cf := Frame(s.Flip(), w.n, c.red, w.Kid(s), AtSibling(c2, t));
    FocusUp(S2, cf, f, nil);
    PaintFocus(S2, cf, f, false, nil);
    var S3 := Painted(S2, f.n, false);
    FocusUp(S3, cf, Paint(f, false), nil);
    var w3 := Mk(s, w.Kid(s), w.n, c.red, Paint(f, false));
    FocusSibling(S3, c2.(sib := w3), t, nil);
    FocusUp(S3, c2.(sib := w3), t, nil);
    var g := Mk(s, t, c.n, false, w3);
    RotateFocus(S3, s, c.up, g, nil);
    RotateNil(S3, s, c.up, g, nil);
    FocusLinks(S, c, t, nil);
  }

  lemma {:induction false} SuppliedParent(S: Store, c: Ctx, t: Tree, nil: RbNode)
    requires c.Frame? && c.sib.Node? && Focus(S, c.up, Supplied(c, t), nil)
    ensures c.n in S && !S[c.n].red && c.n != nil
  {
    var s, w := c.side, c.sib;
    var low, cw := Mk(s, t, c.n, false, w.Kid(s)), Frame(s, w.n, c.red, Paint(w.Kid(s.Flip()), false), c.up);
    FocusUp(S, cw, low, nil);
    FocusLinks(S, cw, low, nil);
  }

  /** The pointers from the place to its parent and its sibling. */
  lemma {:induction false} PlaceLinks(S: Store, c: Ctx, t: Tree, nil: RbNode)
    requires Focus(S, c, t, nil) && c.Frame? && c.sib.Node? && nil in S && !S[nil].red
    ensures c.n in S && c.sib.n in S && c.n != nil && c.sib.n != nil && c.n != c.sib.n && Ptr(t, nil) in S
    ensures Ptr(t, nil) != c.n && Ptr(t, nil) != c.sib.n
    ensures (S[c.n].left == Ptr(t, nil) <==> c.side.Left?) && S[c.n].Child(c.side.Flip()) == c.sib.n
    ensures S[c.n].red == c.red && S[c.sib.n].red == c.sib.red && S[c.sib.n].parent == c.n
    ensures forall s: Side :: S[c.sib.n].Child(s) == Ptr(c.sib.Kid(s), nil)
    ensures forall s: Side :: Ptr(c.sib.Kid(s), nil) in S && S[Ptr(c.sib.Kid(s), nil)].red == c.sib.Kid(s).IsRed()
    ensures forall s: Side :: Ptr(c.sib.Kid(s), nil) != c.n && Ptr(c.sib.Kid(s), nil) != c.sib.n
    ensures forall s: Side :: c.sib.Kid(s).Node? ==> Ptr(c.sib.Kid(s), nil) != Ptr(t, nil)
    ensures t.Node? ==> S[t.n].parent == c.n
  {
    FocusLinks(S, c, t, nil);
    FocusSibling(S, c, t, nil);
    FocusLinks(S, AtSibling(c, t), c.sib, nil);
    assert Rep(S, c.sib.left, c.sib.n, nil) && Rep(S, c.sib.right, c.sib.n, nil);
  }

  lemma {:induction false} RootBlack(S: Store, c: Ctx, hole: RbNode, hole': RbNode, h: nat, nil: RbNode)
    requires RepCtx(S, c, hole, nil) && CtxRedBlack(c, h) && c.Frame? && nil !in CtxNodes(c)
    ensures RootNode(c, hole') in S && !S[RootNode(c, hole')].red && RootNode(c, hole') != nil
  {
    if c.up.Frame? {
      RootBlack(S, c.up, c.n, c.n, if c.red then h else h + 1, nil);
    }
  }

  /** The part of the loop body for a red sibling, with `s` for `_left`. */
  method RedSibling(x: RbNode, s: Side, nil: RbNode, ghost p: RbNode, ghost S: Store) returns (ghost S': Store)
    requires Mem(S) && x in S && p in S && S[x].parent == p && S[p].Child(s.Flip()) in S
    requires x != p && x != S[p].Child(s.Flip()) && p != S[p].Child(s.Flip())
    requires CanRotate(Painted(Painted(S, S[p].Child(s.Flip()), false), p, true), s, p, nil)
    modifies S.Keys
    ensures S' == RotateStore(Painted(Painted(S, S[p].Child(s.Flip()), false), p, true), s, p, nil) && Mem(S')
  {
    var w := x.parent.Child(s.Flip());
    S' := SetRed(w, false, S);
    S' := SetRed(x.parent, true, S');
    S' := Rotate(s, x.parent, nil, S');
  }

  /** The part that brings the red near child of the sibling into its place. */
  method NearChild(w: RbNode, s: Side, nil: RbNode, ghost S: Store) returns (ghost S': Store)
    requires Mem(S) && w in S && S[w].Child(s) in S && S[w].Child(s) != w
    requires CanRotate(Painted(Painted(S, S[w].Child(s), false), w, true), s.Flip(), w, nil)
    modifies S.Keys
    ensures S' == RotateStore(Painted(Painted(S, S[w].Child(s), false), w, true), s.Flip(), w, nil) && Mem(S')
  {
    S' := SetRed(w.Child(s), false, S);
    S' := SetRed(w, true, S');
    S' := Rotate(s.Flip(), w, nil, S');
  }

  /** The last part, for a red far child of the sibling. */
  method FarChild(x: RbNode, w: RbNode, s: Side, nil: RbNode, ghost p: RbNode, ghost f: RbNode, ghost S: Store) returns (ghost S': Store)
    requires Mem(S) && x in S && p in S && w in S && f in S && S[x].parent == p && S[w].Child(s.Flip()) == f
    requires x != p && x != w && x != f && w != f && w != p && f != p
    requires CanRotate(SupplyPaints(S, w, p, f), s, p, nil)
    modifies S.Keys
    ensures S' == RotateStore(SupplyPaints(S, w, p, f), s, p, nil) && Mem(S')
  {
    S' := SetRed(w, x.parent.red, S);
    S' := SetRed(x.parent, false, S');
    S' := SetRed(w.Child(s.Flip()), false, S');
    S' := Rotate(s, x.parent, nil, S');
  }

  /** The loop body for a black sibling: the captured root `r0` is the root of the whole tree, or
      the parent after a rotation has put a new root above it. */
  method DeleteBlack(x0: RbNode, w0: RbNode, r0: RbNode, s: Side, nil: RbNode, ghost c: Ctx, ghost t: Tree, ghost S: Store)
      returns (x: RbNode, ghost c': Ctx, ghost t': Tree, ghost done: bool, ghost S': Store)
    requires Mem(S) && nil in S && !S[nil].red && Lacking(c, t) && c.Frame? && !t.IsRed() && c.sib.Node? && !c.sib.red
    requires Focus(S, c, t, nil) && x0 == Ptr(t, nil) && S[x0].parent == c.n && s == c.side && w0 == c.sib.n
    requires r0 == RootNode(c, x0) || (r0 == c.n && c.red)
    modifies S.Keys
    ensures Mem(S') && S'.Keys == S.Keys && !S'[nil].red
    ensures Focus(S', c', t', nil) && InOrder(Plug(c', t')) == InOrder(Plug(c, t)) && Bottom(c') == Bottom(c)
    ensures done ==> Settled(c', t') && x == r0 && r0 in S' && !S'[r0].red && r0 != nil
    ensures !done ==> Lacking(c', t') && t'.Node? && x == t'.n && c' == c.up && t'.IsRed() == c.red
    ensures !done ==> r0 == RootNode(c', x) || (x == r0 && t'.IsRed())
  {
    PlaceLinks(S, c, t, nil);
    var w := w0;
    assert w.left == Ptr(c.sib.Kid(Left), nil) && w.right == Ptr(c.sib.Kid(Right), nil);
    if !w.left.red && !w.right.red {
      LiftKeeps(c, t);
      LiftFocus(S, c, t, nil);
      S' := SetRed(w, true, S);
      x := x0.parent;
      c', t', done := c.up, Lifted(c, t), false;
    } else {
      c', t', S', done := c, t, S, true;
      if !w.Child(s.Flip()).red {
        NearKeeps(c, t);
        NearFocus(S, c, t, nil);
        c' := NearRaised(c);
        S' := NearChild(w, s, nil, S);
        PlaceLinks(S', c', t, nil);
        w := x0.parent.Child(s.Flip());
      }
      S' := Supply(x0, w, r0, s, nil, c', t, S');
      SupplyKeeps(c', t);
      t' := Supplied(c', t);
      c' := c'.up;
      x := r0;
    }
  }

  method Supply(x: RbNode, w: RbNode, r0: RbNode, s: Side, nil: RbNode, ghost c: Ctx, ghost t: Tree, ghost S: Store) returns (ghost S': Store)
    requires Mem(S) && nil in S && !S[nil].red && Lacking(c, t) && c.Frame? && !t.IsRed() && c.sib.Node? && !c.sib.red
    requires Focus(S, c, t, nil) && x == Ptr(t, nil) && S[x].parent == c.n && s == c.side && w == c.sib.n && c.sib.Kid(s.Flip()).IsRed()
    requires r0 == RootNode(c, x) || r0 == c.n
    modifies S.Keys
    ensures Mem(S') && S'.Keys == S.Keys && !S'[nil].red
    ensures Focus(S', c.up, Supplied(c, t), nil) && r0 in S' && !S'[r0].red && r0 != nil
  {
    PlaceLinks(S, c, t, nil);
    SupplyFocus(S, c, t, nil);
    S' := FarChild(x, w, s, nil, c.n, c.sib.Kid(s.Flip()).n, S);
    SuppliedParent(S', c, t, nil);
    if c.up.Frame? {
      RootBlack(S', c.up, Ptr(Supplied(c, t), nil), c.n, if c.red then BlackHeight(t) + 1 else BlackHeight(t) + 2, nil);
    }
  }

  method RedSiblingTurn(x: RbNode, s: Side, nil: RbNode, ghost c: Ctx, ghost t: Tree, ghost S: Store)
      returns (w: RbNode, ghost S': Store)
    requires Mem(S) && nil in S && !S[nil].red && Lacking(c, t) && c.Frame? && !t.IsRed() && c.sib.IsRed()
    requires Focus(S, c, t, nil) && x == Ptr(t, nil) && x in S && S[x].parent == c.n && s == c.side
    modifies S.Keys
    ensures Mem(S') && S'.Keys == S.Keys && !S'[nil].red && Focus(S', RedSiblingCtx(c), t, nil)
    ensures S'[x].parent == c.n && RedSiblingCtx(c).sib.Node? && w == RedSiblingCtx(c).sib.n
  {
    SiblingExists(c, t);
    PlaceLinks(S, c, t, nil);
    RedSiblingFocus(S, c, t, nil);
    S' := RedSibling(x, s, nil, c.n, S);
    PlaceLinks(S', RedSiblingCtx(c), t, nil);
    w := x.parent.Child(s.Flip());
  }

  /** The first half of the loop body: afterwards the sibling is black. */
  method BlackSibling(x: RbNode, nil: RbNode, ghost c: Ctx, ghost t: Tree, ghost S: Store)
      returns (s: Side, w: RbNode, ghost c': Ctx, ghost S': Store)
    requires Mem(S) && nil in S && !S[nil].red && Lacking(c, t) && c.Frame? && !t.IsRed()
    requires Focus(S, c, t, nil) && x == Ptr(t, nil) && x in S && S[x].parent == c.n
    modifies S.Keys
    ensures Mem(S') && S'.Keys == S.Keys && !S'[nil].red && Lacking(c', t) && c'.Frame? && Focus(S', c', t, nil)
    ensures s == c'.side && c'.sib.Node? && !c'.sib.red && w == c'.sib.n && S'[x].parent == c'.n
    ensures InOrder(Plug(c', t)) == InOrder(Plug(c, t)) && Bottom(c') == Bottom(c)
    ensures RootNode(c, x) == RootNode(c', x) || (RootNode(c, x) == c'.n && c'.red)
    ensures c'.red || Depth(c'.up) < Depth(c)
  {
    SiblingExists(c, t);
    PlaceLinks(S, c, t, nil);
    s := if x == x.parent.left then Left else Right;
    w := x.parent.Child(s.Flip());
    c', S' := c, S;
    if w.red {
      w, S' := RedSiblingTurn(x, s, nil, c, t, S);
      RedSiblingKeeps(c, t);
      RedSiblingRoot(c, x);
      c' := RedSiblingCtx(c);
    }
  }

  /** One turn of the loop of rb_delete_fixup. */
  method DeleteTurn(x0: RbNode, r0: RbNode, nil: RbNode, ghost c: Ctx, ghost t: Tree, ghost S: Store)
      returns (x: RbNode, ghost c': Ctx, ghost t': Tree, ghost done: bool, ghost S': Store)
    requires Mem(S) && nil in S && !S[nil].red && Lacking(c, t) && c.Frame? && !t.IsRed()
    requires Focus(S, c, t, nil) && x0 == Ptr(t, nil) && x0 in S && S[x0].parent == c.n && r0 == RootNode(c, x0)
    modifies S.Keys
    ensures Mem(S') && S'.Keys == S.Keys && !S'[nil].red
    ensures Focus(S', c', t', nil) && InOrder(Plug(c', t')) == InOrder(Plug(c, t)) && Bottom(c') == Bottom(c)
    ensures done ==> Settled(c', t') && x == r0 && r0 in S' && !S'[r0].red && r0 != nil
    ensures !done ==> Lacking(c', t') && t'.Node? && x == t'.n && (t'.IsRed() || Depth(c') < Depth(c))
    ensures !done ==> r0 == RootNode(c', x) || (x == r0 && t'.IsRed())
  {
    var s, w;
    s, w, c', S' := BlackSibling(x0, nil, c, t, S);
    x, c', t', done, S' := DeleteBlack(x0, w, r0, s, nil, c', t, S');
  }

  /** rb_delete_fixup: `r0` is the root read before any rotation. */
  method DeleteFixup(node: RbNode, root: RbNode, nil: RbNode, ghost c0: Ctx, ghost t0: Tree, ghost S0: Store)
      returns (ghost c: Ctx, ghost t: Tree, ghost S: Store)
    requires Mem(S0) && nil in S0 && !S0[nil].red && Lacking(c0, t0) && root == Bottom(c0)
    requires Focus(S0, c0, t0, nil) && node == Ptr(t0, nil) && node in S0 && S0[node].parent == c0.Parent()
    modifies S0.Keys
    ensures Mem(S) && S.Keys == S0.Keys && !S[nil].red && Focus(S, c, t, nil)
    ensures InOrder(Plug(c, t)) == InOrder(Plug(c0, t0)) && Bottom(c) == root
    ensures Settled(c, t)
  {
    var x := node;
    FocusTop(S0, c0, t0, nil);
    FocusLinks(S0, Top(root), Plug(c0, t0), nil);
    RootOfPlug(c0, t0, nil);
    var r0 := root.left;
    ghost var done := false;
    c, t, S := c0, t0, S0;
    while x != r0 && !x.red
      invariant Mem(S) && S.Keys == S0.Keys && !S[nil].red && Focus(S, c, t, nil) && x in S
      invariant InOrder(Plug(c, t)) == InOrder(Plug(c0, t0)) && Bottom(c) == root
      invariant done ==> Settled(c, t) && x == r0 && !S[r0].red
      invariant !done ==> Lacking(c, t) && x == Ptr(t, nil) && S[x].parent == c.Parent() && S[x].red == t.IsRed()
      invariant !done ==> r0 == RootNode(c, x) || (x == r0 && t.IsRed())
      decreases if done || t.IsRed() then 0 else 1 + Depth(c)
    {
      x, c, t, done, S := DeleteTurn(x, r0, nil, c, t, S);
      FocusLinks(S, c, t, nil);
    }
    if !done {
      RootNodeTop(S, c, t, nil);
    }
    t, S := PaintBlack(x, nil, done, c, t, S);
  }

  /** The last write: it supplies the missing black node, or meets a node that is black already. */
  method PaintBlack(x: RbNode, nil: RbNode, ghost done: bool, ghost c: Ctx, ghost t: Tree, ghost S: Store)
      returns (ghost t': Tree, ghost S': Store)
    requires Mem(S) && nil in S && !S[nil].red && x in S && Focus(S, c, t, nil)
    requires if done then Settled(c, t) && !S[x].red else Lacking(c, t) && x == Ptr(t, nil) && (t.IsRed() || c.Top?)
    modifies S.Keys
    ensures Mem(S') && S'.Keys == S.Keys && !S'[nil].red && Focus(S', c, t', nil) && Settled(c, t')
    ensures InOrder(Plug(c, t')) == InOrder(Plug(c, t))
  {
    t' := t;
    if !done && t.Node? {
      t' := Paint(t, false);
      PaintFocus(S, c, t, false, nil);
      PlugInOrder(c, t);
      PlugInOrder(c, t');
    } else {
      assert S[x := S[x].(red := false)] == S;
    }
    S' := SetRed(x, false, S);
  }

  lemma {:induction false} RootOfPlug(c: Ctx, t: Tree, nil: RbNode)
    ensures RootNode(c, Ptr(t, nil)) == Ptr(Plug(c, t), nil)
  {
    if c.Frame? { RootOfPlug(c.up, Mk(c.side, t, c.n, c.red, c.sib), nil); }
  }

  /** Only at the top is the node at the place the root of the whole tree. */
  lemma {:induction false} RootNodeTop(S: Store, c: Ctx, t: Tree, nil: RbNode)
    requires Focus(S, c, t, nil)
    ensures RootNode(c, Ptr(t, nil)) == Ptr(t, nil) ==> c.Top?
  {
    if c.Frame? { RootNodeIn(c, Ptr(t, nil)); }
  }

  lemma {:induction false} RootNodeIn(c: Ctx, hole: RbNode)
    requires c.Frame?
    ensures RootNode(c, hole) in CtxNodes(c)
  {
    if c.up.Frame? { RootNodeIn(c.up, c.n); }
  }
}
