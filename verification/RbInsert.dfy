/** What one turn of the insertion loop does to the shape, and that it keeps the rules. */
module RbInsertSteps {
  import opened RbShape
  import opened RbHeap

  /** Around a red `t` the only fault can be a red parent. */
  ghost predicate Unsettled(c: Ctx, t: Tree) {
    t.IsRed() && RedBlack(t) && CtxRedBlack(c, BlackHeight(t))
  }

  /** A red parent and a red uncle: both and the grandparent change colour. */
  function Recolored(c: Ctx, t: Tree): Tree
    requires c.Frame? && c.up.Frame?
  {
    Mk(c.up.side, Mk(c.side, t, c.n, false, c.sib), c.up.n, true, Paint(c.up.sib, false))
  }

  /** What the pointers from `t` to its parent, grandparent and uncle are. */
  lemma {:induction false} GrandLinks(S: Store, c: Ctx, t: Tree, nil: RbNode)
    requires Focus(S, c, t, nil) && t.Node? && c.Frame? && c.up.Frame?
    ensures t.n in S && c.n in S && c.up.n in S && c.n != nil && c.up.n != nil && c.n != c.up.n
    ensures S[t.n].parent == c.n && S[c.n].parent == c.up.n
    ensures S[c.up.n].left == c.n <==> c.up.side.Left?
    ensures S[c.up.n].Child(c.up.side.Flip()) == Ptr(c.up.sib, nil)
    ensures c.up.sib.Node? ==> c.up.sib.n in S && S[c.up.sib.n].red == c.up.sib.red && c.up.sib.n != nil
    ensures c.up.sib.Node? ==> c.up.sib.n != c.n && c.up.sib.n != c.up.n
  {
    FocusUp(S, c, t, nil);
    FocusLinks(S, c, t, nil);
    FocusLinks(S, c.up, Mk(c.side, t, c.n, c.red, c.sib), nil);
  }

  lemma {:induction false} RecolorKeeps(c: Ctx, t: Tree)
    requires Unsettled(c, t) && c.IsRed() && c.up.Frame? && c.up.sib.IsRed()
    ensures Unsettled(c.up.up, Recolored(c, t))
  {
    assert CtxRedBlack(c.up, BlackHeight(t));
    MkRules(c.side, t, c.n, false, c.sib);
    PaintRules(c.up.sib);
    MkRules(c.up.side, Mk(c.side, t, c.n, false, c.sib), c.up.n, true, Paint(c.up.sib, false));
  }

  ghost function RecolorStore(S: Store, p: RbNode, u: RbNode, g: RbNode): (r: Store)
    requires p in S && u in S && g in S
    ensures r.Keys == S.Keys && forall n | n in S && n != p && n != u && n != g :: r[n] == S[n]
  {
    var S1 := S[p := S[p].(red := false)];
    var S2 := S1[u := S1[u].(red := false)];
    S2[g := S2[g].(red := true)]
  }

  lemma {:induction false} RecolorFocus(S: Store, c: Ctx, t: Tree, nil: RbNode)
    requires Focus(S, c, t, nil) && c.Frame? && c.up.Frame? && c.up.sib.Node?
    ensures c.n in S && c.up.sib.n in S && c.up.n in S
    ensures Focus(RecolorStore(S, c.n, c.up.sib.n, c.up.n), c.up.up, Recolored(c, t), nil)
  {
    PaintParent(S, c, t, false, nil);
    var S1, pt := S[c.n := S[c.n].(red := false)], Mk(c.side, t, c.n, false, c.sib);
    FocusUp(S1, c.(red := false), t, nil);
    PaintSibling(S1, c.up, pt, false, nil);
    var S2, cu := S1[c.up.sib.n := S1[c.up.sib.n].(red := false)], c.up.(sib := Paint(c.up.sib, false));
    PaintParent(S2, cu, pt, true, nil);
    FocusUp(S2[c.up.n := S2[c.up.n].(red := true)], cu.(red := true), pt, nil);
  }

  /** A black uncle and `t` on the outer side: the parent becomes the black root of the part. */
  function Raised(c: Ctx, t: Tree): Tree
    requires c.Frame? && c.up.Frame? && c.side == c.up.side
  {
    Mk(c.side, t, c.n, false, Mk(c.side, c.sib, c.up.n, true, c.up.sib))
  }

  lemma {:induction false} RaiseKeeps(c: Ctx, t: Tree)
    requires Unsettled(c, t) && c.IsRed() && c.up.Frame? && !c.up.sib.IsRed() && c.side == c.up.side
    ensures RedBlack(Raised(c, t)) && !Raised(c, t).IsRed() && CtxRedBlack(c.up.up, BlackHeight(Raised(c, t)))
  {
    assert CtxRedBlack(c.up, BlackHeight(t));
    MkRules(c.side, c.sib, c.up.n, true, c.up.sib);
    MkRules(c.side, t, c.n, false, Mk(c.side, c.sib, c.up.n, true, c.up.sib));
  }

  ghost function TwoPaints(S: Store, p: RbNode, g: RbNode): (r: Store)
    requires p in S && g in S
    ensures r.Keys == S.Keys && forall n | n in S && n != p && n != g :: r[n] == S[n]
  {
    var S1 := S[p := S[p].(red := false)];
    S1[g := S1[g].(red := true)]
  }

  lemma {:induction false} RaiseFocus(S: Store, c: Ctx, t: Tree, nil: RbNode)
    requires Focus(S, c, t, nil) && c.Frame? && c.up.Frame? && c.side == c.up.side
    ensures c.n in S && c.up.n in S && c.n != c.up.n && c.n != nil && c.up.n != nil
    ensures var S2, r := TwoPaints(S, c.n, c.up.n), c.side.Flip();
            && S2[c.up.n].Child(r.Flip()) in S2 && S2[c.up.n].parent in S2
            && (var b := S2[S2[c.up.n].Child(r.Flip())].Child(r); b == nil || b in S2)
            && Focus(RotateStore(S2, r, c.up.n, nil), c.up.up, Raised(c, t), nil)
            && (nil in S ==> RotateStore(S2, r, c.up.n, nil)[nil] == S[nil])
  {
    PaintParent(S, c, t, false, nil);
    var S1, pt := S[c.n := S[c.n].(red := false)], Mk(c.side, t, c.n, false, c.sib);
    FocusUp(S1, c.(red := false), t, nil);
    PaintParent(S1, c.up, pt, true, nil);
    var S2 := TwoPaints(S, c.n, c.up.n);
    FocusUp(S2, c.up.(red := true), pt, nil);
    var gt := Mk(c.side, pt, c.up.n, true, c.up.sib);
    RotateFocus(S2, c.side.Flip(), c.up.up, gt, nil);
    if nil in S { RotateNil(S2, c.side.Flip(), c.up.up, gt, nil); }
  }

  /** `t` on the inner side: a rotation at the parent brings it to the outer side. */
  function OuterCtx(c: Ctx, t: Tree): Ctx
    requires c.Frame? && t.Node?
  {
    Frame(c.side.Flip(), t.n, t.red, t.Kid(c.side), c.up)
  }

  function OuterTree(c: Ctx, t: Tree): Tree
    requires c.Frame? && t.Node?
  {
    Mk(c.side.Flip(), c.sib, c.n, c.red, t.Kid(c.side.Flip()))
  }

  lemma {:induction false} OuterKeeps(c: Ctx, t: Tree)
    requires Unsettled(c, t) && c.IsRed() && c.up.Frame?
    ensures Unsettled(OuterCtx(c, t), OuterTree(c, t)) && OuterCtx(c, t).IsRed()
    ensures InOrder(Plug(OuterCtx(c, t), OuterTree(c, t))) == InOrder(Plug(c, t))
  {
    MkRules(c.side.Flip(), c.sib, c.n, c.red, t.Kid(c.side.Flip()));
    var pt := Mk(c.side, t, c.n, c.red, c.sib);
    RotatedInOrder(c.side.Flip(), pt);
    PlugInOrder(c.up, pt);
    PlugInOrder(c.up, Rotated(c.side.Flip(), pt));
  }

  lemma {:induction false} OuterFocus(S: Store, c: Ctx, t: Tree, nil: RbNode)
    requires Focus(S, c, t, nil) && t.Node? && c.Frame?
    ensures c.n in S && S[c.n].Child(c.side) in S && S[c.n].parent in S
    ensures var b := S[S[c.n].Child(c.side)].Child(c.side.Flip()); b == nil || b in S
    ensures Focus(RotateStore(S, c.side.Flip(), c.n, nil), OuterCtx(c, t), OuterTree(c, t), nil)
  {
    FocusUp(S, c, t, nil);
    var pt := Mk(c.side, t, c.n, c.red, c.sib);
    RotateFocus(S, c.side.Flip(), c.up, pt, nil);
    FocusUp(RotateStore(S, c.side.Flip(), c.n, nil), OuterCtx(c, t), OuterTree(c, t), nil);
  }

  lemma {:induction false} RecolorInOrder(c: Ctx, t: Tree)
    requires c.Frame? && c.up.Frame?
    ensures InOrder(Plug(c.up.up, Recolored(c, t))) == InOrder(Plug(c, t))
  {
    var pt := Mk(c.side, t, c.n, c.red, c.sib);
    var gt := Mk(c.up.side, pt, c.up.n, c.up.red, c.up.sib);
    assert InOrder(Paint(c.up.sib, false)) == InOrder(c.up.sib);
    assert InOrder(Mk(c.side, t, c.n, false, c.sib)) == InOrder(pt);
    assert InOrder(Recolored(c, t)) == InOrder(gt);
    PlugInOrder(c.up.up, Recolored(c, t));
    PlugInOrder(c.up.up, gt);
    assert Plug(c, t) == Plug(c.up, pt) == Plug(c.up.up, gt);
  }

  lemma {:induction false} RaiseInOrder(c: Ctx, t: Tree)
    requires c.Frame? && c.up.Frame? && c.side == c.up.side
    ensures InOrder(Plug(c.up.up, Raised(c, t))) == InOrder(Plug(c, t))
  {
    var pt := Mk(c.side, t, c.n, false, c.sib);
    var gt := Mk(c.up.side, pt, c.up.n, true, c.up.sib);
    RotatedInOrder(c.side.Flip(), gt);
    var pt0 := Mk(c.side, t, c.n, c.red, c.sib);
    var gt0 := Mk(c.up.side, pt0, c.up.n, c.up.red, c.up.sib);
    assert InOrder(pt) == InOrder(pt0) && InOrder(gt) == InOrder(gt0);
    PlugInOrder(c.up.up, Raised(c, t));
    PlugInOrder(c.up.up, gt0);
    assert Plug(c, t) == Plug(c.up, pt0) == Plug(c.up.up, gt0);
  }

  /** `z` put behind all nodes with keys up to its own. */
  ghost function Added(s: seq<RbNode>, z: RbNode): seq<RbNode> {
    if s == [] || s[0].key > z.key then [z] + s else [s[0]] + Added(s[1..], z)
  }

  lemma {:induction false} AddedBetween(a: seq<RbNode>, z: RbNode, b: seq<RbNode>)
    requires (forall n | n in a :: n.key <= z.key) && forall n | n in b :: z.key < n.key
    ensures Added(a + b, z) == a + [z] + b
  {
    if a == [] {
      assert a + b == b && (b != [] ==> b[0] in b);
    } else {
      AddedBehind(a[0], a[1..] + b, z);
      AddedBetween(a[1..], z, b);
      assert a == [a[0]] + a[1..];
      assert a + b == [a[0]] + (a[1..] + b) && a + [z] + b == [a[0]] + (a[1..] + [z] + b);
    }
  }

  lemma {:induction false} AddedBehind(first: RbNode, rest: seq<RbNode>, z: RbNode)
    requires first.key <= z.key
    ensures Added([first] + rest, z) == [first] + Added(rest, z)
  {
    assert ([first] + rest)[1..] == rest;
  }

  lemma {:induction false} SortedThree(a: seq<RbNode>, z: RbNode, b: seq<RbNode>)
    requires Sorted(a + b) && (forall n | n in a :: n.key <= z.key) && forall n | n in b :: z.key <= n.key
    ensures Sorted(a + ([z] + b))
  {
    SortedParts(a, b);
    SortedParts([z], b);
    assert forall n | n in [z] + b :: n == z || n in b;
    SortedParts(a, [z] + b);
  }

  /** The contents after an insertion. */
  lemma {:induction false} InsertDone(T: Tree, c: Ctx, z: RbNode, T': Tree)
    requires Between(c, z.key) && T == Plug(c, Leaf) && InOrder(T') == InOrder(Plug(c, Node(Leaf, z, true, Leaf)))
    requires Sorted(InOrder(T))
    ensures Sorted(InOrder(T')) && InOrder(T') == Added(InOrder(T), z) && Nodes(T') == Nodes(T) + {z}
  {
    var a, b := Before(c), After(c);
    PlugInOrder(c, Leaf);
    PlugInOrder(c, Node(Leaf, z, true, Leaf));
    assert InOrder(Node(Leaf, z, true, Leaf)) == [z];
    assert InOrder(T) == a + b && InOrder(T') == a + [z] + b == a + ([z] + b);
    AddedBetween(a, z, b);
    SortedThree(a, z, b);
    ElemsConcat(a, b);
    ElemsConcat(a, [z]);
    ElemsConcat(a + [z], b);
    NodesInOrder(T);
    NodesInOrder(T');
  }

  /** After the loop the root of the whole tree is painted black. */
  lemma {:induction false} BlackenRoot(c: Ctx, t: Tree)
    requires Unsettled(c, t) && !c.IsRed()
    ensures RedBlack(Paint(Plug(c, t), false)) && InOrder(Paint(Plug(c, t), false)) == InOrder(Plug(c, t))
    ensures Nodes(Paint(Plug(c, t), false)) == Nodes(Plug(c, t)) && Plug(c, t).Node?
  {
    if c.Top? { PaintRules(t); } else { PlugRedBlack(c, t); PlugNode(c, t); }
  }

  lemma {:induction false} PlugNode(c: Ctx, t: Tree)
    requires t.Node?
    ensures Plug(c, t).Node?
  {
    if c.Frame? { PlugNode(c.up, Mk(c.side, t, c.n, c.red, c.sib)); }
  }

  /** The three writes for a red uncle `y`. */
  method RecolorMem(x: RbNode, y: RbNode, ghost S: Store) returns (ghost S': Store)
    requires Mem(S) && x in S && y in S && S[x].parent in S && S[S[x].parent].parent in S && x != S[x].parent
    requires S[x].parent != y
    modifies S.Keys
    ensures S' == RecolorStore(S, S[x].parent, y, S[S[x].parent].parent) && Mem(S')
  {
    S' := SetRed(x.parent, false, S);
    S' := SetRed(y, false, S');
    S' := SetRed(x.parent.parent, true, S');
  }

  /** The two writes and the rotation that let the parent of `x` rise. */
  method RaiseMem(x: RbNode, s: Side, nil: RbNode, ghost S: Store) returns (ghost S': Store)
    requires Mem(S) && x in S && S[x].parent in S && S[S[x].parent].parent in S && x != S[x].parent
    requires var S2, g := TwoPaints(S, S[x].parent, S[S[x].parent].parent), S[S[x].parent].parent;
             && S2[g].Child(s) in S2 && S2[g].parent in S2
             && var b := S2[S2[g].Child(s)].Child(s.Flip()); b == nil || b in S2
    modifies S.Keys
    ensures S' == RotateStore(TwoPaints(S, S[x].parent, S[S[x].parent].parent), s.Flip(), S[S[x].parent].parent, nil) && Mem(S')
  {
    var p := x.parent;
    S' := SetRed(p, false, S);
    var g := p.parent;
    S' := SetRed(g, true, S');
    hide RotateStore;
    S' := Rotate(s.Flip(), g, nil, S');
  }

  lemma {:induction false} RaiseStep(S: Store, c: Ctx, t: Tree, nil: RbNode) returns (c': Ctx)
    requires Focus(S, c, t, nil) && Unsettled(c, t) && c.IsRed() && c.up.Frame? && !c.up.sib.IsRed() && c.side == c.up.side
    ensures t.n in S && S[t.n].parent == c.n && c.n in S && S[c.n].parent == c.up.n && c.up.n in S && t.n != c.n
    ensures var S2, g := TwoPaints(S, c.n, c.up.n), c.up.n;
             && S2[g].Child(c.side) in S2 && S2[g].parent in S2
             && (var b := S2[S2[g].Child(c.side)].Child(c.side.Flip()); b == nil || b in S2)
             && Focus(RotateStore(S2, c.side.Flip(), g, nil), c', t, nil)
             && (nil in S ==> RotateStore(S2, c.side.Flip(), g, nil)[nil] == S[nil])
    ensures Unsettled(c', t) && c'.Frame? && !c'.red && InOrder(Plug(c', t)) == InOrder(Plug(c, t)) && Bottom(c') == Bottom(c)
  {
    GrandLinks(S, c, t, nil);
    RaiseFocus(S, c, t, nil);
    RaiseInOrder(c, t);
    RaiseKeeps(c, t);
    c' := Frame(c.side, c.n, false, Mk(c.side, c.sib, c.up.n, true, c.up.sib), c.up.up);
    FocusUp(RotateStore(TwoPaints(S, c.n, c.up.n), c.side.Flip(), c.up.n, nil), c', t, nil);
    MkRules(c.side, c.sib, c.up.n, true, c.up.sib);
  }

  /** A node on the inner side is rotated to the outer one; its old parent takes its part. */
  method TurnOut(x0: RbNode, s: Side, nil: RbNode, ghost c: Ctx, ghost t: Tree, ghost S: Store)
      returns (x: RbNode, ghost c': Ctx, ghost t': Tree, ghost S': Store)
    requires Mem(S) && nil in S && Unsettled(c, t) && Focus(S, c, t, nil) && x0 == t.n && !S[nil].red
    requires c.IsRed() && c.up.Frame? && !c.up.sib.IsRed() && s == c.up.side
    modifies S.Keys
    ensures Mem(S') && Unsettled(c', t') && Focus(S', c', t', nil) && x == t'.n
    ensures c'.IsRed() && c'.up.Frame? && !c'.up.sib.IsRed() && c'.side == c'.up.side == s
    ensures InOrder(Plug(c', t')) == InOrder(Plug(c, t)) && Bottom(c') == Bottom(c)
    ensures S'.Keys == S.Keys && !S'[nil].red
  {
    x, c', t', S' := x0, c, t, S;
    FocusLinks(S, c, t, nil);
    hide Unsettled, InOrder, Plug, Bottom, RotateStore;
    if x == x.parent.Child(s.Flip()) {
      x := x.parent;
      FocusUp(S, c, t, nil);
      RotateNil(S, s, c.up, Mk(c.side, t, c.n, c.red, c.sib), nil);
      OuterKeeps(c, t);
      OuterFocus(S, c, t, nil);
      c', t' := OuterCtx(c, t), OuterTree(c, t);
      S' := Rotate(s, x, nil, S);
    }
  }

  /** The branch for a black uncle, with `s` for `_left`. */
  method RaiseTurn(x0: RbNode, s: Side, nil: RbNode, ghost c: Ctx, ghost t: Tree, ghost S: Store)
      returns (x: RbNode, ghost c': Ctx, ghost t': Tree, ghost S': Store)
    requires Mem(S) && nil in S && Unsettled(c, t) && Focus(S, c, t, nil) && x0 == t.n && !S[nil].red
    requires c.IsRed() && c.up.Frame? && !c.up.sib.IsRed() && s == c.up.side
    modifies S.Keys
    ensures Mem(S') && Unsettled(c', t') && Focus(S', c', t', nil) && x == t'.n && !c'.IsRed()
    ensures InOrder(Plug(c', t')) == InOrder(Plug(c, t)) && Bottom(c') == Bottom(c)
    ensures S'.Keys == S.Keys && !S'[nil].red
  {
    x, c', t', S' := TurnOut(x0, s, nil, c, t, S);
    hide Unsettled, Focus, InOrder, Plug, Bottom, Mem;
    c' := RaiseStep(S', c', t', nil);
    S' := RaiseMem(x, s, nil, S');
  }

  /** One turn of the loop of rb_insert. */
  method InsertTurn(x0: RbNode, nil: RbNode, ghost c: Ctx, ghost t: Tree, ghost S: Store)
      returns (x: RbNode, ghost c': Ctx, ghost t': Tree, ghost S': Store)
    requires Mem(S) && nil in S && Unsettled(c, t) && Focus(S, c, t, nil) && x0 == t.n && c.IsRed() && !S[nil].red
    modifies S.Keys
    ensures Mem(S') && Unsettled(c', t') && Focus(S', c', t', nil) && x == t'.n
    ensures InOrder(Plug(c', t')) == InOrder(Plug(c, t)) && Bottom(c') == Bottom(c)
    ensures S'.Keys == S.Keys && !S'[nil].red
    ensures c'.IsRed() ==> Depth(c') < Depth(c)
  {
    x := x0;
    GrandLinks(S, c, t, nil);
    var s := if x.parent == x.parent.parent.left then Left else Right;
    var y := x.parent.parent.Child(s.Flip());
    if y.red {
      RecolorKeeps(c, t);
      RecolorInOrder(c, t);
      RecolorFocus(S, c, t, nil);
      c', t' := c.up.up, Recolored(c, t);
      S' := RecolorMem(x, y, S);
      x := x.parent.parent;
    } else {
      x, c', t', S' := RaiseTurn(x, s, nil, c, t, S);
    }
  }

  /** The loop of rb_insert. */
  method InsertLoop(z: RbNode, nil: RbNode, ghost c0: Ctx, ghost t0: Tree, ghost S0: Store)
      returns (ghost c: Ctx, ghost t: Tree, ghost S: Store)
    requires Mem(S0) && nil in S0 && Unsettled(c0, t0) && Focus(S0, c0, t0, nil) && z == t0.n && !S0[nil].red
    modifies S0.Keys
    ensures Mem(S) && Unsettled(c, t) && Focus(S, c, t, nil) && !c.IsRed()
    ensures InOrder(Plug(c, t)) == InOrder(Plug(c0, t0)) && Bottom(c) == Bottom(c0) && S.Keys == S0.Keys && !S[nil].red
  {
    var x := z;
    c, t, S := c0, t0, S0;
    FocusLinks(S, c, t, nil);
    while x.parent.red
      invariant Mem(S) && S.Keys == S0.Keys && !S[nil].red
      invariant Unsettled(c, t) && Focus(S, c, t, nil) && x == t.n && x.parent.red == c.IsRed()
      invariant InOrder(Plug(c, t)) == InOrder(Plug(c0, t0)) && Bottom(c) == Bottom(c0)
      decreases if c.IsRed() then 1 + Depth(c) else 0
    {
      x, c, t, S := InsertTurn(x, nil, c, t, S);
      FocusLinks(S, c, t, nil);
    }
  }

  /** After the loop the root of the whole tree is painted black. */
  method Blacken(root: RbNode, nil: RbNode, ghost c: Ctx, ghost t: Tree, ghost S: Store) returns (ghost T: Tree, ghost S': Store)
    requires Mem(S) && Unsettled(c, t) && Focus(S, c, t, nil) && !c.IsRed() && root == Bottom(c)
    modifies S.Keys
    ensures Mem(S') && Focus(S', Top(root), T, nil) && RedBlack(T) && !T.IsRed() && InOrder(T) == InOrder(Plug(c, t))
    ensures S'.Keys == S.Keys && (nil in S ==> S'[nil] == S[nil])
  {
    FocusTop(S, c, t, nil);
    BlackenRoot(c, t);
    FocusLinks(S, Top(root), Plug(c, t), nil);
    PaintFocus(S, Top(root), Plug(c, t), false, nil);
    T := Paint(Plug(c, t), false);
    S' := SetRed(root.left, false, S);
  }

  /** rb_insert after the node has been hung in its place. */
  method InsertFixup(z: RbNode, root: RbNode, nil: RbNode, ghost c: Ctx, ghost S: Store) returns (ghost T: Tree, ghost S': Store)
    requires Mem(S) && nil in S && !S[nil].red && Focus(S, c, Node(Leaf, z, true, Leaf), nil)
    requires CtxRedBlack(c, 0) && root == Bottom(c)
    modifies S.Keys
    ensures Mem(S') && Focus(S', Top(root), T, nil) && RedBlack(T) && !T.IsRed()
    ensures InOrder(T) == InOrder(Plug(c, Node(Leaf, z, true, Leaf)))
    ensures S'.Keys == S.Keys && !S'[nil].red
  {
    ghost var c';
    ghost var t: Tree := Node(Leaf, z, true, Leaf);
    assert Unsettled(c, t) by { MkRules(Left, Leaf, z, true, Leaf); }
    c', t, S' := InsertLoop(z, nil, c, t, S);
    T, S' := Blacken(root, nil, c', t, S');
  }

  /** rb_insert below the node `y` found by the way down. */
  method InsertAt(z: RbNode, y: RbNode, s: Side, root: RbNode, nil: RbNode, ghost c: Ctx, ghost S: Store)
      returns (ghost T: Tree, ghost S': Store)
    requires Mem(S) && z !in S && nil in S && !S[nil].red && Focus(S, c, Leaf, nil) && y == c.Parent() && s == CtxSide(c)
    requires CtxRedBlack(c, 0) && root == Bottom(c) && y in S
    modifies S.Keys, z
    ensures Mem(S') && Focus(S', Top(root), T, nil) && RedBlack(T) && !T.IsRed()
    ensures InOrder(T) == InOrder(Plug(c, Node(Leaf, z, true, Leaf)))
    ensures S'.Keys == S.Keys + {z} && !S'[nil].red
  {
    S' := Hang(z, y, s, nil, c, S);
    T, S' := InsertFixup(z, root, nil, c, S');
  }

  /** The loop of rb_insert_binary: nodes not above `key` come before the place found. */
  method FindPlace(key: int, root: RbNode, nil: RbNode, ghost T: Tree, ghost S: Store) returns (y: RbNode, ghost c: Ctx)
    requires Mem(S) && Focus(S, Top(root), T, nil) && RedBlack(T) && !T.IsRed() && Sorted(InOrder(T))
    ensures Focus(S, c, Leaf, nil) && y == c.Parent() && y in S && Plug(c, Leaf) == T && CtxRedBlack(c, 0) && Between(c, key)
    ensures (CtxSide(c).Left? <==> y == root || y.key > key) && Bottom(c) == root
  {
    y := root;
    var x := y.left;
    c := Top(root);
    ghost var t := T;
    while x != nil
      invariant Focus(S, c, t, nil) && x == Ptr(t, nil) && y == c.Parent() && Plug(c, t) == T
      invariant RedBlack(t) && CtxRedBlack(c, BlackHeight(t)) && !(t.IsRed() && (c.IsRed() || c.Top?))
      invariant Between(c, key) && Bottom(c) == root && (c.Top? <==> y == root)
      invariant c.Frame? ==> (c.side.Left? <==> y.key > key)
      decreases t
    {
      var s := if x.key > key then Left else Right;
      DescendBetween(c, t, s, key);
      DescendRules(c, t, s);
      FocusUp(S, Below(c, t, s), t.Kid(s), nil);
      BottomIn(c);
      c, t := Below(c, t, s), t.Kid(s);
      y := x;
      x := x.Child(s);
    }
    FocusLinks(S, c, Leaf, nil);
  }

  method InsertInto(z: RbNode, root: RbNode, nil: RbNode, ghost T: Tree, ghost S: Store) returns (ghost T': Tree, ghost S': Store)
    requires WellFormed(root, nil, T, S) && z !in S
    modifies S.Keys, z
    ensures WellFormed(root, nil, T', S') && S'.Keys == S.Keys + {z}
    ensures InOrder(T') == Added(InOrder(T), z)
  {
    var y, c := FindPlace(z.key, root, nil, T, S);
    T', S' := InsertAt(z, y, if y == root || y.key > z.key then Left else Right, root, nil, c, S);
    InsertDone(T, c, z, T');
  }
}
