/** Shapes of red-black trees as values: what the linked nodes of a tree look like from its root,
    and what surrounds one place in it. */
module RbShape {

  /** The two directions the C macros take as their `_left` and `_right` arguments. */
  datatype Side = Left | Right
  {
    function Flip(): Side { if Left? then Right else Left }
  }

  class RbNode {
    const key: int
    var red: bool
    var parent: RbNode
    var left: RbNode
    var right: RbNode

    /** A node outside any tree; its links are arbitrary, so they point at the node itself. */
    constructor (key: int)
      ensures this.key == key && !red
    {
      this.key := key;
      red, parent, left, right := false, this, this, this;
    }

    function Child(s: Side): RbNode
      reads this
    {
      if s.Left? then left else right
    }

    method SetChild(s: Side, m: RbNode)
      modifies this
      ensures Child(s) == m && Child(s.Flip()) == old(Child(s.Flip()))
      ensures red == old(red) && parent == old(parent)
    {
      if s.Left? { left := m; } else { right := m; }
    }
  }

  /** A subtree; `Leaf` stands for the shared node nil. */
  datatype Tree = Leaf | Node(left: Tree, n: RbNode, red: bool, right: Tree)
  {
    function Kid(s: Side): Tree
      requires Node?
    {
      if s.Left? then left else right
    }
    predicate IsRed() { Node? && red }
  }

  /** The surroundings of a place in a tree: up to the sentinel node in `Top`; the place is the
      child of `n` on side `side`, and `sib` is the subtree on the other side. */
  datatype Ctx = Top(sentinel: RbNode) | Frame(side: Side, n: RbNode, red: bool, sib: Tree, up: Ctx)
  {
    predicate IsRed() { Frame? && red }
    function Parent(): RbNode { if Top? then sentinel else n }
  }

  function Bottom(c: Ctx): RbNode { if c.Top? then c.sentinel else Bottom(c.up) }

  function Depth(c: Ctx): nat { if c.Top? then 0 else 1 + Depth(c.up) }

  /** The tree with `near` on side `s` of `n` and `far` on the other side. */
  function Mk(s: Side, near: Tree, n: RbNode, red: bool, far: Tree): Tree {
    if s.Left? then Node(near, n, red, far) else Node(far, n, red, near)
  }

  function Paint(t: Tree, red: bool): Tree {
    if t.Leaf? then t else t.(red := red)
  }

  function Nodes(t: Tree): set<RbNode> {
    match t
    case Leaf => {}
    case Node(l, n, _, r) => Nodes(l) + {n} + Nodes(r)
  }

  function CtxNodes(c: Ctx): set<RbNode> {
    match c
    case Top(s) => {s}
    case Frame(_, n, _, sib, up) => {n} + Nodes(sib) + CtxNodes(up)
  }

  function InOrder(t: Tree): seq<RbNode> {
    match t
    case Leaf => []
    case Node(l, n, _, r) => InOrder(l) + [n] + InOrder(r)
  }

  ghost function Elems(s: seq<RbNode>): set<RbNode> { set n | n in s }

  lemma {:induction false} ElemsConcat(a: seq<RbNode>, b: seq<RbNode>)
    ensures Elems(a + b) == Elems(a) + Elems(b)
  {
  }

  lemma {:induction false} NodesInOrder(t: Tree)
    ensures Nodes(t) == Elems(InOrder(t))
  {
    if t.Node? {
      NodesInOrder(t.left);
      NodesInOrder(t.right);
      ElemsConcat(InOrder(t.left), [t.n]);
      ElemsConcat(InOrder(t.left) + [t.n], InOrder(t.right));
    }
  }

  /** The nodes in order before and after the place. */
  function Before(c: Ctx): seq<RbNode> {
    match c
    case Top(_) => []
    case Frame(side, n, _, sib, up) =>
      if side.Left? then Before(up) else Before(up) + InOrder(sib) + [n]
  }

  function After(c: Ctx): seq<RbNode> {
    match c
    case Top(_) => []
    case Frame(side, n, _, sib, up) =>
      if side.Left? then [n] + InOrder(sib) + After(up) else After(up)
  }

  /** The whole tree with `t` put in the place. */
  function Plug(c: Ctx, t: Tree): Tree {
    match c
    case Top(_) => t
    case Frame(side, n, red, sib, up) => Plug(up, Mk(side, t, n, red, sib))
  }

  lemma {:induction false} Regroup<T>(a: seq<T>, b: seq<T>, m: seq<T>, d: seq<T>, e: seq<T>)
    ensures a + (b + m + d) + e == a + b + (m + d + e)
    ensures a + (b + m + d) + e == (a + b + m) + d + e
  {
  }

  lemma {:induction false} PlugInOrder(c: Ctx, t: Tree)
    ensures InOrder(Plug(c, t)) == Before(c) + InOrder(t) + After(c)
  {
    if c.Frame? {
      PlugInOrder(c.up, Mk(c.side, t, c.n, c.red, c.sib));
      if c.side.Left? {
        Regroup(Before(c.up), InOrder(t), [c.n], InOrder(c.sib), After(c.up));
      } else {
        Regroup(Before(c.up), InOrder(c.sib), [c.n], InOrder(t), After(c.up));
      }
    }
  }

  // ---------- The red-black rules ----------

  /** No red node has a red child. */
  predicate NoRedRed(t: Tree) {
    match t
    case Leaf => true
    case Node(l, _, red, r) => NoRedRed(l) && NoRedRed(r) && (red ==> !l.IsRed() && !r.IsRed())
  }

  /** The number of black nodes on the leftmost way down. */
  function BlackHeight(t: Tree): nat {
    match t
    case Leaf => 0
    case Node(l, _, red, _) => BlackHeight(l) + (if red then 0 else 1)
  }

  /** Every way down passes the same number of black nodes. */
  predicate Balanced(t: Tree) {
    match t
    case Leaf => true
    case Node(l, _, _, r) => Balanced(l) && Balanced(r) && BlackHeight(l) == BlackHeight(r)
  }

  predicate RedBlack(t: Tree) { NoRedRed(t) && Balanced(t) }

  /** The surroundings keep the rules around a subtree of black height `h` with a black root. */
  predicate CtxRedBlack(c: Ctx, h: nat) {
    match c
    case Top(_) => true
    case Frame(_, _, red, sib, up) =>
      && RedBlack(sib) && BlackHeight(sib) == h
      && (red ==> !sib.IsRed() && !up.IsRed() && up.Frame?)
      && CtxRedBlack(up, if red then h else h + 1)
  }

  lemma {:induction false} PlugRedBlack(c: Ctx, t: Tree)
    requires RedBlack(t) && CtxRedBlack(c, BlackHeight(t)) && !(t.IsRed() && (c.IsRed() || c.Top?))
    ensures RedBlack(Plug(c, t)) && !Plug(c, t).IsRed()
  {
    if c.Frame? {
      PlugRedBlack(c.up, Mk(c.side, t, c.n, c.red, c.sib));
    }
  }

  /** The rules for a tree put together from parts. */
  lemma {:induction false} MkRules(s: Side, near: Tree, n: RbNode, red: bool, far: Tree)
    ensures RedBlack(Mk(s, near, n, red, far)) <==>
      RedBlack(near) && RedBlack(far) && BlackHeight(near) == BlackHeight(far) && (red ==> !near.IsRed() && !far.IsRed())
    ensures BlackHeight(near) == BlackHeight(far) ==>
      BlackHeight(Mk(s, near, n, red, far)) == BlackHeight(near) + (if red then 0 else 1)
  {
  }

  /** A black root may be put on a tree that keeps the rules below it. */
  lemma {:induction false} PaintRules(t: Tree)
    requires RedBlack(t)
    ensures RedBlack(Paint(t, false)) && BlackHeight(Paint(t, false)) == BlackHeight(t) + (if t.IsRed() then 1 else 0)
  {
  }

  // ---------- Search order ----------

  /** In order, no key is larger than the next. */
  ghost predicate Sorted(s: seq<RbNode>) {
    forall i, j | 0 <= i < j < |s| :: s[i].key <= s[j].key
  }

  lemma {:induction false} SortedParts(a: seq<RbNode>, b: seq<RbNode>)
    ensures Sorted(a + b) <==>
      Sorted(a) && Sorted(b) && forall m, n | m in a && n in b :: m.key <= n.key
  {
    if Sorted(a + b) {
      assert forall i | 0 <= i < |a| :: a[i] == (a + b)[i];
      assert forall i | 0 <= i < |b| :: b[i] == (a + b)[|a| + i];
    }
  }

  /** In a sorted tree the root lies between its subtrees, wherever the tree is. */
  lemma {:induction false} SortedRoot(c: Ctx, t: Tree)
    requires t.Node? && Sorted(InOrder(Plug(c, t)))
    ensures forall n | n in InOrder(t.left) :: n.key <= t.n.key
    ensures forall n | n in InOrder(t.right) :: t.n.key <= n.key
  {
    PlugInOrder(c, t);
    SortedParts(Before(c) + InOrder(t), After(c));
    SortedParts(Before(c), InOrder(t));
    SortedParts(InOrder(t.left) + [t.n], InOrder(t.right));
    SortedParts(InOrder(t.left), [t.n]);
    assert t.n in [t.n] && t.n in InOrder(t.left) + [t.n];
  }

  /** The surroundings of a child. */
  function Below(c: Ctx, t: Tree, s: Side): Ctx
    requires t.Node?
  {
    Frame(s, t.n, t.red, t.Kid(s.Flip()), c)
  }

  /** What the search for the place of a key keeps on the way down. */
  ghost predicate Between(c: Ctx, key: int) {
    (forall n | n in Before(c) :: n.key <= key) && (forall n | n in After(c) :: key < n.key)
  }

  lemma {:induction false} DescendBetween(c: Ctx, t: Tree, s: Side, key: int)
    requires t.Node? && Sorted(InOrder(Plug(c, t))) && Between(c, key)
    requires s == (if t.n.key > key then Left else Right)
    ensures Between(Below(c, t, s), key)
  {
    SortedRoot(c, t);
  }

  lemma {:induction false} DescendRules(c: Ctx, t: Tree, s: Side)
    requires t.Node? && RedBlack(t) && CtxRedBlack(c, BlackHeight(t)) && !(t.IsRed() && (c.IsRed() || c.Top?))
    ensures var c', t' := Below(c, t, s), t.Kid(s);
            && RedBlack(t') && CtxRedBlack(c', BlackHeight(t')) && !(t'.IsRed() && (c'.IsRed() || c'.Top?))
            && Plug(c', t') == Plug(c, t)
  {
  }
}
