/** Lookups, and how far down they go. */
module RbSearch {
  import opened Powers
  import opened RbShape
  import opened RbHeap
  import opened RbDeleteSteps

  function Height(t: Tree): nat {
    match t
    case Leaf => 0
    case Node(l, _, _, r) => 1 + (if Height(l) > Height(r) then Height(l) else Height(r))
  }

  /** Black nodes alone already need exponentially many nodes, and red ones at most double a way down. */
  lemma {:induction false} HeightAndSize(t: Tree)
    requires RedBlack(t)
    ensures Height(t) <= 2 * BlackHeight(t) + (if t.IsRed() then 1 else 0)
    ensures Pow2(BlackHeight(t)) <= |InOrder(t)| + 1
  {
    if t.Node? {
      HeightAndSize(t.left);
      HeightAndSize(t.right);
    }
  }

  lemma {:induction false} SquareMonotone(a: nat, b: nat)
    requires a <= b
    ensures a * a <= b * b
  {
    assert b * b - a * a == (b - a) * (b + a);
  }

  /** With n nodes the height is at most 2 log2(n + 1). */
  lemma {:induction false} HeightBound(t: Tree)
    requires RedBlack(t) && !t.IsRed()
    ensures Pow2(Height(t)) <= (|InOrder(t)| + 1) * (|InOrder(t)| + 1)
  {
    HeightAndSize(t);
    var b, n := Pow2(BlackHeight(t)), |InOrder(t)| + 1;
    PowGrows(Height(t), BlackHeight(t) + BlackHeight(t));
    PowAdds(BlackHeight(t), BlackHeight(t));
    SquareMonotone(b, n);
  }

  /** Nodes with the sought key are nowhere but in the subtree. */
  ghost predicate OnlyWithin(T: Tree, t: Tree, key: int) {
    forall n | n in Nodes(T) && n.key == key :: n in Nodes(t)
  }

  lemma {:induction false} Narrow(T: Tree, c: Ctx, t: Tree, key: int)
    requires Plug(c, t) == T && Sorted(InOrder(T)) && t.Node? && t.n.key != key && OnlyWithin(T, t, key)
    ensures OnlyWithin(T, t.Kid(if t.n.key > key then Left else Right), key)
  {
    SortedRoot(c, t);
    NodesInOrder(t.left);
    NodesInOrder(t.right);
    assert forall n | n in Nodes(t.left) :: n in InOrder(t.left) by { assert Nodes(t.left) == Elems(InOrder(t.left)); }
    assert forall n | n in Nodes(t.right) :: n in InOrder(t.right) by { assert Nodes(t.right) == Elems(InOrder(t.right)); }
  }

  /** rb_search: the node found lies above all other nodes with the key. */
  method Search(key: int, root: RbNode, nil: RbNode, ghost T: Tree, ghost S: Store)
      returns (node: RbNode, ghost t: Tree, ghost steps: nat)
    requires WellFormed(root, nil, T, S)
    ensures node == Ptr(t, nil) && OnlyWithin(T, t, key) && steps + Height(t) <= Height(T)
    ensures node != nil ==> node in Nodes(T) && node.key == key
    ensures node == nil ==> forall n | n in Nodes(T) :: n.key != key
  {
    node := root.left;
    ghost var c := Top(root);
    t, steps := T, 0;
    while node != nil && node.key != key
      invariant Focus(S, c, t, nil) && node == Ptr(t, nil) && Plug(c, t) == T && Nodes(t) <= Nodes(T)
      invariant OnlyWithin(T, t, key) && steps + Height(t) <= Height(T)
      decreases t
    {
      var s := if node.key > key then Left else Right;
      Narrow(T, c, t, key);
      FocusLinks(S, c, t, nil);
      FocusUp(S, Below(c, t, s), t.Kid(s), nil);
      FocusLinks(S, Below(c, t, s), t.Kid(s), nil);
      node := node.Child(s);
      c, t, steps := Below(c, t, s), t.Kid(s), steps + 1;
    }
  }
}
