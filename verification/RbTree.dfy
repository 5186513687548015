/** The red-black tree of libs/rb_tree.c. */
module RbTree {
  import opened Powers
  import opened RbShape
  import opened RbHeap
  import opened RbInsertSteps
  import opened RbSplice
  import opened RbNeighbours
  import opened RbSearch
  import opened RbDeleteSteps

  class Tree {
    const nil: RbNode
    const root: RbNode       // the sentinel; the tree hangs on its left
    ghost var S: Store       // the fields of nil, root and the nodes of the tree
    ghost var T: RbShape.Tree

    ghost predicate Valid()
      reads this, S.Keys
    {
      WellFormed(root, nil, T, S)
    }

    /** The nodes of the tree in order. */
    ghost function Contents(): seq<RbNode>
      reads this
    {
      InOrder(T)
    }

    constructor ()
      ensures Valid() && Contents() == [] && fresh(S.Keys)
    {
      nil := new RbNode(0);
      root := new RbNode(0);
      S, T := map[], Leaf;
      new;
      nil.parent, nil.left, nil.right, nil.red := nil, nil, nil, false;
      root.parent, root.left, root.right, root.red := nil, nil, nil, false;
      Record(Leaf, map[nil := Links(nil, nil, nil, false), root := Links(nil, nil, nil, false)]);
    }

    /** Records the shape that memory has now. */
    ghost method Record(T': RbShape.Tree, S': Store)
      requires WellFormed(root, nil, T', S')
      modifies this
      ensures T == T' && S == S' && Valid()
    {
      T, S := T', S';
    }

    method Insert(z: RbNode)
      requires Valid() && z !in S
      modifies this, S.Keys, z
      ensures Valid() && S.Keys == old(S.Keys) + {z}
      ensures Contents() == Added(old(Contents()), z)
    {
      ghost var T', S' := InsertInto(z, root, nil, T, S);
      Record(T', S');
    }

    method Delete(z: RbNode)
      requires Valid() && z in Contents()
      modifies this, S.Keys
      ensures Valid() && S.Keys == old(S.Keys) - {z}
      ensures Contents() == Removed(old(Contents()), z)
    {
      NodesInOrder(T);
      assert z in Elems(InOrder(T));
      ghost var T', S' := DeleteFrom(z, root, nil, T, S);
      Record(T', S');
    }

    /** The node after `node` in order, if it is not the last: rb_node_next. */
    method Next(node: RbNode) returns (next: RbNode?, ghost i: nat)
      requires Valid() && node in Contents()
      ensures i < |Contents()| && Contents()[i] == node && next == if i + 1 < |Contents()| then Contents()[i + 1] else null
    {
      ghost var c, t := PlaceOf(node);
      var y;
      y, i := Successor(node, root, nil, c, t, S);
      NilNotInside();
      next := if y != nil then y else null;
    }

    /** The node before `node`, if it is not the first: rb_node_prev. */
    method Prev(node: RbNode) returns (prev: RbNode?, ghost i: nat)
      requires Valid() && node in Contents()
      ensures i < |Contents()| && Contents()[i] == node && prev == if i > 0 then Contents()[i - 1] else null
    {
      ghost var c, t := PlaceOf(node);
      var y;
      y, i := Predecessor(node, root, nil, c, t, S);
      NilNotInside();
      prev := if y != nil then y else null;
    }

    lemma PlaceOf(node: RbNode) returns (c: Ctx, t: RbShape.Tree)
      requires Valid() && node in Contents()
      ensures Focus(S, c, t, nil) && Settled(c, t) && t.Node? && t.n == node && Plug(c, t) == T && Bottom(c) == root
    {
      NodesInOrder(T);
      assert node in Elems(InOrder(T));
      c, t := FindNode(S, Top(root), T, node, nil);
    }

    lemma NilNotInside()
      requires Valid()
      ensures nil !in Contents()
    {
      NodesInOrder(T);
      assert nil in Contents() ==> nil in Elems(InOrder(T));
    }

    /** The node with the key that lies highest, if there is one, within 2 log2(n + 1) steps. */
    method Search(key: int) returns (node: RbNode?, ghost steps: nat)
      requires Valid()
      ensures node == null <==> forall n | n in Contents() :: n.key != key
      ensures node != null ==> node in Contents() && node.key == key
      ensures Pow2(steps) <= (|Contents()| + 1) * (|Contents()| + 1)
    {
      var n;
      ghost var t;
      n, t, steps := RbSearch.Search(key, root, nil, T, S);
      NodesInOrder(T);
      HeightBound(T);
      PowGrows(steps, Height(T));
      node := if n != nil then n else null;
      assert forall m | m in Contents() :: m in Elems(InOrder(T));
    }
  }
}
