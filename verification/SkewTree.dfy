/** Skew heaps as trees (libs/skew_heap.h): order, contents and amortised cost. */
module SkewTree {
  import opened Powers

  /** A process as the run queue sees it; the links are those of its `lab6_run_pool`. */
  class Proc {
    var parent: Proc?
    var left: Proc?
    var right: Proc?
    var stride: nat      // of 32 bits
    var priority: nat
    var timeSlice: nat
    constructor (stride: nat, priority: nat)
      ensures this.stride == stride && this.priority == priority
    {
      parent, left, right := null, null, null;
      this.stride, this.priority, timeSlice := stride, priority, 0;
    }
  }

  datatype Tree = Leaf | Node(n: Proc, l: Tree, r: Tree)

  function Nodes(t: Tree): set<Proc> {
    if t.Leaf? then {} else {t.n} + Nodes(t.l) + Nodes(t.r)
  }

  function Size(t: Tree): nat {
    if t.Leaf? then 0 else 1 + Size(t.l) + Size(t.r)
  }

  /** No process is in the heap twice. */
  predicate Distinct(t: Tree) {
    t.Node? ==> t.n !in Nodes(t.l) && t.n !in Nodes(t.r) && Nodes(t.l) !! Nodes(t.r) && Distinct(t.l) && Distinct(t.r)
  }

  /** A total preorder on processes, given by numbers. */
  type Ranks = map<Proc, int>

  function Rank(R: Ranks, n: Proc): int { if n in R then R[n] else 0 }

  predicate Below(R: Ranks, n: Proc, t: Tree) { t.Node? ==> Rank(R, n) <= Rank(R, t.n) }

  predicate Ordered(t: Tree, R: Ranks) {
    t.Node? ==> Below(R, t.n, t.l) && Below(R, t.n, t.r) && Ordered(t.l, R) && Ordered(t.r, R)
  }

  lemma {:induction false} RootIsLeast(t: Tree, R: Ranks)
    requires Ordered(t, R) && t.Node?
    ensures forall m | m in Nodes(t) :: Rank(R, t.n) <= Rank(R, m)
  {
    if t.l.Node? { RootIsLeast(t.l, R); }
    if t.r.Node? { RootIsLeast(t.r, R); }
  }

  /** skew_heap_merge. */
  function Merge(a: Tree, b: Tree, R: Ranks): Tree
    decreases Size(a) + Size(b)
  {
    if a.Leaf? then b
    else if b.Leaf? then a
    else if Rank(R, a.n) < Rank(R, b.n) then Node(a.n, Merge(a.r, b, R), a.l)
    else Node(b.n, Merge(a, b.r, R), b.l)
  }

  lemma {:induction false} MergeNodes(a: Tree, b: Tree, R: Ranks)
    ensures Nodes(Merge(a, b, R)) == Nodes(a) + Nodes(b) && Size(Merge(a, b, R)) == Size(a) + Size(b)
    decreases Size(a) + Size(b)
  {
    if a.Node? && b.Node? {
      if Rank(R, a.n) < Rank(R, b.n) { MergeNodes(a.r, b, R); } else { MergeNodes(a, b.r, R); }
    }
  }

  lemma {:induction false} MergeDistinct(a: Tree, b: Tree, R: Ranks)
    requires Distinct(a) && Distinct(b) && Nodes(a) !! Nodes(b)
    ensures Distinct(Merge(a, b, R))
    decreases Size(a) + Size(b)
  {
    if a.Node? && b.Node? {
      if Rank(R, a.n) < Rank(R, b.n) { MergeDistinct(a.r, b, R); MergeNodes(a.r, b, R); }
      else { MergeDistinct(a, b.r, R); MergeNodes(a, b.r, R); }
    }
  }

  /** Merging keeps the heap order, whatever the order is. */
  lemma {:induction false} MergeOrdered(a: Tree, b: Tree, R: Ranks)
    requires Ordered(a, R) && Ordered(b, R)
    ensures Ordered(Merge(a, b, R), R) && forall n :: Below(R, n, a) && Below(R, n, b) ==> Below(R, n, Merge(a, b, R))
    decreases Size(a) + Size(b)
  {
    if a.Node? && b.Node? {
      if Rank(R, a.n) < Rank(R, b.n) { MergeOrdered(a.r, b, R); } else { MergeOrdered(a, b.r, R); }
    }
  }

  /** The size is the number of processes. */
  lemma {:induction false} SizeIsCount(t: Tree)
    requires Distinct(t)
    ensures Size(t) == |Nodes(t)|
  {
    if t.Node? {
      SizeIsCount(t.l);
      SizeIsCount(t.r);
      assert Nodes(t) == {t.n} + (Nodes(t.l) + Nodes(t.r));
    }
  }

  // ---------- Cost ----------

  /** The calls of skew_heap_merge that are made for `a` and `b`, the ones that return at once not counted. */
  function Calls(a: Tree, b: Tree, R: Ranks): nat
    decreases Size(a) + Size(b)
  {
    if a.Leaf? || b.Leaf? then 0
    else if Rank(R, a.n) < Rank(R, b.n) then 1 + Calls(a.r, b, R)
    else 1 + Calls(a, b.r, R)
  }

  predicate Heavy(t: Tree)
    requires t.Node?
  {
    Size(t.r) > Size(t.l)
  }

  /** The potential: the number of nodes whose right subtree is the larger one. */
  function Potential(t: Tree): nat {
    if t.Leaf? then 0 else (if Heavy(t) then 1 else 0) + Potential(t.l) + Potential(t.r)
  }

  /** The other nodes on the right spine. */
  function Lights(t: Tree): nat {
    if t.Leaf? then 0 else (if Heavy(t) then 0 else 1) + Lights(t.r)
  }

  lemma {:induction false} PotentialIsSmall(t: Tree)
    ensures Potential(t) <= Size(t)
  {
    if t.Node? { PotentialIsSmall(t.l); PotentialIsSmall(t.r); }
  }

  /** There are at most log2(n + 1) of those. */
  lemma {:induction false} LightsAreFew(t: Tree)
    ensures Pow2(Lights(t)) <= Size(t) + 1
  {
    if t.Node? { LightsAreFew(t.r); }
  }

  /** What a merge costs beyond what it takes from the potential is at most two for each light node. */
  lemma {:induction false} MergeIsAmortised(a: Tree, b: Tree, R: Ranks)
    ensures Calls(a, b, R) + Potential(Merge(a, b, R)) <= Potential(a) + Potential(b) + 2 * (Lights(a) + Lights(b))
    decreases Size(a) + Size(b)
  {
    if a.Node? && b.Node? {
      if Rank(R, a.n) < Rank(R, b.n) { MergeIsAmortised(a.r, b, R); MergeNodes(a.r, b, R); }
      else { MergeIsAmortised(a, b.r, R); MergeNodes(a, b.r, R); }
    }
  }

  lemma {:induction false} LightsBound(t: Tree, k: nat)
    requires Size(t) + 1 < Pow2(k + 1)
    ensures Lights(t) <= k
  {
    LightsAreFew(t);
    if Lights(t) > k { PowGrows(k + 1, Lights(t)); }
  }

  /** The operations a run queue makes: a process is put in, or the root is taken out. The keys may have changed since
      the last operation, so each one has its own ranks. */
  datatype Op = Put(R: Ranks, n: Proc) | TakeRoot(R: Ranks)

  function Apply(t: Tree, op: Op): Tree {
    match op
    case Put(R, n) => Merge(t, Node(n, Leaf, Leaf), R)
    case TakeRoot(R) => if t.Leaf? then t else Merge(t.l, t.r, R)
  }

  function CallsOf(t: Tree, op: Op): nat {
    match op
    case Put(R, n) => Calls(t, Node(n, Leaf, Leaf), R)
    case TakeRoot(R) => if t.Leaf? then 0 else Calls(t.l, t.r, R)
  }

  function TotalCalls(t: Tree, ops: seq<Op>): nat
    decreases |ops|
  {
    if ops == [] then 0 else CallsOf(t, ops[0]) + TotalCalls(Apply(t, ops[0]), ops[1..])
  }

  /** Before every operation of the run there are fewer than `limit` - 1 processes in the heap. */
  predicate StaysSmall(t: Tree, ops: seq<Op>, limit: nat)
    decreases |ops|
  {
    ops != [] ==> Size(t) + 1 < limit && StaysSmall(Apply(t, ops[0]), ops[1..], limit)
  }

  lemma {:induction false} OneOp(t: Tree, op: Op, k: nat)
    requires Size(t) + 1 < Pow2(k + 1)
    ensures CallsOf(t, op) + Potential(Apply(t, op)) <= Potential(t) + 4 * k + 2
  {
    match op
    case Put(R, n) =>
      LightsBound(t, k);
      var s := Node(n, Leaf, Leaf);
      assert s.r == Leaf && s.l == Leaf && !Heavy(s);
      assert Potential(s) == (if Heavy(s) then 1 else 0) + Potential(s.l) + Potential(s.r);
      assert Lights(s) == 1 && Potential(s) == 0;
      MergeIsAmortised(t, Node(n, Leaf, Leaf), R);
    case TakeRoot(R) =>
      if t.Node? {
        LightsBound(t.l, k);
        LightsBound(t.r, k);
        MergeIsAmortised(t.l, t.r, R);
      }
  }

  /** Any `m` operations make at most `m` times 4 k + 2 calls beyond the potential at the start, while the heap has fewer
      than 2^(k+1) - 1 processes, and whatever happens to the keys in between. */
  lemma {:induction false} RunsAreAmortised(t: Tree, ops: seq<Op>, k: nat)
    requires StaysSmall(t, ops, Pow2(k + 1))
    ensures TotalCalls(t, ops) <= Potential(t) + |ops| * (4 * k + 2) && Potential(t) <= Size(t)
    decreases |ops|
  {
    PotentialIsSmall(t);
    if ops != [] {
      OneOp(t, ops[0], k);
      RunsAreAmortised(Apply(t, ops[0]), ops[1..], k);
      OneMore(|ops| - 1, 4 * k + 2);
    }
  }

  lemma {:induction false} OneMore(m: nat, w: nat)
    ensures (m + 1) * w == w + m * w
  {
  }

  // ---------- A place in a heap ----------

  /** The way from a place in a heap up to its root. */
  datatype Ctx = Top | Frame(n: Proc, left: bool, sib: Tree, up: Ctx)

  function Plug(c: Ctx, t: Tree): Tree {
    match c
    case Top => t
    case Frame(n, left, sib, up) => Plug(up, if left then Node(n, t, sib) else Node(n, sib, t))
  }

  function CtxNodes(c: Ctx): set<Proc> {
    if c.Top? then {} else {c.n} + Nodes(c.sib) + CtxNodes(c.up)
  }

  lemma {:induction false} PlugNodes(c: Ctx, t: Tree)
    ensures Nodes(Plug(c, t)) == CtxNodes(c) + Nodes(t)
  {
    if c.Frame? { PlugNodes(c.up, if c.left then Node(c.n, t, c.sib) else Node(c.n, c.sib, t)); }
  }

  /** Where a process is. */
  function Find(t: Tree, n: Proc, c: Ctx): (r: (Ctx, Tree))
    requires n in Nodes(t)
    ensures r.1.Node? && r.1.n == n && Plug(r.0, r.1) == Plug(c, t)
    decreases t
  {
    if t.n == n then (c, t)
    else if n in Nodes(t.l) then Find(t.l, n, Frame(t.n, true, t.r, c))
    else Find(t.r, n, Frame(t.n, false, t.l, c))
  }

  predicate DistinctCtx(c: Ctx) {
    c.Frame? ==> c.n !in Nodes(c.sib) && c.n !in CtxNodes(c.up) && Nodes(c.sib) !! CtxNodes(c.up) && Distinct(c.sib) && DistinctCtx(c.up)
  }

  lemma {:induction false} PlugDistinct(c: Ctx, t: Tree)
    ensures Distinct(Plug(c, t)) <==> DistinctCtx(c) && Distinct(t) && Nodes(t) !! CtxNodes(c)
  {
    if c.Frame? { PlugDistinct(c.up, if c.left then Node(c.n, t, c.sib) else Node(c.n, c.sib, t)); }
  }

  /** Putting the merged children of a node into its place keeps the heap order. */
  lemma {:induction false} PlugOrdered(c: Ctx, t: Tree, t': Tree, R: Ranks)
    requires Ordered(Plug(c, t), R) && (Ordered(t, R) ==> Ordered(t', R)) && forall n :: Below(R, n, t) ==> Below(R, n, t')
    ensures Ordered(Plug(c, t'), R)
  {
    if c.Frame? {
      PlugOrdered(c.up, if c.left then Node(c.n, t, c.sib) else Node(c.n, c.sib, t),
                  if c.left then Node(c.n, t', c.sib) else Node(c.n, c.sib, t'), R);
    }
  }

  lemma {:induction false} OrderedInside(c: Ctx, t: Tree, R: Ranks)
    requires Ordered(Plug(c, t), R)
    ensures Ordered(t, R)
  {
    if c.Frame? { OrderedInside(c.up, if c.left then Node(c.n, t, c.sib) else Node(c.n, c.sib, t), R); }
  }

  /** skew_heap_remove. */
  function Remove(t: Tree, b: Proc, R: Ranks): Tree
    requires b in Nodes(t)
  {
    var (c, u) := Find(t, b, Top);
    Plug(c, Merge(u.l, u.r, R))
  }

  /** Taking the root out, as the runs above do, is removing it. */
  lemma {:induction false} RootRemoval(t: Tree, R: Ranks)
    requires t.Node?
    ensures t.n in Nodes(t) && Apply(t, TakeRoot(R)) == Remove(t, t.n, R)
  {
    assert Find(t, t.n, Top) == (Top, t);
  }

  lemma {:induction false} RemoveIsRight(t: Tree, b: Proc, R: Ranks)
    requires b in Nodes(t) && Distinct(t)
    ensures Nodes(Remove(t, b, R)) == Nodes(t) - {b} && Distinct(Remove(t, b, R)) && Size(Remove(t, b, R)) == Size(t) - 1
    ensures Ordered(t, R) ==> Ordered(Remove(t, b, R), R)
  {
    var (c, u) := Find(t, b, Top);
    var m := Merge(u.l, u.r, R);
    PlugNodes(c, u);
    PlugNodes(c, m);
    PlugDistinct(c, u);
    PlugDistinct(c, m);
    MergeNodes(u.l, u.r, R);
    MergeDistinct(u.l, u.r, R);
    PlugSize(c, u);
    PlugSize(c, m);
    if Ordered(t, R) {
      OrderedInside(c, u, R);
      MergeOrdered(u.l, u.r, R);
      PlugOrdered(c, u, m, R);
    }
  }

  function CtxSize(c: Ctx): nat {
    if c.Top? then 0 else 1 + Size(c.sib) + CtxSize(c.up)
  }

  lemma {:induction false} PlugSize(c: Ctx, t: Tree)
    ensures Size(Plug(c, t)) == CtxSize(c) + Size(t)
  {
    if c.Frame? { PlugSize(c.up, if c.left then Node(c.n, t, c.sib) else Node(c.n, c.sib, t)); }
  }
}
