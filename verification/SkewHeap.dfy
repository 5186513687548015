/** The pointers of libs/skew_heap.h, and the comparison of schedule/default_sched.c. */
module SkewHeap {
  import opened SkewTree

  /** The fields of one process, and of many. */
  datatype Links = Links(parent: Proc?, left: Proc?, right: Proc?, stride: nat, priority: nat, slice: nat)
  type Store = map<Proc, Links>

  /** Memory holds what `S` says. */
  ghost predicate Mem(S: Store)
    reads S.Keys
  {
    forall n | n in S :: S[n] == Links(n.parent, n.left, n.right, n.stride, n.priority, n.timeSlice)
  }

  function Ptr(t: Tree): Proc? { if t.Leaf? then null else t.n }

  ghost predicate ParentIs(S: Store, t: Tree, p: Proc?) { t.Node? ==> t.n in S && S[t.n].parent == p }

  /** `S` holds `t`; nothing is said about the parent of its root. */
  ghost predicate Rep(S: Store, t: Tree) {
    t.Node? ==>
      && t.n in S && S[t.n].left == Ptr(t.l) && S[t.n].right == Ptr(t.r)
      && ParentIs(S, t.l, t.n) && ParentIs(S, t.r, t.n) && Rep(S, t.l) && Rep(S, t.r)
  }

  lemma {:induction false} RepKeys(S: Store, t: Tree)
    requires Rep(S, t)
    ensures Nodes(t) <= S.Keys
  {
    if t.Node? { RepKeys(S, t.l); RepKeys(S, t.r); }
  }

  /** Changes elsewhere, and a new parent for the root, do not matter. */
  lemma {:induction false} RepFrame(S: Store, S': Store, t: Tree)
    requires Rep(S, t) && Distinct(t) && forall x | x in Nodes(t) ::
      x in S && x in S' && S'[x].left == S[x].left && S'[x].right == S[x].right && (x != t.n ==> S'[x].parent == S[x].parent)
    ensures Rep(S', t)
  {
    if t.Node? {
      RepFrame(S, S', t.l);
      RepFrame(S, S', t.r);
    }
  }

  // ---------- The comparison ----------

  const WRAP: int := 0x1_0000_0000
  const BIG_STRIDE: int := 0x7FFF_FFFF

  /** The sign of the difference in 32 bits, read as a signed number. */
  function Compare(a: nat, b: nat): int {
    var d := (a - b) % WRAP;
    if d == 0 then 0 else if d < 0x8000_0000 then 1 else -1
  }

  /** On the processes `ns` the comparison of strides is the order of ranks. */
  ghost predicate Agrees(S: Store, R: Ranks, ns: set<Proc>) {
    forall x, y | x in ns && y in ns && x in S && y in S :: Compare(S[x].stride, S[y].stride) == -1 <==> Rank(R, x) < Rank(R, y)
  }

  /** Ranks within BIG_STRIDE of each other, stored modulo 2^32, compare as they should. */
  lemma {:induction false} WindowAgrees(a: int, b: int)
    requires -BIG_STRIDE <= a - b <= BIG_STRIDE
    ensures Compare(a % WRAP, b % WRAP) == if a < b then -1 else if a == b then 0 else 1
  {
    var d := a % WRAP - b % WRAP;
    assert a - b == d + WRAP * (a / WRAP - b / WRAP);
    assert d == a - b || d == a - b + WRAP || d == a - b - WRAP;
  }

  function Sign(d: int): int { if d < 0 then -1 else if d == 0 then 0 else 1 }

  function Gap(a: int, b: int): nat { if a < b then b - a else a - b }

  /** The comparison of the stored values is right, whichever of the two comes first. */
  predicate ComparesRightly(a: int, b: int) {
    Compare(a % WRAP, b % WRAP) == Sign(a - b) && Compare(b % WRAP, a % WRAP) == Sign(b - a)
  }

  lemma {:induction false} DifferenceWraps(a: int, b: int)
    ensures (a % WRAP - b % WRAP) % WRAP == (a - b) % WRAP
  {
    var d := a % WRAP - b % WRAP;
    var k := a / WRAP - b / WRAP;
    assert a - b == d + WRAP * k;
    assert d % WRAP == d || d % WRAP == d + WRAP;
    assert (a - b) % WRAP == (a - b) - WRAP * ((a - b) / WRAP);
  }

  /** Two unbounded strides compare rightly, stored modulo 2^32, exactly if they are equal or the rest of their distance
      modulo 2^32 is between 1 and BIG_STRIDE. */
  lemma {:induction false} ComparesRightlyExactly(a: int, b: int)
    ensures ComparesRightly(a, b) <==> a == b || 1 <= Gap(a, b) % WRAP <= BIG_STRIDE
  {
    DifferenceWraps(a, b);
    DifferenceWraps(b, a);
  }

  /** So for strides less than 2^32 apart the window of BIG_STRIDE is exactly what is needed. */
  lemma {:induction false} WindowIsExact(a: int, b: int)
    requires -WRAP < a - b < WRAP
    ensures ComparesRightly(a, b) <==> -BIG_STRIDE <= a - b <= BIG_STRIDE
  {
    ComparesRightlyExactly(a, b);
  }

  /** Just outside the window each of the two is said to be less than the other. */
  lemma {:induction false} JustOutside(a: int)
    ensures Compare((a + BIG_STRIDE + 1) % WRAP, a % WRAP) == -1 && Compare(a % WRAP, (a + BIG_STRIDE + 1) % WRAP) == -1
    ensures !ComparesRightly(a + BIG_STRIDE + 1, a)
  {
    DifferenceWraps(a + BIG_STRIDE + 1, a);
    DifferenceWraps(a, a + BIG_STRIDE + 1);
  }

  // ---------- Writing ----------

  method SetLinks(a: Proc, l: Proc?, r: Proc?, ghost S: Store) returns (ghost S': Store)
    requires Mem(S) && a in S
    modifies a
    ensures Mem(S') && S' == S[a := S[a].(left := l, right := r)]
  {
    a.left := l;
    a.right := r;
    S' := S[a := S[a].(left := l, right := r)];
  }

  method SetParent(a: Proc, p: Proc?, ghost S: Store) returns (ghost S': Store)
    requires Mem(S) && a in S
    modifies a
    ensures Mem(S') && S' == S[a := S[a].(parent := p)]
  {
    a.parent := p;
    S' := S[a := S[a].(parent := p)];
  }

  /** `S'` differs from `S` in links of the processes `ns` only. */
  ghost predicate Within(S: Store, S': Store, ns: set<Proc>) {
    && S'.Keys == S.Keys && (forall x | x in S && x !in ns :: S'[x] == S[x])
    && forall x | x in S :: S'[x] == Links(S'[x].parent, S'[x].left, S'[x].right, S[x].stride, S[x].priority, S[x].slice)
  }

  /** `a` over the merged tree `m` and the tree that was to its left. */
  lemma {:induction false} Linked(S: Store, S1: Store, a: Tree, m: Tree, ns: set<Proc>)
    requires a.Node? && Rep(S, a) && Distinct(a) && Within(S, S1, ns) && a.n !in ns && Nodes(a.l) !! ns && Nodes(m) == ns
    requires Rep(S1, m) && Distinct(m)
    ensures var S2 := S1[a.n := S1[a.n].(left := Ptr(m), right := Ptr(a.l))];
      var S3 := if m.Node? && m.n in S2 then S2[m.n := S2[m.n].(parent := a.n)] else S2;
      && Rep(S3, Node(a.n, m, a.l)) && Within(S, S3, ns + {a.n}) && S3[a.n].parent == S[a.n].parent
      && a.n in S1 && (m.Node? ==> m.n in S2 && m.n != a.n)
  {
    var S2 := S1[a.n := S1[a.n].(left := Ptr(m), right := Ptr(a.l))];
    var S3 := if m.Node? && m.n in S2 then S2[m.n := S2[m.n].(parent := a.n)] else S2;
    RepKeys(S, a.l);
    RepKeys(S1, m);
    assert a.l.Node? ==> a.l.n in Nodes(a.l);
    assert Rep(S3, a.l) by { RepFrame(S, S3, a.l); }
    assert Rep(S3, m) by { RepFrame(S1, S3, m); }
  }

  /** The end of one call of skew_heap_merge: the children of `a` are swapped and the merged tree is hung on the left. */
  method Hang(a: Proc, l: Proc?, r: Proc?, ghost S: Store, ghost S1: Store, ghost ta: Tree, ghost m: Tree, ghost ns: set<Proc>)
      returns (ghost S': Store)
    requires Mem(S1) && ta.Node? && ta.n == a && Rep(S, ta) && Distinct(ta) && Within(S, S1, ns)
    requires a !in ns && Nodes(ta.l) !! ns && Nodes(m) == ns && Rep(S1, m) && Distinct(m) && l == Ptr(m) && r == Ptr(ta.l)
    modifies {a} + ns
    ensures Mem(S') && Within(S, S', ns + {a}) && Rep(S', Node(a, m, ta.l)) && S'[a].parent == S[a].parent
  {
    Linked(S, S1, ta, m, ns);
    S' := SetLinks(a, l, r, S1);
    if l != null { S' := SetParent(l, a, S'); }
  }

  /** skew_heap_merge builds the tree `Merge` in `Calls` calls, and leaves the parent of the root alone. */
  method SkewMerge(a: Proc?, b: Proc?, ghost ta: Tree, ghost tb: Tree, ghost R: Ranks, ghost S: Store) returns (c: Proc?, ghost S': Store, ghost calls: nat)
    requires Mem(S) && Rep(S, ta) && Rep(S, tb) && a == Ptr(ta) && b == Ptr(tb)
    requires Distinct(ta) && Distinct(tb) && Nodes(ta) !! Nodes(tb) && Agrees(S, R, Nodes(ta) + Nodes(tb))
    modifies Nodes(ta) + Nodes(tb)
    ensures Mem(S') && Within(S, S', Nodes(ta) + Nodes(tb)) && Rep(S', Merge(ta, tb, R)) && c == Ptr(Merge(ta, tb, R))
    ensures (c != null ==> c in S && S'[c].parent == S[c].parent) && calls == Calls(ta, tb, R)
    decreases Size(ta) + Size(tb), 1
  {
    S', calls := S, 0;
    if a == null { return b, S, 0; }
    if b == null { return a, S, 0; }
    if Compare(a.stride, b.stride) == -1 {
      S', calls := FirstOnTop(a, b, ta, tb, R, S);
      c := a;
    } else {
      S', calls := SecondOnTop(a, b, ta, tb, R, S);
      c := b;
    }
  }

  /** The branch in which `a` stays on top. */
  method FirstOnTop(a: Proc, b: Proc, ghost ta: Tree, ghost tb: Tree, ghost R: Ranks, ghost S: Store) returns (ghost S': Store, ghost calls: nat)
    requires Mem(S) && Rep(S, ta) && Rep(S, tb) && a == Ptr(ta) && b == Ptr(tb)
    requires Distinct(ta) && Distinct(tb) && Nodes(ta) !! Nodes(tb) && Agrees(S, R, Nodes(ta) + Nodes(tb))
    requires Compare(a.stride, b.stride) == -1
    modifies Nodes(ta) + Nodes(tb)
    ensures Mem(S') && Within(S, S', Nodes(ta) + Nodes(tb)) && Rep(S', Merge(ta, tb, R)) && a == Ptr(Merge(ta, tb, R))
    ensures a in S && S'[a].parent == S[a].parent && calls == Calls(ta, tb, R)
    decreases Size(ta) + Size(tb), 0
  {
    var r := a.left;
    var l;
    MergeNodes(ta.r, tb, R);
    MergeDistinct(ta.r, tb, R);
    l, S', calls := SkewMerge(a.right, b, ta.r, tb, R, S);
    S' := Hang(a, l, r, S, S', ta, Merge(ta.r, tb, R), Nodes(ta.r) + Nodes(tb));
    calls := calls + 1;
  }

  /** The branch in which `b` does. */
  method SecondOnTop(a: Proc, b: Proc, ghost ta: Tree, ghost tb: Tree, ghost R: Ranks, ghost S: Store) returns (ghost S': Store, ghost calls: nat)
    requires Mem(S) && Rep(S, ta) && Rep(S, tb) && a == Ptr(ta) && b == Ptr(tb)
    requires Distinct(ta) && Distinct(tb) && Nodes(ta) !! Nodes(tb) && Agrees(S, R, Nodes(ta) + Nodes(tb))
    requires Compare(a.stride, b.stride) != -1
    modifies Nodes(ta) + Nodes(tb)
    ensures Mem(S') && Within(S, S', Nodes(ta) + Nodes(tb)) && Rep(S', Merge(ta, tb, R)) && b == Ptr(Merge(ta, tb, R))
    ensures b in S && S'[b].parent == S[b].parent && calls == Calls(ta, tb, R)
    decreases Size(ta) + Size(tb), 0
  {
    var r := b.left;
    var l;
    MergeNodes(ta, tb.r, R);
    MergeDistinct(ta, tb.r, R);
    l, S', calls := SkewMerge(a, b.right, ta, tb.r, R, S);
    S' := Hang(b, l, r, S, S', tb, Merge(ta, tb.r, R), Nodes(ta) + Nodes(tb.r));
    calls := calls + 1;
  }

  // ---------- Removal ----------

  function CtxParent(c: Ctx): Proc? { if c.Top? then null else c.n }

  /** `S` holds `c` around a place at which it points to `hole`. */
  ghost predicate RepCtx(S: Store, c: Ctx, hole: Proc?) {
    c.Frame? ==>
      && c.n in S && S[c.n].parent == CtxParent(c.up)
      && (if c.left then S[c.n].left == hole && S[c.n].right == Ptr(c.sib) else S[c.n].right == hole && S[c.n].left == Ptr(c.sib))
      && ParentIs(S, c.sib, c.n) && Rep(S, c.sib) && RepCtx(S, c.up, c.n)
  }

  /** A whole heap is a part of it and what is around that part. */
  lemma {:induction false} Focus(S: Store, c: Ctx, t: Tree)
    ensures Rep(S, Plug(c, t)) && ParentIs(S, Plug(c, t), null) <==> RepCtx(S, c, Ptr(t)) && Rep(S, t) && ParentIs(S, t, CtxParent(c))
  {
    if c.Frame? { Focus(S, c.up, if c.left then Node(c.n, t, c.sib) else Node(c.n, c.sib, t)); }
  }

  lemma {:induction false} RepCtxKeys(S: Store, c: Ctx, hole: Proc?)
    requires RepCtx(S, c, hole)
    ensures CtxNodes(c) <= S.Keys
  {
    if c.Frame? { RepKeys(S, c.sib); RepCtxKeys(S, c.up, c.n); }
  }

  lemma {:induction false} RepCtxFrame(S: Store, S': Store, c: Ctx, hole: Proc?)
    requires RepCtx(S, c, hole) && DistinctCtx(c) && forall x | x in CtxNodes(c) && x in S :: x in S' && S'[x] == S[x]
    ensures RepCtx(S', c, hole)
  {
    if c.Frame? {
      RepKeys(S, c.sib);
      RepFrame(S, S', c.sib);
      RepCtxFrame(S, S', c.up, c.n);
    }
  }

  /** The link of the parent to the place is changed. */
  lemma {:induction false} RepCtxHole(S: Store, c: Ctx, hole: Proc?, hole': Proc?)
    requires RepCtx(S, c, hole) && c.Frame? && DistinctCtx(c)
    ensures RepCtx(S[c.n := if c.left then S[c.n].(left := hole') else S[c.n].(right := hole')], c, hole')
  {
    var S' := S[c.n := if c.left then S[c.n].(left := hole') else S[c.n].(right := hole')];
    RepKeys(S, c.sib);
    RepFrame(S, S', c.sib);
    RepCtxFrame(S, S', c.up, c.n);
  }

  method SetChild(p: Proc, left: bool, v: Proc?, ghost S: Store) returns (ghost S': Store)
    requires Mem(S) && p in S
    modifies p
    ensures Mem(S') && S' == S[p := if left then S[p].(left := v) else S[p].(right := v)]
  {
    if left { p.left := v; } else { p.right := v; }
    S' := S[p := if left then S[p].(left := v) else S[p].(right := v)];
  }

  /** Memory after the merged children `m` have been hung into the place that `c` is around. */
  ghost function Rehung(S: Store, c: Ctx, m: Tree): Store {
    var S2 := if m.Node? && m.n in S then S[m.n := S[m.n].(parent := CtxParent(c))] else S;
    if c.Frame? && c.n in S2 then S2[c.n := if c.left then S2[c.n].(left := Ptr(m)) else S2[c.n].(right := Ptr(m))] else S2
  }

  lemma {:induction false} RehungIsHeap(S: Store, S1: Store, c: Ctx, b: Proc, m: Tree, ns: set<Proc>)
    requires RepCtx(S, c, b) && DistinctCtx(c) && Within(S, S1, ns) && ns !! CtxNodes(c) && b !in CtxNodes(c)
    requires Rep(S1, m) && Distinct(m) && Nodes(m) <= ns
    ensures var S' := Rehung(S1, c, m);
      Rep(S', Plug(c, m)) && ParentIs(S', Plug(c, m), null) && Within(S, S', CtxNodes(c) + ns)
  {
    var S2 := if m.Node? && m.n in S1 then S1[m.n := S1[m.n].(parent := CtxParent(c))] else S1;
    RepCtxKeys(S, c, b);
    RepKeys(S1, m);
    RepCtxFrame(S, S2, c, b);
    RepFrame(S1, S2, m);
    if c.Frame? {
      RepCtxHole(S2, c, b, Ptr(m));
      RepFrame(S2, Rehung(S1, c, m), m);
    }
    Focus(Rehung(S1, c, m), c, m);
  }

  /** skew_heap_remove of any process in the heap. */
  method SkewRemove(a: Proc?, b: Proc, ghost t: Tree, ghost R: Ranks, ghost S: Store) returns (root: Proc?, ghost S': Store, ghost calls: nat)
    requires Mem(S) && Rep(S, t) && ParentIs(S, t, null) && a == Ptr(t) && b in Nodes(t) && Distinct(t) && Agrees(S, R, Nodes(t) - {b})
    modifies Nodes(t)
    ensures Mem(S') && Within(S, S', Nodes(t)) && Rep(S', Remove(t, b, R)) && root == Ptr(Remove(t, b, R)) && ParentIs(S', Remove(t, b, R), null)
    ensures b == t.n ==> calls == CallsOf(t, TakeRoot(R))
  {
    ghost var (c, u) := Find(t, b, Top);
    ghost var m, ns := Merge(u.l, u.r, R), Nodes(u.l) + Nodes(u.r);
    Placed(S, t, b, c, u);
    MergeNodes(u.l, u.r, R);
    MergeDistinct(u.l, u.r, R);
    var p := b.parent;
    var rep;
    rep, S', calls := SkewMerge(b.left, b.right, u.l, u.r, R, S);
    root, S' := PutInPlace(a, b, p, rep, c, u, m, ns, S, S');
  }

  /** The merged children of `b` take its place below `p`. */
  method PutInPlace(a: Proc?, b: Proc, p: Proc?, rep: Proc?, ghost c: Ctx, ghost u: Tree, ghost m: Tree, ghost ns: set<Proc>, ghost S: Store, ghost S1: Store)
      returns (root: Proc?, ghost S': Store)
    requires Mem(S1) && RepCtx(S, c, b) && DistinctCtx(c) && Within(S, S1, ns) && ns !! CtxNodes(c) && b !in CtxNodes(c) && b !in ns
    requires Rep(S1, m) && Distinct(m) && Nodes(m) == ns && rep == Ptr(m) && p == CtxParent(c) && u.Node? && u.n == b
    requires a == Ptr(Plug(c, u)) && (c.Frame? ==> (c.left <==> c.n in S && S[c.n].left == b))
    modifies CtxNodes(c) + ns
    ensures Mem(S') && Within(S, S', CtxNodes(c) + ns) && Rep(S', Plug(c, m)) && root == Ptr(Plug(c, m)) && ParentIs(S', Plug(c, m), null)
  {
    RehungIsHeap(S, S1, c, b, m, ns);
    RepKeys(S1, m);
    RepCtxKeys(S, c, b);
    SameRoot(c, u, m);
    assert c.Frame? ==> c.n in S && S1[c.n] == S[c.n];
    hide Rep, RepCtx, DistinctCtx, Distinct, Plug, ParentIs, Within;
    S' := S1;
    if rep != null { S' := SetParent(rep, p, S'); }
    if p != null {
      S' := SetChild(p, p.left == b, rep, S');
      root := a;
    } else {
      root := rep;
    }
  }

  /** The part of a heap below `b`, and what is around it. */
  lemma {:induction false} Placed(S: Store, t: Tree, b: Proc, c: Ctx, u: Tree)
    requires Rep(S, t) && ParentIs(S, t, null) && b in Nodes(t) && Distinct(t) && (c, u) == Find(t, b, Top)
    ensures u.Node? && u.n == b && RepCtx(S, c, b) && Rep(S, u) && ParentIs(S, u, CtxParent(c)) && DistinctCtx(c) && Distinct(u)
    ensures Nodes(t) == CtxNodes(c) + Nodes(u) && Nodes(u) !! CtxNodes(c)
    ensures c.Frame? ==> (c.left <==> S[c.n].left == b)
  {
    Focus(S, c, u);
    PlugNodes(c, u);
    PlugDistinct(c, u);
  }

  lemma {:induction false} SameRoot(c: Ctx, u: Tree, m: Tree)
    ensures Ptr(Plug(c, m)) == if c.Top? then Ptr(m) else Ptr(Plug(c, u))
  {
    if c.Frame? {
      SameRoot(c.up, if c.left then Node(c.n, u, c.sib) else Node(c.n, c.sib, u), if c.left then Node(c.n, m, c.sib) else Node(c.n, c.sib, m));
    }
  }
}
