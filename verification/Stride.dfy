/** The stride scheduler (schedule/default_sched.c): the run queue, and what it guarantees over whole runs. */
module Stride {
  import opened SkewTree
  import opened SkewHeap

  /** What a turn adds to the stride of a process. */
  function Pass(priority: nat): (r: int)
    ensures 0 <= r <= BIG_STRIDE
  {
    if priority == 0 then BIG_STRIDE else BIG_STRIDE / priority
  }

  /** BIG_STRIDE for priority 0, and for any other the largest number that goes into BIG_STRIDE so many times. */
  lemma {:induction false} PassIs(priority: nat)
    ensures var x := Pass(priority);
      x >= 0 && if priority == 0 then x == BIG_STRIDE else priority * x <= BIG_STRIDE < priority * (x + 1)
    ensures Pass(priority) > 0 <==> priority <= BIG_STRIDE
  {
    if priority > 0 { Quotient(BIG_STRIDE, priority); }
  }

  lemma {:induction false} Quotient(a: nat, b: nat)
    requires b > 0
    ensures b * (a / b) <= a < b * (a / b + 1) && (a / b > 0 <==> b <= a)
  {
    var q := a / b;
    assert a == b * q + a % b;
    if b <= a { assert q > 0; }
  }

  /** The ranks after the one of `p` has changed. */
  function SetRank(R: Ranks, p: Proc, rank: int): Ranks { R[p := rank] }

  /** The true, unbounded strides `R` of the processes `ns` are within BIG_STRIDE of each other. */
  ghost predicate Windowed(R: Ranks, ns: set<Proc>) {
    forall x, y | x in ns && y in ns :: Rank(R, x) - Rank(R, y) <= BIG_STRIDE
  }

  /** What is stored are the true strides modulo 2^32. */
  ghost predicate Stored(S: Store, R: Ranks, ns: set<Proc>) {
    forall x | x in ns :: x in S && S[x].stride == Rank(R, x) % WRAP
  }

  lemma {:induction false} WindowMeansAgreement(S: Store, R: Ranks, ns: set<Proc>)
    requires Windowed(R, ns) && Stored(S, R, ns)
    ensures Agrees(S, R, ns)
  {
    forall x, y | x in ns && y in ns && x in S && y in S
      ensures Compare(S[x].stride, S[y].stride) == -1 <==> Rank(R, x) < Rank(R, y)
    {
      WindowAgrees(Rank(R, x), Rank(R, y));
    }
  }

  lemma {:induction false} StoredWithin(S: Store, S': Store, R: Ranks, ns: set<Proc>, changed: set<Proc>)
    requires Stored(S, R, ns) && Within(S, S', changed)
    ensures Stored(S', R, ns)
  {
  }

  /** The heap `T` in memory. */
  ghost predicate Heap(S: Store, T: Tree) {
    S.Keys == Nodes(T) && Rep(S, T) && ParentIs(S, T, null) && Distinct(T)
  }

  ghost predicate Order(S: Store, T: Tree, R: Ranks) {
    Windowed(R, Nodes(T)) && Stored(S, R, Nodes(T))
  }

  /** Ordered but for the root, whose stride has just been raised. */
  predicate OrderedBelow(T: Tree, R: Ranks) { T.Node? && Ordered(T.l, R) && Ordered(T.r, R) }

  lemma {:induction false} OrderedElsewhere(t: Tree, R: Ranks, R': Ranks)
    requires Ordered(t, R) && forall x | x in Nodes(t) :: Rank(R', x) == Rank(R, x)
    ensures Ordered(t, R')
  {
    if t.Node? {
      OrderedElsewhere(t.l, R, R');
      OrderedElsewhere(t.r, R, R');
    }
  }

  /** Raising the stride of the least process by its pass keeps the window. */
  lemma {:induction false} RaiseKeepsWindow(R: Ranks, ns: set<Proc>, p: Proc, pass: int)
    requires Windowed(R, ns) && p in ns && 0 <= pass <= BIG_STRIDE && forall q | q in ns :: Rank(R, p) <= Rank(R, q)
    ensures Windowed(R[p := Rank(R, p) + pass], ns)
  {
  }

  lemma {:induction false} KeysAreNodes(S: Store, T: Tree)
    requires Heap(S, T)
    ensures S.Keys == Nodes(T)
  {
  }

  /** A heap and a new process beside it can be merged. */
  lemma {:induction false} JoinShape(S: Store, T: Tree, proc: Proc, S1: Store)
    requires Heap(S, T) && proc !in Nodes(T) && proc in S1 && S1 == S[proc := S1[proc]]
    requires S1[proc].left == null && S1[proc].right == null && S1[proc].parent == null
    ensures var one := Node(proc, Leaf, Leaf);
      && S1.Keys == Nodes(T) + Nodes(one) && Distinct(T) && ParentIs(S1, T, null) && ParentIs(S1, one, null)
      && Rep(S1, T) && Rep(S1, one) && Distinct(one) && Nodes(one) == {proc}
  {
    assert Nodes(Node(proc, Leaf, Leaf)) == {proc};
    RepFrame(S, S1, T);
  }

  lemma {:induction false} JoinOrder(S: Store, T: Tree, R: Ranks, proc: Proc, rank: int, S1: Store)
    requires Order(S, T, R) && Ordered(T, R) && proc !in Nodes(T) && proc in S1 && S1 == S[proc := S1[proc]] && S1[proc].stride == rank % WRAP
    requires forall q | q in Nodes(T) :: -BIG_STRIDE <= rank - Rank(R, q) <= BIG_STRIDE
    ensures var R' := R[proc := rank];
      Ordered(T, R') && Ordered(Node(proc, Leaf, Leaf), R') && Windowed(R', Nodes(T) + {proc}) && Stored(S1, R', Nodes(T) + {proc})
  {
    OrderedElsewhere(T, R, R[proc := rank]);
  }

  lemma {:induction false} Joined(T: Tree, one: Tree, R: Ranks, S1: Store, S2: Store)
    requires one.Node? && Distinct(T) && Distinct(one) && Nodes(T) !! Nodes(one) && Ordered(T, R) && Ordered(one, R)
    requires S1.Keys == Nodes(T) + Nodes(one) && Within(S1, S2, S1.Keys) && Rep(S2, Merge(T, one, R))
    requires Windowed(R, S1.Keys) && Stored(S1, R, S1.Keys)
    requires var m := Merge(T, one, R); m.Node? ==> m.n in S1 && S2[m.n].parent == S1[m.n].parent
    requires ParentIs(S1, T, null) && ParentIs(S1, one, null)
    ensures Heap(S2, Merge(T, one, R)) && Order(S2, Merge(T, one, R), R) && Ordered(Merge(T, one, R), R) && Size(Merge(T, one, R)) == Size(T) + Size(one)
  {
    MergeNodes(T, one, R);
    MergeDistinct(T, one, R);
    MergeOrdered(T, one, R);
    StoredWithin(S1, S2, R, S1.Keys, S1.Keys);
  }

  lemma {:induction false} SliceKeeps(S: Store, T: Tree, R: Ranks, x: Proc, slice: nat)
    requires Heap(S, T) && Order(S, T, R) && x in S
    ensures Heap(S[x := S[x].(slice := slice)], T) && Order(S[x := S[x].(slice := slice)], T, R)
  {
    RepFrame(S, S[x := S[x].(slice := slice)], T);
  }

  lemma {:induction false} RemoveReady(S: Store, T: Tree, R: Ranks, b: Proc)
    requires Heap(S, T) && Order(S, T, R) && b in Nodes(T)
    ensures Agrees(S, R, Nodes(T) - {b})
  {
    WindowMeansAgreement(S, R, Nodes(T));
  }

  lemma {:induction false} Taken(S: Store, T: Tree, R: Ranks, b: Proc, S1: Store)
    requires Heap(S, T) && Order(S, T, R) && b in Nodes(T) && (Ordered(T, R) || (OrderedBelow(T, R) && T.n == b))
    requires Within(S, S1, Nodes(T)) && Rep(S1, Remove(T, b, R)) && ParentIs(S1, Remove(T, b, R), null)
    ensures Heap(S1 - {b}, Remove(T, b, R)) && Order(S1 - {b}, Remove(T, b, R), R) && Ordered(Remove(T, b, R), R)
    ensures Nodes(Remove(T, b, R)) == Nodes(T) - {b} && Size(Remove(T, b, R)) == Size(T) - 1
  {
    RemoveIsRight(T, b, R);
    RepFrame(S1, S1 - {b}, Remove(T, b, R));
    StoredWithin(S, S1, R, Nodes(T), Nodes(T));
    if !Ordered(T, R) { MergeOrdered(T.l, T.r, R); }
  }

  /** The root may be raised where it is. */
  lemma {:induction false} PickReady(S: Store, T: Tree, R: Ranks, pass: int)
    requires Heap(S, T) && Order(S, T, R) && Ordered(T, R) && T.Node? && 0 <= pass <= BIG_STRIDE
    ensures T.n in S
    ensures var R', S' := R[T.n := Rank(R, T.n) + pass], S[T.n := S[T.n].(stride := (S[T.n].stride + pass) % WRAP)];
      Heap(S', T) && Order(S', T, R') && OrderedBelow(T, R')
  {
    PickOrder(S, T, R, pass);
    hide Order, Rank;
    RepFrame(S, S[T.n := S[T.n].(stride := (S[T.n].stride + pass) % WRAP)], T);
    OrderedElsewhere(T.l, R, R[T.n := Rank(R, T.n) + pass]);
    OrderedElsewhere(T.r, R, R[T.n := Rank(R, T.n) + pass]);
  }

  lemma {:induction false} PickOrder(S: Store, T: Tree, R: Ranks, pass: int)
    requires Heap(S, T) && Order(S, T, R) && Ordered(T, R) && T.Node? && 0 <= pass <= BIG_STRIDE
    ensures T.n in S
    ensures Order(S[T.n := S[T.n].(stride := (S[T.n].stride + pass) % WRAP)], T, R[T.n := Rank(R, T.n) + pass])
  {
    RootIsLeast(T, R);
    KeysAreNodes(S, T);
    hide Heap, Ordered;
    RaiseKeepsWindow(R, Nodes(T), T.n, pass);
    AddWraps(Rank(R, T.n), pass);
  }

  lemma {:induction false} RootFits(S: Store, T: Tree, R: Ranks)
    requires Heap(S, T) && Order(S, T, R) && T.Node?
    ensures T.n in S && S[T.n].stride == Rank(R, T.n) % WRAP
    ensures forall q | q in Nodes(T) :: -BIG_STRIDE <= Rank(R, T.n) - Rank(R, q) <= BIG_STRIDE
  {
    KeysAreNodes(S, T);
  }

  lemma {:induction false} AddWraps(a: int, pass: int)
    ensures (a % WRAP + pass) % WRAP == (a + pass) % WRAP
  {
  }

  /** skew_heap_insert: the node is initialised and merged with the heap. */
  method SkewInsert(a: Proc?, b: Proc, ghost T: Tree, ghost R: Ranks, ghost rank: int, ghost S: Store)
      returns (root: Proc?, ghost S': Store, ghost calls: nat)
    requires Mem(S) && Heap(S, T) && Order(S, T, R) && Ordered(T, R) && a == Ptr(T) && b !in Nodes(T) && b.stride == rank % WRAP
    requires forall q | q in Nodes(T) :: -BIG_STRIDE <= rank - Rank(R, q) <= BIG_STRIDE
    modifies S.Keys, b
    ensures var R' := R[b := rank];
      var m := Merge(T, Node(b, Leaf, Leaf), R');
      && Mem(S') && Heap(S', m) && Order(S', m, R') && Ordered(m, R') && root == Ptr(m) && Size(m) == Size(T) + 1 && Nodes(m) == Nodes(T) + {b}
    ensures calls == CallsOf(T, SkewTree.Put(R[b := rank], b))
    ensures b in S' && b.stride == old(b.stride) && b.priority == old(b.priority) && b.timeSlice == old(b.timeSlice)
    ensures forall q | q in S :: q.priority == old(q.priority) && q.timeSlice == old(q.timeSlice)
  {
    ghost var R', one := R[b := rank], Node(b, Leaf, Leaf);
    KeysAreNodes(S, T);
    b.left, b.right, b.parent := null, null, null;
    ghost var S1 := S[b := Links(null, null, null, b.stride, b.priority, b.timeSlice)];
    assert Mem(S1);
    JoinShape(S, T, b, S1);
    JoinOrder(S, T, R, b, rank, S1);
    WindowMeansAgreement(S1, R', Nodes(T) + {b});
    MergeNodes(T, one, R');
    hide Heap, Order, Ordered, Windowed, Stored, Rep, Merge, Distinct, Agrees;
    root, S', calls := SkewMerge(a, b, T, one, R', S1);
    Joined(T, one, R', S1, S');
  }

  class RunQueue {
    var pool: Proc?
    var procNum: nat
    const maxTimeSlice: nat
    ghost var T: Tree
    ghost var S: Store
    ghost var R: Ranks

    ghost predicate Linked()
      reads this, S.Keys
    {
      Mem(S) && Heap(S, T) && pool == Ptr(T) && procNum == Size(T) && Order(S, T, R)
    }

    ghost predicate Valid()
      reads this, S.Keys
    {
      Linked() && Ordered(T, R)
    }

    /** `p` is the root and has been picked, but not taken out. */
    ghost predicate Picked(p: Proc)
      reads this, S.Keys
    {
      Linked() && OrderedBelow(T, R) && T.n == p
    }

    /** The stored stride of `p` is its true one, which is inside the window of the processes `ns`. */
    ghost predicate Fits(p: Proc, ns: set<Proc>)
      reads this, p
    {
      p.stride == Rank(R, p) % WRAP && forall q | q in ns :: -BIG_STRIDE <= Rank(R, p) - Rank(R, q) <= BIG_STRIDE
    }

    /** The processes in the queue. */
    ghost function Contents(): set<Proc>
      reads this
    {
      Nodes(T)
    }

    /** The counter of the queue is right. */
    lemma {:induction false} CountIsRight()
      requires Valid()
      ensures procNum == |Contents()|
    {
      hide Order, Ordered, Rep;
      SizeIsCount(T);
    }

    /** stride_init */
    constructor (maxTimeSlice: nat)
      ensures Valid() && Contents() == {} && this.maxTimeSlice == maxTimeSlice
    {
      pool, procNum, this.maxTimeSlice, T, S, R := null, 0, maxTimeSlice, Leaf, map[], map[];
    }

    ghost method Record(T': Tree, S': Store, R': Ranks)
      requires Mem(S') && Heap(S', T') && Order(S', T', R') && pool == Ptr(T') && procNum == Size(T')
      modifies `T, `S, `R
      ensures T == T' && S == S' && R == R' && Linked()
    {
      T, S, R := T', S', R';
    }

    /** The insertion of stride_enqueue. */
    method Put(proc: Proc, ghost rank: int)
      requires Valid() && proc !in Contents() && proc.stride == rank % WRAP
      requires forall q | q in Contents() :: -BIG_STRIDE <= rank - Rank(R, q) <= BIG_STRIDE
      modifies this, S.Keys, proc
      ensures Valid() && Contents() == old(Contents()) + {proc} && R == SetRank(old(R), proc, rank) && procNum == old(procNum) + 1
      ensures proc.stride == old(proc.stride) && proc.priority == old(proc.priority) && proc.timeSlice == old(proc.timeSlice)
      ensures forall q | q in old(Contents()) :: q.priority == old(q.priority) && q.timeSlice == old(q.timeSlice)
      ensures S.Keys == old(S.Keys) + {proc}
    {
      KeysAreNodes(S, T);
      hide Heap, Order, Ordered, Windowed, Stored, Merge;
      ghost var R', T' := R[proc := rank], Merge(T, Node(proc, Leaf, Leaf), R[proc := rank]);
      ghost var S2;
      ghost var calls;
      pool, S2, calls := SkewInsert(pool, proc, T, R, rank, S);
      procNum := procNum + 1;
      KeysAreNodes(S2, T');
      Record(T', S2, R');
    }

    /** A process that has used up its time slice gets a new one. */
    method RenewSlice(proc: Proc)
      requires Valid() && proc in Contents()
      modifies this`S, this`T, this`R, proc`timeSlice
      ensures Valid() && Contents() == old(Contents()) && R == old(R) && S.Keys == old(S.Keys)
      ensures proc.timeSlice == if old(proc.timeSlice) == 0 || old(proc.timeSlice) > maxTimeSlice then maxTimeSlice else old(proc.timeSlice)
    {
      KeysAreNodes(S, T);
      hide Heap, Order, Ordered;
      if proc.timeSlice == 0 || proc.timeSlice > maxTimeSlice {
        SliceKeeps(S, T, R, proc, maxTimeSlice);
        proc.timeSlice := maxTimeSlice;
        Record(T, S[proc := S[proc].(slice := maxTimeSlice)], R);
      }
    }

    /** stride_enqueue of a process whose true stride is `rank`, inside the window. */
    method Enqueue(proc: Proc, ghost rank: int)
      requires Valid() && proc !in Contents() && proc.stride == rank % WRAP
      requires forall q | q in Contents() :: -BIG_STRIDE <= rank - Rank(R, q) <= BIG_STRIDE
      modifies this, S.Keys, proc
      ensures Valid() && Contents() == old(Contents()) + {proc} && R == SetRank(old(R), proc, rank) && procNum == old(procNum) + 1
      ensures proc.timeSlice == if old(proc.timeSlice) == 0 || old(proc.timeSlice) > maxTimeSlice then maxTimeSlice else old(proc.timeSlice)
      ensures proc.stride == old(proc.stride) && proc.priority == old(proc.priority)
      ensures forall q | q in old(Contents()) :: q.priority == old(q.priority) && q.timeSlice == old(q.timeSlice)
      ensures S.Keys == old(S.Keys) + {proc}
    {
      KeysAreNodes(S, T);
      hide Valid;
      Put(proc, rank);
      RenewSlice(proc);
    }

    /** stride_dequeue of any process, or of the root that has been picked. */
    method Dequeue(proc: Proc)
      requires proc in Contents() && (Valid() || Picked(proc))
      modifies this, S.Keys
      ensures Valid() && Contents() == old(Contents()) - {proc} && R == old(R) && procNum == old(procNum) - 1
      ensures proc.stride == old(proc.stride) && proc.priority == old(proc.priority)
      ensures forall q | q in old(Contents()) :: q.priority == old(q.priority) && q.timeSlice == old(q.timeSlice)
      ensures S.Keys == Contents()
    {
      hide Order, Ordered, Windowed, Stored, Rep, Merge, Distinct, Agrees, Remove;
      KeysAreNodes(S, T);
      ghost var S1;
      RemoveReady(S, T, R, proc);
      ghost var calls;
      pool, S1, calls := SkewRemove(pool, proc, T, R, S);
      Taken(S, T, R, proc, S1);
      procNum := procNum - 1;
      Record(Remove(T, proc, R), S1 - {proc}, R);
    }

    /** The write of stride_pick_next: the root `p` gets its pass on top. */
    method RaiseRoot(p: Proc)
      requires Valid() && p == pool
      modifies `T, `S, `R, p`stride
      ensures T == old(T) && S.Keys == old(S.Keys) && Picked(p) && R == old(R)[p := Rank(old(R), p) + Pass(p.priority)]
      ensures p.stride == (old(p.stride) + Pass(p.priority)) % WRAP
    {
      hide Order, Ordered, Windowed, Stored, Rep, Distinct, Agrees, Within;
      var pass := Pass(p.priority);
      PickReady(S, T, R, pass);
      hide Heap, Size;
      ghost var R' := R[p := Rank(R, p) + pass];
      p.stride := (p.stride + pass) % WRAP;
      Record(T, S[p := S[p].(stride := p.stride)], R');
    }

    /** stride_pick_next: a process of least stride, whose stride is raised while it is still in the heap. */
    method PickNext() returns (p: Proc?)
      requires Valid()
      modifies this, S.Keys
      ensures p == null <==> Contents() == {}
      ensures Contents() == old(Contents()) && procNum == old(procNum) && S.Keys == old(S.Keys)
      ensures p == null ==> Valid() && R == old(R)
      ensures p != null ==> p in Contents() && Picked(p) && (forall q | q in Contents() :: Rank(old(R), p) <= Rank(old(R), q))
      ensures p != null ==> R == SetRank(old(R), p, Rank(old(R), p) + Pass(p.priority)) && Fits(p, Contents())
      ensures p != null ==> var x, k := Rank(R, p) - Rank(old(R), p), p.priority;
        p.stride == (old(p.stride) + x) % WRAP && x >= 0 && if k == 0 then x == BIG_STRIDE else k * x <= BIG_STRIDE < k * (x + 1)
      ensures forall q | q in Contents() :: q.priority == old(q.priority) && q.timeSlice == old(q.timeSlice)
    {
      hide Ordered, Windowed, Stored, Rep, Distinct, Agrees, Within;
      if pool == null { return null; }
      p := pool;
      RootIsLeast(T, R);
      RaiseRoot(p);
      hide Heap, Order, Size;
      RootFits(S, T, R);
      PassIs(p.priority);
    }

    /** The part of schedule() that concerns the queue: `current` goes in, and a process of least stride comes out,
        ready to go in again in the next turn. */
    method Turn(current: Proc, ghost rank: int) returns (next: Proc)
      requires Valid() && current !in Contents() && current.stride == rank % WRAP
      requires forall q | q in Contents() :: -BIG_STRIDE <= rank - Rank(R, q) <= BIG_STRIDE
      modifies this, S.Keys, current
      ensures Valid() && next in old(Contents()) + {current} && Contents() == old(Contents()) + {current} - {next}
      ensures var R' := SetRank(old(R), current, rank);
        && (forall q | q in old(Contents()) + {current} :: Rank(R', next) <= Rank(R', q))
        && R == SetRank(R', next, Rank(R', next) + Pass(next.priority))
      ensures var x, k := Rank(R, next) - Rank(SetRank(old(R), current, rank), next), next.priority;
        x >= 0 && if k == 0 then x == BIG_STRIDE else k * x <= BIG_STRIDE < k * (x + 1)
      ensures Fits(next, Contents())
      ensures forall q | q in old(Contents()) + {current} :: q.priority == old(q.priority)
      ensures S.Keys == Contents()
    {
      hide Valid, Picked, SetRank, Rank, Pass;
      Enqueue(current, rank);
      ghost var R1, all := R, Contents();
      next := PickNext();
      assert R == SetRank(R1, next, Rank(R1, next) + Pass(next.priority)) && Contents() == all;
      RankOfPicked(R1, R, next, Pass(next.priority));
      PassIs(next.priority);
      Dequeue(next);
    }

    /** What holds between turns for the process that runs: its true stride is that of `R'`, and so are all others. */
    ghost predicate Ready(current: Proc, R': Ranks)
      reads this, S.Keys, current
    {
      && Valid() && S.Keys == Contents() && current !in Contents() && current.stride == Rank(R', current) % WRAP
      && R' == SetRank(R, current, Rank(R', current))
      && forall q | q in Contents() :: -BIG_STRIDE <= Rank(R', current) - Rank(R', q) <= BIG_STRIDE
    }

    /** A turn in terms of the ranks of all processes. */
    method OneTurn(current: Proc, ghost R0: Ranks, ghost pass: Ranks) returns (next: Proc)
      requires Ready(current, R0) && pass.Keys == Contents() + {current} && forall q | q in Contents() + {current} :: pass[q] == Pass(q.priority)
      modifies this, S.Keys, current
      ensures Ready(next, R) && Contents() + {next} == pass.Keys
      ensures IsTurn(Ranked(R0, pass.Keys), pass, next) && Ranked(R, pass.Keys) == Raised(Ranked(R0, pass.Keys), pass, next)
      ensures forall q | q in pass :: q.priority == old(q.priority)
    {
      hide Valid, Pass;
      next := Turn(current, Rank(R0, current));
      RankedTurn(R0, R, pass.Keys, pass, next);
    }

    /** `n` turns. They are a run from the ranks `R0` to the ranks `R'`: every process has moved by its pass as often as it was
        picked, all are inside the window, any two have had their turns in proportion to their priorities, and nobody starves. */
    method Turns(current: Proc, n: nat, ghost R0: Ranks)
        returns (next: Proc, ghost picks: seq<Proc>, ghost R': Ranks, ghost pass: Ranks, ghost prio: Priorities)
      requires Ready(current, R0)
      modifies this, S.Keys, current
      ensures Ready(next, R') && Contents() + {next} == old(Contents()) + {current} == pass.Keys && |picks| == n
      ensures prio.Keys == pass.Keys && forall q | q in pass :: prio[q] == q.priority == old(q.priority)
      ensures forall q | q in pass ::
        pass[q] >= 0 && if prio[q] == 0 then pass[q] == BIG_STRIDE else prio[q] * pass[q] <= BIG_STRIDE < prio[q] * (pass[q] + 1)
      ensures RunIs(Ranked(R0, pass.Keys), pass, picks, Ranked(R', pass.Keys))
      ensures RunInPriorities(Ranked(R0, pass.Keys), pass, prio, picks)
    {
      ghost var ns := S.Keys + {current};
      AllInWindow(R, Contents(), current, R0);
      pass, prio := Passes(ns), map q | q in ns :: q.priority;
      hide Valid, Pass, IsRun, RunIs, InWindow, RunInPriorities;
      next, picks, R' := TurnAfterTurn(current, n, R0, pass);
      PassesFit(pass, prio);
      RunMeans(Ranked(R0, ns), pass, prio, picks, Ranked(R', ns));
    }

    method TurnAfterTurn(current: Proc, n: nat, ghost R0: Ranks, ghost pass: Ranks) returns (next: Proc, ghost picks: seq<Proc>, ghost R': Ranks)
      requires Ready(current, R0) && pass.Keys == Contents() + {current} && forall q | q in pass :: pass[q] == Pass(q.priority)
      modifies this, S.Keys, current
      ensures Ready(next, R') && Contents() + {next} == pass.Keys && |picks| == n
      ensures forall q | q in pass :: q.priority == old(q.priority)
      ensures IsRun(Ranked(R0, pass.Keys), pass, picks, Ranked(R', pass.Keys))
    {
      hide Valid, Pass, IsRun, IsTurn;
      next, picks, R' := current, [], R0;
      NoTurns(Ranked(R0, pass.Keys), pass);
      var i := 0;
      while i < n
        invariant i <= n && |picks| == i && Ready(next, R') && Contents() + {next} == pass.Keys
        invariant (forall q | q in pass :: q.priority == old(q.priority)) && IsRun(Ranked(R0, pass.Keys), pass, picks, Ranked(R', pass.Keys))
      {
        ghost var was := R';
        next := OneTurn(next, was, pass);
        R' := R;
        OneTurnMore(Ranked(R0, pass.Keys), pass, picks, Ranked(was, pass.Keys), next);
        picks := picks + [next];
        i := i + 1;
      }
    }
  }

  lemma {:induction false} PassesFit(pass: Ranks, prio: Priorities)
    requires pass.Keys == prio.Keys && forall q | q in pass :: pass[q] == Pass(prio[q])
    ensures PassesOf(pass, prio)
    ensures forall q | q in pass ::
      pass[q] >= 0 && if prio[q] == 0 then pass[q] == BIG_STRIDE else prio[q] * pass[q] <= BIG_STRIDE < prio[q] * (pass[q] + 1)
  {
    hide Pass;
    forall q | q in pass ensures PassOf(pass[q], prio[q]) { PassIs(prio[q]); }
  }

  lemma {:induction false} RunMeans(R: Ranks, pass: Ranks, prio: Priorities, picks: seq<Proc>, R': Ranks)
    requires InWindow(R) && IsRun(R, pass, picks, R') && PassesOf(pass, prio) && R.Keys == pass.Keys
    requires forall q | q in pass :: pass[q] == Pass(prio[q])
    ensures RunIs(R, pass, picks, R') && RunInPriorities(R, pass, prio, picks)
  {
    assert Passing(R, pass);
    hide IsRun, InWindow, PassesOf, RunIs, RunInPriorities;
    RunIsFair(R, pass, picks, R');
    PriorityRun(R, pass, prio, picks, R');
  }

  // ---------- Whole runs with a fixed set of processes ----------

  /** A run: in each turn a process of least stride is picked, and its stride grows by its pass. */
  ghost predicate IsRun(R: Ranks, pass: Ranks, picks: seq<Proc>, R': Ranks)
    decreases |picks|
  {
    if picks == [] then R' == R
    else IsTurn(R, pass, picks[0]) && IsRun(Raised(R, pass, picks[0]), pass, picks[1..], R')
  }

  ghost predicate IsTurn(R: Ranks, pass: Ranks, p: Proc) {
    p in R && p in pass && forall q | q in R :: R[p] <= R[q]
  }

  function Raised(R: Ranks, pass: Ranks, p: Proc): Ranks
    requires p in R && p in pass
  {
    R[p := R[p] + pass[p]]
  }

  function Times(picks: seq<Proc>, p: Proc): nat {
    if picks == [] then 0 else (if picks[0] == p then 1 else 0) + Times(picks[1..], p)
  }

  ghost predicate InWindow(R: Ranks) {
    forall x, y | x in R && y in R :: R[x] - R[y] <= BIG_STRIDE
  }

  ghost predicate Passing(R: Ranks, pass: Ranks) { R.Keys == pass.Keys && forall p | p in pass :: 0 <= pass[p] <= BIG_STRIDE }

  /** Strides stay within BIG_STRIDE of each other, and each process has moved by its pass as often as it was picked. */
  lemma {:induction false} RunsKeepTheWindow(R: Ranks, pass: Ranks, picks: seq<Proc>, R': Ranks)
    requires InWindow(R) && Passing(R, pass) && IsRun(R, pass, picks, R')
    ensures R'.Keys == R.Keys && InWindow(R') && forall p | p in R :: R'[p] == R[p] + Times(picks, p) * pass[p]
    decreases |picks|
  {
    if picks != [] {
      var p0 := picks[0];
      RunsKeepTheWindow(Raised(R, pass, p0), pass, picks[1..], R');
      forall p | p in R ensures R'[p] == R[p] + Times(picks, p) * pass[p] {
        OneMore(Times(picks[1..], p), pass[p]);
      }
    }
  }

  lemma {:induction false} OneMore(n: int, x: int)
    ensures (n + 1) * x == n * x + x
  {
  }

  /** Every two processes get their turns in proportion: the products of turns and pass differ by at most BIG_STRIDE
      and the distance at the start. */
  lemma {:induction false} TurnsAreFair(R: Ranks, pass: Ranks, picks: seq<Proc>, R': Ranks, p: Proc, q: Proc)
    requires InWindow(R) && Passing(R, pass) && IsRun(R, pass, picks, R')
    requires p in R && q in R
    ensures Times(picks, p) * pass[p] - Times(picks, q) * pass[q] <= BIG_STRIDE + R[q] - R[p]
  {
    RunsKeepTheWindow(R, pass, picks, R');
  }

  // ---------- Everybody gets a turn ----------

  /** How often one can move by `x` before it is more than `d` ahead. */
  function Rounds(d: int, x: int): int
    requires x > 0
  {
    if d < 0 then 0 else d / x + 1
  }

  /** While `p` is not picked, another process is picked only as long as its stride is not above that of `p`. */
  lemma {:induction false} TurnsAhead(R: Ranks, pass: Ranks, picks: seq<Proc>, R': Ranks, p: Proc, q: Proc)
    requires R.Keys == pass.Keys && IsRun(R, pass, picks, R') && p in R && q in R && pass[q] > 0 && Times(picks, p) == 0
    ensures Times(picks, q) <= Rounds(R[p] - R[q], pass[q])
    decreases |picks|
  {
    if picks == [] { assert Rounds(R[p] - R[q], pass[q]) >= 0 by { SomeRounds(R[p] - R[q], pass[q]); } }
    else {
      TurnsAhead(Raised(R, pass, picks[0]), pass, picks[1..], R', p, q);
      hide Rounds;
      if picks[0] == q { OneRoundLess(R[p] - R[q], pass[q]); }
    }
  }

  lemma {:induction false} SomeRounds(d: int, x: int)
    requires x > 0
    ensures Rounds(d, x) >= 0
  {
    if d >= 0 { Division(d, x, d / x); }
  }

  lemma {:induction false} OneRoundLess(d: int, x: int)
    requires x > 0 && d >= 0
    ensures Rounds(d - x, x) + 1 == Rounds(d, x)
  {
    Division(d, x, if d < x then 0 else d / x);
    if d >= x { Division(d - x, x, d / x - 1); }
  }

  /** The quotient is the one number that fits. */
  lemma {:induction false} Division(a: int, b: int, q: int)
    requires b > 0
    ensures q == a / b <==> q * b <= a < (q + 1) * b
  {
    var r := a / b;
    assert a == r * b + a % b;
    OneMore(r, b);
    OneMore(q, b);
    if q > r { AtLeast(q - r - 1, b); assert (q - r - 1) * b == q * b - r * b - b; }
    if q < r { AtLeast(r - q - 1, b); assert (r - q - 1) * b == r * b - q * b - b; }
  }

  lemma {:induction false} AtLeast(n: int, b: int)
    requires b > 0 && n >= 0
    ensures n * b >= 0
  {
  }

  /** The sum of the numbers in `m`. */
  ghost function Total(m: map<Proc, int>): int {
    if m == map[] then 0 else var p :| p in m; m[p] + Total(m - {p})
  }

  lemma {:induction false} TotalSplit(m: map<Proc, int>, p: Proc)
    requires p in m
    ensures Total(m) == m[p] + Total(m - {p})
    decreases |m|
  {
    var q :| q in m && Total(m) == m[q] + Total(m - {q});
    if q != p {
      TotalSplit(m - {q}, p);
      TotalSplit(m - {p}, q);
      assert m - {q} - {p} == m - {p} - {q};
    }
  }

  lemma {:induction false} TotalAtMost(m: map<Proc, int>, m': map<Proc, int>)
    requires m.Keys == m'.Keys && forall p | p in m :: m[p] <= m'[p]
    ensures Total(m) <= Total(m')
    decreases |m|
  {
    if m != map[] {
      var p :| p in m;
      TotalSplit(m, p);
      TotalSplit(m', p);
      TotalAtMost(m - {p}, m' - {p});
    } else { assert m' == map[]; }
  }

  lemma {:induction false} TotalOneMore(m: map<Proc, int>, p: Proc)
    requires p in m
    ensures Total(m[p := m[p] + 1]) == Total(m) + 1
  {
    TotalSplit(m, p);
    TotalSplit(m[p := m[p] + 1], p);
    assert m[p := m[p] + 1] - {p} == m - {p};
  }

  lemma {:induction false} TotalZero(m: map<Proc, int>)
    requires forall p | p in m :: m[p] == 0
    ensures Total(m) == 0
    decreases |m|
  {
    if m != map[] { var p :| p in m; TotalSplit(m, p); TotalZero(m - {p}); }
  }

  /** How many turns each of the processes `ns` has had. */
  function TimesOf(picks: seq<Proc>, ns: set<Proc>): map<Proc, int> { map q | q in ns :: Times(picks, q) }

  /** Every turn is somebody's. */
  lemma {:induction false} TurnsAreAll(picks: seq<Proc>, ns: set<Proc>)
    requires forall p | p in picks :: p in ns
    ensures Total(TimesOf(picks, ns)) == |picks|
    decreases |picks|
  {
    if picks == [] { TotalZero(TimesOf(picks, ns)); }
    else {
      assert picks == [picks[0]] + picks[1..];
      TurnsAreAll(picks[1..], ns);
      var m' := TimesOf(picks[1..], ns);
      TotalOneMore(m', picks[0]);
      assert TimesOf(picks, ns) == m'[picks[0] := m'[picks[0]] + 1];
    }
  }

  lemma {:induction false} PicksAreThere(R: Ranks, pass: Ranks, picks: seq<Proc>, R': Ranks)
    requires R.Keys == pass.Keys && IsRun(R, pass, picks, R')
    ensures forall p | p in picks :: p in R
    decreases |picks|
  {
    if picks != [] {
      PicksAreThere(Raised(R, pass, picks[0]), pass, picks[1..], R');
      assert picks == [picks[0]] + picks[1..];
    }
  }

  /** How many turns each other process can have before `p` gets one: as many as bring it past `p`. */
  function Ahead(R: Ranks, pass: Ranks, p: Proc): map<Proc, int>
    requires p in R && R.Keys == pass.Keys && forall q | q in pass :: pass[q] > 0
  {
    map q | q in R.Keys - {p} :: Rounds(R[p] - R[q], pass[q])
  }

  /** Then it is picked. */
  lemma {:induction false} NobodyStarves(R: Ranks, pass: Ranks, picks: seq<Proc>, R': Ranks, p: Proc)
    requires R.Keys == pass.Keys && IsRun(R, pass, picks, R') && p in R && forall q | q in pass :: pass[q] > 0
    ensures |picks| > Total(Ahead(R, pass, p)) ==> Times(picks, p) > 0
  {
    if Times(picks, p) == 0 {
      forall q | q in R.Keys - {p} ensures Times(picks, q) <= Ahead(R, pass, p)[q] { TurnsAhead(R, pass, picks, R', p, q); }
      PicksAreThere(R, pass, picks, R');
      TurnsAreAll(picks, R.Keys);
      hide IsRun, Total;
      TotalSplit(TimesOf(picks, R.Keys), p);
      TotalAtMost(TimesOf(picks, R.Keys) - {p}, Ahead(R, pass, p));
    }
  }

  // ---------- In terms of priorities ----------

  type Priorities = map<Proc, nat>

  /** The passes are those of the priorities `prio`. */
  ghost predicate PassesOf(pass: Ranks, prio: Priorities) {
    pass.Keys == prio.Keys && forall q | q in pass :: PassOf(pass[q], prio[q])
  }

  predicate PassOf(x: int, k: nat) { x >= 0 && if k == 0 then x == BIG_STRIDE else k * x <= BIG_STRIDE < k * (x + 1) }

  /** Priority 0 counts as 1. */
  function Weight(k: nat): nat { if k == 0 then 1 else k }

  /** Two processes have had their turns in proportion to their weights: up to the rounding of the pass, and up to `d` strides. */
  predicate InProportion(tp: nat, kp: nat, tq: nat, kq: nat, d: int) {
    tp * kq * (BIG_STRIDE + 1 - kp) <= tq * kp * BIG_STRIDE + d * kp * kq
  }

  lemma {:induction false} Proportion(tp: nat, xp: int, kp: nat, tq: nat, xq: int, kq: nat, d: int)
    requires kp > 0 && kq > 0 && xp >= 0 && xq >= 0 && BIG_STRIDE < kp * (xp + 1) && kq * xq <= BIG_STRIDE && tp * xp - tq * xq <= d
    ensures InProportion(tp, kp, tq, kq, d)
  {
    var u, v := tp * kq, tq * kp;
    Larger(u, BIG_STRIDE + 1 - kp, kp * xp) by { assert kp * (xp + 1) == kp * xp + kp; }
    Larger(v, kq * xq, BIG_STRIDE);
    Larger(kp * kq, tp * xp, d + tq * xq);
    Rearranged(tp, kq, kp, xp);
    Rearranged(tq, kp, kq, xq);
    assert kp * kq * (d + tq * xq) == d * kp * kq + kp * kq * (tq * xq);
  }

  lemma {:induction false} Rearranged(a: int, b: int, c: int, d: int)
    ensures a * b * (c * d) == b * c * (a * d) == c * b * (a * d)
  {
  }

  lemma {:induction false} Larger(n: nat, a: int, b: int)
    requires a <= b
    ensures n * a <= n * b
  {
  }

  /** A process inside the window has at most twice its weight of turns before it is past another one. */
  lemma {:induction false} FewAhead(d: int, x: int, k: nat)
    requires PassOf(x, k) && x > 0 && d <= BIG_STRIDE
    ensures Rounds(d, x) <= 2 * Weight(k)
  {
    if d < 0 { return; }
    var w, t := Weight(k), d / x;
    Division(d, x, t);
    assert BIG_STRIDE < w * (x + 1) == w * x + w;
    Larger(w, 1, x);
    assert t * x <= d < 2 * (w * x) == 2 * w * x;
    Cancel(t, 2 * w, x);
  }

  lemma {:induction false} Cancel(a: int, b: int, n: nat)
    requires a * n < b * n
    ensures a < b
  {
    if a >= b { Larger(n, b, a); }
  }

  /** What a run comes to in priorities. Every process has its turn within a number of turns that the priorities and the
      strides at the start give, and within twice the weights of the others, if no priority exceeds BIG_STRIDE. */
  ghost predicate RunInPriorities(R: Ranks, pass: Ranks, prio: Priorities, picks: seq<Proc>) {
    && R.Keys == pass.Keys && PassesOf(pass, prio)
    && (forall p, q | p in R && q in R ::
          InProportion(Times(picks, p), Weight(prio[p]), Times(picks, q), Weight(prio[q]), BIG_STRIDE + R[q] - R[p]))
    && ((forall q | q in prio :: prio[q] <= BIG_STRIDE) ==>
          (forall q | q in pass :: pass[q] > 0)
          && forall p | p in R ::
               (|picks| > Total(Ahead(R, pass, p)) || |picks| > Total(Twice(prio, p)) ==> Times(picks, p) > 0))
  }

  function Twice(prio: Priorities, p: Proc): map<Proc, int> { map q | q in prio.Keys - {p} :: 2 * Weight(prio[q]) }

  lemma {:induction false} PriorityRun(R: Ranks, pass: Ranks, prio: Priorities, picks: seq<Proc>, R': Ranks)
    requires InWindow(R) && Passing(R, pass) && IsRun(R, pass, picks, R') && PassesOf(pass, prio)
    ensures RunInPriorities(R, pass, prio, picks)
  {
    forall p, q | p in R && q in R
      ensures InProportion(Times(picks, p), Weight(prio[p]), Times(picks, q), Weight(prio[q]), BIG_STRIDE + R[q] - R[p])
    {
      TurnsAreFair(R, pass, picks, R', p, q);
      FairByPriority(R, pass, prio, picks, p, q);
    }
    if forall q | q in prio :: prio[q] <= BIG_STRIDE {
      forall q | q in pass ensures pass[q] > 0 { assert PassOf(pass[q], prio[q]); }
      forall p | p in R
        ensures |picks| > Total(Ahead(R, pass, p)) || |picks| > Total(Twice(prio, p)) ==> Times(picks, p) > 0
      {
        NobodyStarves(R, pass, picks, R', p);
        FewTurnsAhead(R, pass, prio, p);
      }
    }
  }

  lemma {:induction false} FairByPriority(R: Ranks, pass: Ranks, prio: Priorities, picks: seq<Proc>, p: Proc, q: Proc)
    requires R.Keys == pass.Keys && PassesOf(pass, prio) && p in R && q in R
    requires Times(picks, p) * pass[p] - Times(picks, q) * pass[q] <= BIG_STRIDE + R[q] - R[p]
    ensures InProportion(Times(picks, p), Weight(prio[p]), Times(picks, q), Weight(prio[q]), BIG_STRIDE + R[q] - R[p])
  {
    assert PassOf(pass[p], prio[p]) && PassOf(pass[q], prio[q]);
    hide Times;
    Proportion(Times(picks, p), pass[p], Weight(prio[p]), Times(picks, q), pass[q], Weight(prio[q]), BIG_STRIDE + R[q] - R[p]);
  }

  lemma {:induction false} FewTurnsAhead(R: Ranks, pass: Ranks, prio: Priorities, p: Proc)
    requires InWindow(R) && R.Keys == pass.Keys && PassesOf(pass, prio) && p in R && forall q | q in pass :: pass[q] > 0
    ensures Total(Ahead(R, pass, p)) <= Total(Twice(prio, p))
  {
    forall q | q in Ahead(R, pass, p) ensures Ahead(R, pass, p)[q] <= Twice(prio, p)[q] {
      FewAhead(R[p] - R[q], pass[q], prio[q]);
    }
    TotalAtMost(Ahead(R, pass, p), Twice(prio, p));
  }

  /** And only then: a process of a larger priority does not move, and once it is the least it is picked for ever. */
  lemma {:induction false} LargerStarves(R: Ranks, pass: Ranks, prio: Priorities, q: Proc, n: nat)
    requires Passing(R, pass) && PassesOf(pass, prio) && q in R && prio[q] > BIG_STRIDE && forall p | p in R :: R[q] <= R[p]
    ensures pass[q] == 0 && IsRun(R, pass, seq(n, _ => q), R)
    decreases n
  {
    assert PassOf(pass[q], prio[q]);
    if pass[q] > 0 { Larger(prio[q], 1, pass[q]); }
    if n > 0 {
      LargerStarves(R, pass, prio, q, n - 1);
      assert seq(n, _ => q)[1..] == seq(n - 1, _ => q) && Raised(R, pass, q) == R;
    }
  }

  lemma {:induction false} NoTurns(R: Ranks, pass: Ranks)
    ensures IsRun(R, pass, [], R)
  {
  }

  /** A run, and what it comes to for each process and for each two of them. */
  ghost predicate RunIs(R: Ranks, pass: Ranks, picks: seq<Proc>, R': Ranks) {
    && R.Keys == R'.Keys == pass.Keys && IsRun(R, pass, picks, R') && InWindow(R')
    && (forall p | p in R :: R'[p] == R[p] + Times(picks, p) * pass[p])
    && forall p, q | p in R && q in R :: Times(picks, p) * pass[p] - Times(picks, q) * pass[q] <= BIG_STRIDE + R[q] - R[p]
  }

  lemma {:induction false} RunIsFair(R: Ranks, pass: Ranks, picks: seq<Proc>, R': Ranks)
    requires InWindow(R) && Passing(R, pass) && IsRun(R, pass, picks, R')
    ensures RunIs(R, pass, picks, R')
  {
    RunsKeepTheWindow(R, pass, picks, R');
    forall p, q | p in R && q in R
      ensures Times(picks, p) * pass[p] - Times(picks, q) * pass[q] <= BIG_STRIDE + R[q] - R[p]
    {
      TurnsAreFair(R, pass, picks, R', p, q);
    }
  }

  lemma {:induction false} OneTurnMore(R: Ranks, pass: Ranks, picks: seq<Proc>, R': Ranks, p: Proc)
    requires IsRun(R, pass, picks, R') && IsTurn(R', pass, p)
    ensures IsRun(R, pass, picks + [p], Raised(R', pass, p))
    decreases |picks|
  {
    if picks == [] { assert [p][1..] == []; }
    else {
      OneTurnMore(Raised(R, pass, picks[0]), pass, picks[1..], R', p);
      assert (picks + [p])[1..] == picks[1..] + [p];
    }
  }

  /** The true strides of the processes `ns`. */
  function Ranked(R: Ranks, ns: set<Proc>): Ranks { map q | q in ns :: Rank(R, q) }

  function Passes(ns: set<Proc>): Ranks
    reads ns
  {
    map q | q in ns :: Pass(q.priority)
  }

  lemma {:induction false} RankOfPicked(R: Ranks, R': Ranks, p: Proc, pass: int)
    requires R' == SetRank(R, p, Rank(R, p) + pass)
    ensures Rank(R', p) - Rank(R, p) == pass
  {
  }

  /** A turn of the queue is a turn of the run. */
  lemma {:induction false} RankedTurn(R: Ranks, R': Ranks, ns: set<Proc>, pass: Ranks, p: Proc)
    requires p in ns && ns == pass.Keys && (forall q | q in ns :: Rank(R, p) <= Rank(R, q)) && R' == SetRank(R, p, Rank(R, p) + pass[p])
    ensures IsTurn(Ranked(R, ns), pass, p) && Ranked(R', ns) == Raised(Ranked(R, ns), pass, p)
  {
  }

  /** Processes in the queue, and one beside it that fits, are in the window together. */
  lemma {:induction false} AllInWindow(R: Ranks, ns: set<Proc>, p: Proc, R0: Ranks)
    requires Windowed(R, ns) && p !in ns && R0 == SetRank(R, p, Rank(R0, p))
    requires forall q | q in ns :: -BIG_STRIDE <= Rank(R0, p) - Rank(R0, q) <= BIG_STRIDE
    ensures InWindow(Ranked(R0, ns + {p}))
  {
  }
}
