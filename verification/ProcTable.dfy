/** Processes and the scheduler: fork, exit, wait, kill, sleep and wakeup (process/proc.c, schedule/sched.c). */
module ProcTable {
  import opened Family
  import opened Pids

  /** A child that a waiting process would collect. */
  ghost predicate NoZombieFor(P: Procs, s: seq<nat>, target: nat) {
    forall c | c in s && c in P && P[c].state.Zombie? :: target != 0 && target != c
  }

  /** Process `c` is the first zombie of `s`. */
  ghost predicate FirstZombie(P: Procs, s: seq<nat>, c: nat) {
    exists i: nat :: i < |s| && s[i] == c && forall j: nat | j < i && s[j] in P :: !P[s[j]].state.Zombie?
  }

  /** States and wait states agree; a zombie has no children; who sleeps in do_wait has nothing to collect. */
  ghost predicate WaitOk(P: Procs, kids: Kids, p: nat)
    requires p in P
  {
    && p in kids && !P[p].state.Uninit? && (P[p].state.Sleeping? <==> P[p].wait != Nothing)
    && (P[p].state.Zombie? ==> p != IDLE && p != INIT && kids[p] == [])
    && (p == IDLE ==> P[p].state.Runnable?)
    && (P[p].wait.Child? ==> NoZombieFor(P, kids[p], P[p].wait.target))
  }

  ghost predicate WaitsOk(P: Procs, kids: Kids) {
    forall p {:trigger WaitOk(P, kids, p)} | p in P :: WaitOk(P, kids, p)
  }

  /** The run queue holds exactly the runnable processes but `current` and IDLE. */
  ghost predicate Queued(P: Procs, current: nat, queue: set<nat>) {
    current in P && IDLE in P && P[IDLE].state.Runnable?
    && forall p: nat :: p in queue <==> p in P && P[p].state.Runnable? && p != current && p != IDLE
  }

  ghost predicate AllQueued(P: Procs, queue: set<nat>) {
    IDLE in P && P[IDLE].state.Runnable? && forall p: nat :: p in queue <==> p in P && P[p].state.Runnable? && p != IDLE
  }

  /** The process list holds every process but IDLE once. */
  ghost predicate InList(P: Procs, list: seq<nat>) {
    Listed(list) && forall p: nat :: p in list <==> p in P && p != IDLE
  }

  /** INIT is the oldest child of IDLE. */
  ghost predicate InitFirst(P: Procs, born: map<nat, nat>, clock: nat) {
    && INIT in P && P[INIT].parent == IDLE && INIT in born && (forall x | x in born :: born[x] < clock)
    && (forall x | x in P :: x in born) && forall x | x in P && x != IDLE && x != INIT :: born[INIT] < born[x]
  }

  ghost predicate Counts(n: nat, queue: set<nat>) { n == |queue| }

  lemma {:induction false} CountsIn(n: nat, queue: set<nat>, p: nat)
    requires Counts(n, queue) && p !in queue
    ensures Counts(n + 1, queue + {p})
  {
  }

  lemma {:induction false} CountsOut(n: nat, queue: set<nat>, p: nat)
    requires Counts(n, queue) && p in queue
    ensures n > 0 && Counts(n - 1, queue - {p})
  {
  }

  /** wakeup_proc */
  function Woken(P: Procs, p: nat): Procs
    requires p in P
  {
    if P[p].state.Runnable? then P else P[p := P[p].(state := Runnable, wait := Nothing)]
  }

  /** `P'` has the links of `P`. */
  ghost predicate SameLinks(P: Procs, P': Procs) {
    P'.Keys == P.Keys && forall x | x in P ::
      P'[x].parent == P[x].parent && P'[x].cptr == P[x].cptr && P'[x].yptr == P[x].yptr && P'[x].optr == P[x].optr
  }

  lemma {:induction false} SameLinksForest(P: Procs, P': Procs, kids: Kids, born: map<nat, nat>, loose: Link)
    requires Forest(P, kids, born, loose) && SameLinks(P, P')
    ensures Forest(P', kids, born, loose)
  {
    forall p | p in P' ensures Kin(P', kids, loose, p) {
      assert Kin(P, kids, loose, p);
      var l := loose == To(p);
      forall i: nat | i < |kids[p]| ensures ChildAt(P', p, kids[p], i, l) { assert ChildAt(P, p, kids[p], i, l); }
    }
    forall c | c in P' && c != IDLE ensures HasParent(P', kids, born, c) { assert HasParent(P, kids, born, c); }
  }

  /** Links, lists and waits, without the run queue. */
  ghost predicate Sound(P: Procs, kids: Kids, born: map<nat, nat>, clock: nat, list: seq<nat>) {
    Forest(P, kids, born, Null) && InitFirst(P, born, clock) && InList(P, list) && WaitsOk(P, kids)
  }

  /** One process changes its state; no zombie appears. */
  lemma {:induction false} StateKeepsSound(P: Procs, kids: Kids, born: map<nat, nat>, clock: nat, list: seq<nat>, p: nat, s: RunState, w: Wait)
    requires Sound(P, kids, born, clock, list) && p in P && !s.Uninit? && !s.Zombie? && (s.Sleeping? <==> w != Nothing) && (p == IDLE ==> s.Runnable?)
    requires p in kids && (w.Child? ==> NoZombieFor(P, kids[p], w.target))
    ensures Sound(P[p := P[p].(state := s, wait := w)], kids, born, clock, list)
  {
    hide Forest;
    var P' := P[p := P[p].(state := s, wait := w)];
    SameLinksForest(P, P', kids, born, Null);
    forall q | q in P' ensures WaitOk(P', kids, q) { assert WaitOk(P, kids, q); }
  }

  lemma {:induction false} ExitingKeepsSound(P: Procs, kids: Kids, born: map<nat, nat>, clock: nat, list: seq<nat>, p: nat)
    requires Sound(P, kids, born, clock, list) && p in P
    ensures Sound(P[p := P[p].(exiting := true)], kids, born, clock, list)
  {
    hide Forest;
    var P' := P[p := P[p].(exiting := true)];
    SameLinksForest(P, P', kids, born, Null);
    forall q | q in P' ensures WaitOk(P', kids, q) { assert WaitOk(P, kids, q); }
  }

  /** What is known of each process in such a state. */
  lemma {:induction false} OneProc(P: Procs, kids: Kids, born: map<nat, nat>, clock: nat, list: seq<nat>, p: nat)
    requires Sound(P, kids, born, clock, list) && p in P
    ensures WaitOk(P, kids, p) && p < MAX_PID && (p == IDLE || p in list)
  {
    assert WaitOk(P, kids, p);
    if p != IDLE { assert p in list; }
  }

  // ---------- fork ----------

  const NEWBORN: Proc := Proc(Uninit, Nothing, false, IDLE, Null, Null, Null)

  /** set_links of a new child of `p`. */
  function Linked(P: Procs, p: nat, pid: nat): Procs
    requires p in P
  {
    LinkIn(P[pid := NEWBORN.(parent := p)], p, pid)
  }

  function ForkKids(kids: Kids, p: nat, pid: nat): Kids
    requires p in kids
  {
    kids[p := [pid] + kids[p]][pid := []]
  }

  function ForkBorn(born: map<nat, nat>, pid: nat, clock: nat): map<nat, nat> { born[pid := clock] }

  lemma {:induction false} ForkKidsAt(kids: Kids, p: nat, pid: nat)
    requires p in kids
    ensures pid != p ==> p in ForkKids(kids, p, pid) && ForkKids(kids, p, pid)[p] == [pid] + kids[p]
  {
  }

  lemma {:induction false} LinkedStates(P: Procs, p: nat, pid: nat)
    requires p in P && pid !in P
    ensures Linked(P, p, pid).Keys == P.Keys + {pid} && Linked(P, p, pid)[pid].state.Uninit? && Linked(P, p, pid)[pid].parent == p
    ensures Linked(P, p, pid)[pid].wait == Nothing && !Linked(P, p, pid)[pid].exiting
    ensures forall x | x in P :: var y := Linked(P, p, pid)[x];
      y.state == P[x].state && y.wait == P[x].wait && y.exiting == P[x].exiting && y.parent == P[x].parent
  {
    LinkInStates(P[pid := NEWBORN.(parent := p)], p, pid);
  }

  /** A runnable child of `p` has been born, and nobody's state, wait or parent has changed. */
  ghost predicate Born(P: Procs, P': Procs, p: nat, pid: nat) {
    && pid !in P && P'.Keys == P.Keys + {pid} && P'[pid].state.Runnable? && P'[pid].wait == Nothing && !P'[pid].exiting && P'[pid].parent == p
    && forall x | x in P :: P'[x].state == P[x].state && P'[x].wait == P[x].wait && P'[x].exiting == P[x].exiting && P'[x].parent == P[x].parent
  }

  lemma {:induction false} BornIs(P: Procs, p: nat, pid: nat)
    requires p in P
    ensures pid !in P ==> pid in Linked(P, p, pid) && Born(P, Woken(Linked(P, p, pid), pid), p, pid)
  {
    if pid !in P {
      LinkedStates(P, p, pid);
      hide Linked;
    }
  }

  lemma {:induction false} ForkKeepsSound(P: Procs, kids: Kids, born: map<nat, nat>, clock: nat, list: seq<nat>, p: nat, pid: nat)
    requires Sound(P, kids, born, clock, list) && p in P && p in kids && P[p].state.Runnable? && pid !in list && 1 <= pid < MAX_PID
    ensures pid !in P && Linked(P, p, pid).Keys == P.Keys + {pid}
    ensures Sound(Woken(Linked(P, p, pid), pid), ForkKids(kids, p, pid), ForkBorn(born, pid, clock), clock + 1, [pid] + list)
  {
    if pid in P { OneProc(P, kids, born, clock, list, pid); }
    LinkedStates(P, p, pid);
    ClockIsAhead(P, born, clock);
    LinkInKeepsForest(P, kids, born, p, pid, NEWBORN.(parent := p), clock);
    var P1 := Linked(P, p, pid);
    var P', kids', born' := Woken(P1, pid), ForkKids(kids, p, pid), ForkBorn(born, pid, clock);
    hide Forest, LinkIn, Linked, WaitsOk, InList, InitFirst;
    SameLinksForest(P1, P', kids', born', Null);
    ForkWaits(P, kids, p, pid, P', kids');
    ForkLists(P, list, pid, P');
    ForkInit(P, born, clock, pid, P');
  }

  lemma {:induction false} ForkInit(P: Procs, born: map<nat, nat>, clock: nat, pid: nat, P': Procs)
    requires InitFirst(P, born, clock) && pid !in P && P'.Keys == P.Keys + {pid} && forall x | x in P :: P'[x].parent == P[x].parent
    ensures InitFirst(P', born[pid := clock], clock + 1)
  {
  }

  lemma {:induction false} ClockIsAhead(P: Procs, born: map<nat, nat>, clock: nat)
    requires InitFirst(P, born, clock)
    ensures (forall x | x in P :: x in born) && forall x | x in born :: born[x] < clock
  {
  }

  lemma {:induction false} ForkWaits(P: Procs, kids: Kids, p: nat, pid: nat, P': Procs, kids': Kids)
    requires WaitsOk(P, kids) && p in P && p in kids && P[p].state.Runnable? && pid !in P && pid != IDLE && P'.Keys == P.Keys + {pid}
    requires P'[pid].state.Runnable? && P'[pid].wait == Nothing && kids' == kids[p := [pid] + kids[p]][pid := []]
    requires forall x | x in P :: P'[x].state == P[x].state && P'[x].wait == P[x].wait
    ensures WaitsOk(P', kids')
  {
    forall x | x in P' ensures WaitOk(P', kids', x) { if x != pid { assert WaitOk(P, kids, x); } }
  }

  lemma {:induction false} ForkLists(P: Procs, list: seq<nat>, pid: nat, P': Procs)
    requires InList(P, list) && pid !in list && 1 <= pid < MAX_PID && P'.Keys == P.Keys + {pid}
    ensures InList(P', [pid] + list)
  {
    forall x: nat ensures x in [pid] + list <==> x == pid || x in list { }
  }

  // ---------- wait ----------

  /** list_del of `pid`. */
  function WithoutPid(list: seq<nat>, pid: nat): seq<nat> {
    if list == [] then [] else if list[0] == pid then list[1..] else [list[0]] + WithoutPid(list[1..], pid)
  }

  lemma {:induction false} WithoutPidIs(list: seq<nat>, pid: nat)
    requires Listed(list) && pid in list
    ensures |WithoutPid(list, pid)| == |list| - 1 && Listed(WithoutPid(list, pid))
    ensures forall x :: x in WithoutPid(list, pid) <==> x in list && x != pid
  {
    assert list == [list[0]] + list[1..];
    forall i | 0 <= i < |list[1..]| ensures list[1..][i] != list[0] { assert list[1..][i] == list[i + 1]; }
    if list[0] != pid {
      WithoutPidIs(list[1..], pid);
      var r := WithoutPid(list[1..], pid);
      forall i | 0 <= i < |r| ensures r[i] != list[0] { assert r[i] in r; }
    }
  }

  lemma {:induction false} WithoutPidAt(list: seq<nat>, pid: nat) returns (k: nat)
    requires pid in list
    ensures k < |list| && list[k] == pid && WithoutPid(list, pid) == list[..k] + list[k + 1..]
  {
    k := 0;
    if list[0] != pid {
      assert list == [list[0]] + list[1..];
      k := WithoutPidAt(list[1..], pid);
      k := k + 1;
      assert [list[0]] + (list[1..][..k - 1] + list[1..][k..]) == list[..k] + list[k + 1..];
    }
  }

  function CollectKids(kids: Kids, q: nat, i: nat): Kids
    requires q in kids && i < |kids[q]|
  {
    kids[q := Drop(kids[q], i)] - {kids[q][i]}
  }

  lemma {:induction false} CollectKidsAt(kids: Kids, q: nat, i: nat)
    requires q in kids && i < |kids[q]| && kids[q][i] != q
    ensures q in CollectKids(kids, q, i) && CollectKids(kids, q, i)[q] == kids[q][..i] + kids[q][i + 1..]
  {
  }

  /** Process `c` is there no more, and nobody's state, wait or parent has changed. */
  ghost predicate Gone(P: Procs, P': Procs, c: nat) {
    && P'.Keys == P.Keys - {c}
    && forall x | x in P && x != c :: P'[x].state == P[x].state && P'[x].wait == P[x].wait && P'[x].exiting == P[x].exiting && P'[x].parent == P[x].parent
  }

  lemma {:induction false} CollectKeepsSound(P: Procs, kids: Kids, born: map<nat, nat>, clock: nat, list: seq<nat>, p: nat, c: nat) returns (i: nat)
    requires Sound(P, kids, born, clock, list) && p in P && p in kids && P[p].state.Runnable? && c in kids[p] && c in P && P[c].state.Zombie?
    ensures i < |kids[p]| && kids[p][i] == c && P[c].parent == p && P[c].parent != c && c in list && c != p && c != INIT
    ensures Unlink(P, c).Keys == P.Keys - {c}
    ensures Sound(Unlink(P, c), CollectKids(kids, p, i), born, clock, WithoutPid(list, c))
  {
    OneProc(P, kids, born, clock, list, c);
    i :| 0 <= i < |kids[p]| && kids[p][i] == c;
    KidIsOther(P, kids, born, Null, p, i);
    var j := UnlinkKeepsForest(P, kids, born, c);
    assert Kin(P, kids, Null, p) && i == j;
    UnlinkStates(P, c);
    WithoutPidIs(list, c);
    var P', kids' := Unlink(P, c), CollectKids(kids, p, i);
    hide Forest, Unlink, WithoutPid, InList, InitFirst, WaitsOk;
    CollectWaits(P, kids, p, c, i, P', kids');
    CollectLists(P, born, clock, list, c, P');
  }

  lemma {:induction false} CollectWaits(P: Procs, kids: Kids, p: nat, c: nat, i: nat, P': Procs, kids': Kids)
    requires WaitsOk(P, kids) && p in P && p in kids && P[p].state.Runnable? && i < |kids[p]| && kids[p][i] == c && c in P && c != p
    requires P'.Keys == P.Keys - {c} && kids' == CollectKids(kids, p, i) && forall x | x in P && x != c :: P'[x].state == P[x].state && P'[x].wait == P[x].wait
    ensures WaitsOk(P', kids')
  {
    forall x | x in P' ensures WaitOk(P', kids', x) { assert WaitOk(P, kids, x); }
  }

  lemma {:induction false} CollectLists(P: Procs, born: map<nat, nat>, clock: nat, list: seq<nat>, c: nat, P': Procs)
    requires InList(P, list) && InitFirst(P, born, clock) && c in list && c != INIT && P'.Keys == P.Keys - {c}
    requires forall x | x in P && x != c :: P'[x].parent == P[x].parent
    ensures InList(P', WithoutPid(list, c)) && InitFirst(P', born, clock)
  {
    WithoutPidIs(list, c);
  }

  lemma {:induction false} CollectQueue(P: Procs, current: nat, queue: set<nat>, c: nat)
    requires Queued(P, current, queue) && c in P && P[c].state.Zombie? && P[c].parent == current && P[c].parent != c
    ensures Queued(Unlink(P, c), current, queue) && current in Unlink(P, c) && Unlink(P, c)[current].state == P[current].state
  {
    UnlinkStates(P, c);
    hide Unlink;
  }

  /** The children of a process, found through the table. */
  lemma {:induction false} ChildrenOf(P: Procs, kids: Kids, born: map<nat, nat>, p: nat)
    requires Forest(P, kids, born, Null) && p in P && p in kids
    ensures forall c :: c in kids[p] <==> c in P && c != IDLE && P[c].parent == p
    ensures P[p].cptr == HeadOf(kids[p]) && forall i: nat | i < |kids[p]| :: kids[p][i] in P && P[kids[p][i]].optr == NextOf(kids[p], i)
  {
    assert Kin(P, kids, Null, p);
    forall i: nat | i < |kids[p]| ensures kids[p][i] in P && P[kids[p][i]].optr == NextOf(kids[p], i) { assert ChildAt(P, p, kids[p], i, false); }
    forall c ensures c in kids[p] <==> c in P && c != IDLE && P[c].parent == p {
      if c in P && c != IDLE { assert HasParent(P, kids, born, c); }
      if c in kids[p] {
        var i :| 0 <= i < |kids[p]| && kids[p][i] == c;
        KidIsOther(P, kids, born, Null, p, i);
      }
    }
  }

  // ---------- exit ----------

  /** All wait as they should but `but`. */
  ghost predicate WaitsBut(P: Procs, kids: Kids, but: nat) {
    forall p {:trigger WaitOk(P, kids, p)} | p in P && p != but :: WaitOk(P, kids, p)
  }

  /** Process `p` is a zombie that still has children. */
  ghost predicate Leaving(P: Procs, kids: Kids, born: map<nat, nat>, clock: nat, list: seq<nat>, p: nat) {
    && MayReparent(P, kids, born, p) && InitFirst(P, born, clock) && InList(P, list) && WaitsBut(P, kids, p)
    && P[p].state.Zombie? && P[p].wait == Nothing
  }

  /** `q`, if it waits for children, is woken. */
  function Notified(P: Procs, q: nat): Procs
    requires q in P
  {
    if P[q].wait.Child? then Woken(P, q) else P
  }

  /** The first part of do_exit: a zombie, and a parent that is told if it waits. */
  function Dead(P: Procs, p: nat): Procs
    requires p in P && P[p].parent in P
  {
    Notified(P[p := P[p].(state := Zombie)], P[p].parent)
  }

  lemma {:induction false} DyingLeaves(P: Procs, kids: Kids, born: map<nat, nat>, clock: nat, list: seq<nat>, p: nat)
    requires Sound(P, kids, born, clock, list) && p in P && P[p].state.Runnable? && p != IDLE && p != INIT
    ensures P[p].parent in P && P[p].parent != p && !P[P[p].parent].state.Zombie?
    ensures Leaving(Dead(P, p), kids, born, clock, list, p)
  {
    OneProc(P, kids, born, clock, list, p);
    assert HasParent(P, kids, born, p);
    var q := P[p].parent;
    OneProc(P, kids, born, clock, list, q);
    var P' := Dead(P, p);
    Loosen(P, kids, born, p);
    hide Forest;
    SameLinksForest(P, P', kids, born, To(p));
    forall x | x in P && x in kids && p in kids[x] ensures x == q { ChildrenOf(P, kids, born, x); }
    hide InList, InitFirst, WaitsBut;
    DyingInit(P, P', born, clock, list);
    DyingWaits(P, kids, p);
  }

  lemma {:induction false} DyingInit(P: Procs, P': Procs, born: map<nat, nat>, clock: nat, list: seq<nat>)
    requires InList(P, list) && InitFirst(P, born, clock) && P'.Keys == P.Keys && forall x | x in P :: P'[x].parent == P[x].parent
    ensures InList(P', list) && InitFirst(P', born, clock)
    ensures INIT in P' && P'[INIT].parent == IDLE && INIT in born && forall x | x in P' && x != IDLE && x != INIT :: x in born && born[INIT] < born[x]
  {
  }

  lemma {:induction false} DyingWaits(P: Procs, kids: Kids, p: nat)
    requires WaitsOk(P, kids) && p in P && P[p].state.Runnable? && P[p].parent in P && P[p].parent != p
    requires forall q | q in P && q in kids && p in kids[q] :: q == P[p].parent
    ensures WaitsBut(Dead(P, p), kids, p)
  {
    var P' := Dead(P, p);
    assert WaitOk(P, kids, p);
    forall x | x in P' && x != p ensures WaitOk(P', kids, x) { assert WaitOk(P, kids, x); }
  }

  /** One turn of the loop: a child moves, and INIT is told if it waits and the child is a zombie. */
  function Moved(P: Procs, p: nat): Procs
    requires p in P && INIT in P && P[p].cptr.To? && P[p].cptr.pid in P
  {
    var P' := Reparent(P, p);
    if P'[P[p].cptr.pid].state.Zombie? then Notified(P', INIT) else P'
  }

  lemma {:induction false} MovedKeepsLeaving(P: Procs, kids: Kids, born: map<nat, nat>, clock: nat, list: seq<nat>, p: nat)
    requires Leaving(P, kids, born, clock, list, p) && kids[p] != []
    ensures P[p].cptr == To(kids[p][0]) && kids[p][0] in P && INIT in kids && Moved(P, p).Keys == P.Keys
    ensures Leaving(Moved(P, p), ReparentKids(kids, p), born, clock, list, p)
    ensures !Reparent(P, p)[INIT].state.Zombie?
  {
    ReparentKeepsForest(P, kids, born, p);
    ReparentKeepsStates(P, kids, born, p);
    var P1, P', kids' := Reparent(P, p), Moved(P, p), ReparentKids(kids, p);
    hide Forest, Reparent;
    SameLinksForest(P1, P', kids', born, To(p));
    assert WaitOk(P, kids, INIT);
    hide InList, InitFirst, WaitsBut;
    MovedInit(P, P', born, clock, list);
    MovedWaits(P, kids, p, P1);
  }

  lemma {:induction false} MovedInit(P: Procs, P': Procs, born: map<nat, nat>, clock: nat, list: seq<nat>)
    requires InList(P, list) && InitFirst(P, born, clock) && P'.Keys == P.Keys && P'[INIT].parent == IDLE
    ensures InList(P', list) && InitFirst(P', born, clock)
    ensures INIT in P' && INIT in born && forall x | x in P' && x != IDLE && x != INIT :: x in born && born[INIT] < born[x]
  {
  }

  lemma {:induction false} MovedWaits(P: Procs, kids: Kids, p: nat, P1: Procs)
    requires WaitsBut(P, kids, p) && p in P && INIT in P && p != INIT && p in kids && INIT in kids && kids[p] != [] && kids[p][0] in P
    requires P1.Keys == P.Keys && forall x | x in P :: P1[x].state == P[x].state && P1[x].wait == P[x].wait
    ensures var P' := if P1[kids[p][0]].state.Zombie? then Notified(P1, INIT) else P1;
      WaitsBut(P', ReparentKids(kids, p), p)
  {
    var c := kids[p][0];
    var P', kids' := if P1[c].state.Zombie? then Notified(P1, INIT) else P1, ReparentKids(kids, p);
    forall x | x in P' && x != p ensures WaitOk(P', kids', x) { assert WaitOk(P, kids, x); }
  }

  /** Of the processes but `p`, exactly those of `told` that waited for children have been woken. */
  ghost predicate Heard(P: Procs, P': Procs, p: nat, told: set<nat>) {
    && P'.Keys == P.Keys
    && forall x | x in P && x != p ::
         (P'[x].exiting == P[x].exiting
          && if x in told && P[x].wait.Child? then P'[x].state.Runnable? && P'[x].wait == Nothing
             else P'[x].state == P[x].state && P'[x].wait == P[x].wait)
  }

  lemma {:induction false} HeardTwice(P: Procs, P': Procs, P'': Procs, p: nat, a: set<nat>, b: set<nat>)
    requires Heard(P, P', p, a) && Heard(P', P'', p, b)
    ensures Heard(P, P'', p, a + b)
  {
  }

  lemma {:induction false} DeadHeard(P: Procs, kids: Kids, born: map<nat, nat>, clock: nat, list: seq<nat>, p: nat)
    requires Sound(P, kids, born, clock, list) && p in P && P[p].parent in P && P[p].parent != p
    ensures Heard(P, Dead(P, p), p, {P[p].parent})
  {
    hide Forest;
    assert WaitOk(P, kids, P[p].parent);
  }

  /** Whether INIT hears of it when the children `s` of `p` move to it. */
  ghost predicate SomeZombie(P: Procs, s: seq<nat>) { exists c :: c in s && c in P && P[c].state.Zombie? }

  ghost function Told(P: Procs, s: seq<nat>): set<nat> { if SomeZombie(P, s) then {INIT} else {} }

  lemma {:induction false} MovedHeard(P: Procs, kids: Kids, born: map<nat, nat>, clock: nat, list: seq<nat>, p: nat)
    requires Leaving(P, kids, born, clock, list, p) && kids[p] != []
    ensures p in P && INIT in P && P[p].cptr.To? && P[p].cptr.pid in P && Heard(P, Moved(P, p), p, Told(P, [kids[p][0]]))
  {
    ReparentKeepsStates(P, kids, born, p);
    hide Reparent, Forest;
    assert kids[p][0] in [kids[p][0]];
    assert WaitOk(P, kids, INIT);
    assert P[p].cptr == To(kids[p][0]);
    assert SomeZombie(P, [kids[p][0]]) <==> P[kids[p][0]].state.Zombie?;
  }

  /** In a sound state nobody who waits is a zombie, so being told makes no zombie disappear. */
  lemma {:induction false} ZombiesStay(P: Procs, kids: Kids, P': Procs, p: nat, told: set<nat>, s: seq<nat>)
    requires Heard(P, P', p, told) && WaitsBut(P, kids, p) && p !in s
    ensures SomeZombie(P', s) <==> SomeZombie(P, s)
  {
    forall c | c in s && c in P ensures P'[c].state.Zombie? <==> P[c].state.Zombie? { assert WaitOk(P, kids, c); }
  }

  lemma {:induction false} ToldInAll(P: Procs, c: nat, s: seq<nat>)
    ensures Told(P, [c]) + Told(P, s) == Told(P, [c] + s)
  {
    if SomeZombie(P, s) { var d :| d in s && d in P && P[d].state.Zombie?; assert d in [c] + s; }
    if SomeZombie(P, [c]) { assert c in [c] + s; }
  }

  lemma {:induction false} NobodyHeard(P: Procs, p: nat)
    ensures Heard(P, P, p, {})
    ensures forall s :: {} + Told(P, s) == Told(P, s)
  {
  }

  lemma {:induction false} NobodyTold(P: Procs)
    ensures Told(P, []) == {} && forall s: set<nat> :: s + {} == s
  {
  }

  /** One child more has moved, and who is to hear of it is the same whether one looks now or before. */
  lemma {:induction false} TellOn(P: Procs, kids: Kids, P': Procs, p: nat, told: set<nat>, c: nat, rest: seq<nat>, all: seq<nat>)
    requires Heard(P, P', p, told) && WaitsBut(P, kids, p) && c != p
    requires told + Told(P, [c] + rest) == Told(P, all)
    ensures (told + Told(P', [c])) + Told(P, rest) == Told(P, all)
  {
    ZombiesStay(P, kids, P', p, told, [c]);
    ToldInAll(P, c, rest);
  }

  lemma {:induction false} ChildrenTold(P: Procs, kids: Kids, born: map<nat, nat>, clock: nat, list: seq<nat>, p: nat)
    requires Sound(P, kids, born, clock, list) && p in P && p in kids
    ensures Told(P, kids[p]) == if exists c :: c in P && c != IDLE && P[c].parent == p && P[c].state.Zombie? then {INIT} else {}
  {
    hide Forest;
    ChildrenOf(P, kids, born, p);
  }

  lemma {:induction false} StillTold(P: Procs, kids: Kids, born: map<nat, nat>, clock: nat, list: seq<nat>, P': Procs, p: nat, told: set<nat>)
    requires Sound(P, kids, born, clock, list) && p in P && p in kids && Heard(P, P', p, told) && p != IDLE
    ensures Told(P', kids[p]) == Told(P, kids[p])
  {
    ChildrenOf(P, kids, born, p);
    assert HasParent(P, kids, born, p);
    hide Forest, Heard;
    ZombiesStay(P, kids, P', p, told, kids[p]);
  }

  lemma {:induction false} LeavingKids(P: Procs, kids: Kids, born: map<nat, nat>, clock: nat, list: seq<nat>, p: nat)
    requires Leaving(P, kids, born, clock, list, p) && p in kids
    ensures p !in kids[p] && WaitsBut(P, kids, p)
  {
    hide InitFirst, InList;
    forall i: nat | i < |kids[p]| ensures kids[p][i] != p { assert Kin(P, kids, To(p), p); KidIsOther(P, kids, born, To(p), p, i); }
  }

  /** Some children of `p` may have moved to INIT, and nobody else has moved. */
  ghost predicate ParentsMoved(P: Procs, P': Procs, p: nat) {
    P'.Keys == P.Keys && forall x | x in P :: P'[x].parent == P[x].parent || (P[x].parent == p && P'[x].parent == INIT)
  }

  lemma {:induction false} DeadParents(P: Procs, p: nat)
    requires p in P && P[p].parent in P
    ensures ParentsMoved(P, Dead(P, p), p)
  {
  }

  lemma {:induction false} MovedParents(P: Procs, kids: Kids, born: map<nat, nat>, clock: nat, list: seq<nat>, p: nat)
    requires Leaving(P, kids, born, clock, list, p) && kids[p] != []
    ensures p in P && INIT in P && P[p].cptr.To? && P[p].cptr.pid in P && ParentsMoved(P, Moved(P, p), p)
  {
    ReparentKeepsStates(P, kids, born, p);
    hide Reparent;
    assert Kin(P, kids, To(p), p);
    KidIsOther(P, kids, born, To(p), p, 0);
  }

  lemma {:induction false} MovedAgain(P: Procs, P': Procs, P'': Procs, p: nat)
    requires ParentsMoved(P, P', p) && ParentsMoved(P', P'', p)
    ensures ParentsMoved(P, P'', p)
  {
  }

  lemma {:induction false} AllMoved(P0: Procs, P: Procs, kids: Kids, born: map<nat, nat>, clock: nat, list: seq<nat>, p: nat)
    requires Sound(P, kids, born, clock, list) && p in P && p in kids && kids[p] == [] && p != IDLE && ParentsMoved(P0, P, p) && IDLE in P0 && P0[IDLE].parent != p
    ensures forall x | x in P :: x in P0 && P[x].parent == if P0[x].parent == p then INIT else P0[x].parent
  {
    ChildrenOf(P, kids, born, p);
    forall x | x in P ensures P[x].parent == if P0[x].parent == p then INIT else P0[x].parent { assert x !in kids[p]; }
  }

  lemma {:induction false} LeftIsSound(P: Procs, kids: Kids, born: map<nat, nat>, clock: nat, list: seq<nat>, p: nat)
    requires Leaving(P, kids, born, clock, list, p) && kids[p] == []
    ensures Sound(P, kids, born, clock, list)
  {
    Tighten(P, kids, born, p);
    forall x | x in P ensures WaitOk(P, kids, x) { }
  }

  datatype Outcome = Collected(pid: nat) | Blocked | NoChild
  datatype KillResult = Killed | AlreadyDying | NoSuchProcess

  class Kernel {
    var procs: Procs
    var current: nat
    var queue: set<nat>
    var procNum: nat
    var list: seq<nat>
    var nrProcess: nat
    const pids: PidAllocator
    ghost var kids: Kids
    ghost var born: map<nat, nat>
    ghost var clock: nat

    /** What holds even while `current` gives up the processor. */
    ghost predicate Stable()
      reads this, pids
    {
      && Sound(procs, kids, born, clock, list) && current in procs && Queued(procs, current, queue)
      && nrProcess == |list| + 1 && pids.Safe(list) && Counts(procNum, queue)
    }

    ghost predicate Valid()
      reads this, pids
    {
      Stable() && procs[current].state.Runnable?
    }

    /** The state after proc_init. */
    constructor ()
      ensures Valid() && fresh(pids) && current == IDLE && procs.Keys == {IDLE, INIT}
    {
      var idle := Proc(Runnable, Nothing, false, IDLE, To(INIT), Null, Null);
      var init := Proc(Runnable, Nothing, false, IDLE, Null, Null, Null);
      procs, current, queue, procNum, list, nrProcess := map[IDLE := idle, INIT := init], IDLE, {INIT}, 1, [INIT], 2;
      pids := new PidAllocator.StartAfter(INIT);
      kids, born, clock := map[IDLE := [INIT], INIT := []], map[IDLE := 0, INIT := 1], 2;
      new;
      FirstForest(procs, kids, born);
      assert WaitOk(procs, kids, IDLE) && WaitOk(procs, kids, INIT);
    }

    /** wakeup_proc; its assertion is the precondition. */
    method WakeupProc(p: nat)
      requires Counts(procNum, queue) && p in procs && !procs[p].state.Zombie? && (p in queue ==> procs[p].state.Runnable?)
      modifies `procs, `queue, `procNum
      ensures procs == Woken(old(procs), p) && Counts(procNum, queue)
      ensures procs == if old(procs)[p].state.Runnable? then old(procs) else old(procs)[p := old(procs)[p].(state := Runnable, wait := Nothing)]
      ensures queue == if old(procs)[p].state.Runnable? || p == current || p == IDLE then old(queue) else old(queue) + {p}
    {
      if !procs[p].state.Runnable? {
        procs := procs[p := procs[p].(state := Runnable, wait := Nothing)];
        if p != current && p != IDLE {
          CountsIn(procNum, queue, p);
          queue, procNum := queue + {p}, procNum + 1;
        }
      }
    }

    /** The first half of schedule(): a process that can go on joins the queue. */
    method RequeueCurrent()
      requires Queued(procs, current, queue) && Counts(procNum, queue)
      modifies `queue, `procNum
      ensures AllQueued(procs, queue) && Counts(procNum, queue)
    {
      hide Counts;
      if procs[current].state.Runnable? && current != IDLE {
        CountsIn(procNum, queue, current);
        queue, procNum := queue + {current}, procNum + 1;
      }
    }

    /** schedule(): the queue hands over some process if it has one, and IDLE runs otherwise. */
    method Schedule()
      requires Queued(procs, current, queue) && Counts(procNum, queue)
      modifies `current, `queue, `procNum
      ensures current in procs && Queued(procs, current, queue) && Counts(procNum, queue) && procs[current].state.Runnable?
      ensures current == IDLE ==> forall p | p in procs && p != IDLE :: !procs[p].state.Runnable?
    {
      hide Counts;
      RequeueCurrent();
      if queue == {} { current := IDLE; }
      else {
        var next :| next in queue;
        CountsOut(procNum, queue, next);
        queue, procNum, current := queue - {next}, procNum - 1, next;
      }
    }

    /** do_sleep, or a wait for a semaphore or the keyboard: `current` sleeps and somebody else runs. */
    method Sleep(w: Wait)
      requires Valid() && current != IDLE && (w.Interruptible? || w.Semaphore?)
      modifies this
      ensures Valid() && procs == old(procs)[old(current) := old(procs[current]).(state := Sleeping, wait := w)]
      ensures kids == old(kids) && current != old(current)
    {
      hide Counts, Sound, Queued;
      KidsOf(procs, kids, born, clock, list, current);
      FallAsleep(w);
      Schedule();
    }

    /** `current` is marked as sleeping; a process that is to wait for children has none to collect. */
    method FallAsleep(w: Wait)
      requires Valid() && current != IDLE && w != Nothing && current in kids && (w.Child? ==> NoZombieFor(procs, kids[current], w.target))
      modifies `procs
      ensures Stable() && procs == old(procs)[current := old(procs[current]).(state := Sleeping, wait := w)]
    {
      hide Counts, Sound, NoZombieFor;
      StateKeepsSound(procs, kids, born, clock, list, current, Sleeping, w);
      procs := procs[current := procs[current].(state := Sleeping, wait := w)];
    }

    /** A sleeper is woken by what it waits for: a timer, the keyboard or a semaphore. */
    method Wake(p: nat)
      requires Valid() && p in procs && procs[p].state.Sleeping?
      modifies `procs, `queue, `procNum
      ensures Valid() && procs == old(procs)[p := old(procs)[p].(state := Runnable, wait := Nothing)] && queue == old(queue) + {p}
    {
      hide Counts, Sound;
      OneProc(procs, kids, born, clock, list, p);
      StateKeepsSound(procs, kids, born, clock, list, p, Runnable, Nothing);
      WakeupProc(p);
    }

    /** do_kill: the process is marked, and woken if its wait may be interrupted; nobody else is concerned. */
    method Kill(pid: nat) returns (r: KillResult)
      requires Valid()
      modifies `procs, `queue, `procNum
      ensures Valid()
      ensures r == if pid !in old(procs) || pid == IDLE then NoSuchProcess else if old(procs)[pid].exiting then AlreadyDying else Killed
      ensures r != Killed ==> procs == old(procs)
      ensures r == Killed ==> procs.Keys == old(procs).Keys && forall x | x in procs && x != pid :: procs[x] == old(procs)[x]
      ensures r == Killed ==> var was, p := old(procs)[pid], procs[pid];
        && p.exiting && p.parent == was.parent && p.cptr == was.cptr && p.yptr == was.yptr && p.optr == was.optr
        && if was.wait.Interruptible? || was.wait.Child? then p.state.Runnable? && p.wait == Nothing && queue == old(queue) + {pid}
           else p.state == was.state && p.wait == was.wait && queue == old(queue)
    {
      hide Counts, Sound;
      if pid in procs { OneProc(procs, kids, born, clock, list, pid); }
      if !(0 < pid < MAX_PID && pid in procs) { return NoSuchProcess; }
      if procs[pid].exiting { return AlreadyDying; }
      ExitingKeepsSound(procs, kids, born, clock, list, pid);
      procs := procs[pid := procs[pid].(exiting := true)];
      if procs[pid].wait.Interruptible? || procs[pid].wait.Child? { Wake(pid); }
      r := Killed;
    }

    /** do_fork with memory enough (`memory`), or not: a new runnable child of `current` under a new pid. */
    method Fork(memory: bool) returns (pid: nat, ok: bool)
      requires Valid()
      modifies this, pids
      ensures Valid() && current == old(current)
      ensures ok <==> old(nrProcess) < MAX_PROCESS && memory
      ensures !ok ==> procs == old(procs) && list == old(list)
      ensures ok ==> FirstFree(old(list), After(old(pids.lastPid)), pid) && pid !in old(procs)
      ensures ok ==> NextFree(old(list), old(pids.lastPid), pid) && list == [pid] + old(list)
      ensures ok ==> procs == Woken(Linked(old(procs), current, pid), pid) && Born(old(procs), procs, current, pid)
      ensures ok ==> queue == old(queue) + {pid} && current in old(kids) && current in kids && kids[current] == [pid] + old(kids)[current]
    {
      hide Counts, Sound, FirstFree, Linked;
      pid := 0;
      if nrProcess >= MAX_PROCESS { return 0, false; }
      if !memory { return 0, false; }
      ok := true;
      ListedOf(procs, kids, born, clock, list);
      pid := pids.GetPid(list);
      NotListed(list, After(old(pids.lastPid)), pid);
      BornIs(procs, current, pid);
      Adopt(pid);
      ForkKidsAt(old(kids), current, pid);
    }

    /** set_links and wakeup_proc for a new child of `current`. */
    method Adopt(pid: nat)
      requires Valid() && pid !in list && 1 <= pid < MAX_PID && pids.Safe([pid] + list)
      modifies this
      ensures Valid() && current == old(current) && pid !in old(procs) && list == [pid] + old(list)
      ensures procs == Woken(Linked(old(procs), current, pid), pid) && queue == old(queue) + {pid}
      ensures current in old(kids) && kids == ForkKids(old(kids), current, pid)
    {
      hide Counts, Sound, Linked, Queued, ForkKids, ForkBorn, Woken;
      KidsOf(procs, kids, born, clock, list, current);
      ForkKeepsSound(procs, kids, born, clock, list, current, pid);
      ForkQueue(procs, pid, current, queue);
      kids, born, clock := ForkKids(kids, current, pid), ForkBorn(born, pid, clock), clock + 1;
      procs := Linked(procs, current, pid);
      list, nrProcess := [pid] + list, nrProcess + 1;
      WakeupProc(pid);
    }

    /** The loop of do_wait along the sibling links. */
    method SearchAll(ghost s: seq<nat>) returns (hasKid: bool, found: Link)
      requires current in procs && procs[current].cptr == HeadOf(s)
      requires forall i: nat | i < |s| :: s[i] in procs && procs[s[i]].optr == NextOf(s, i)
      ensures hasKid <==> s != []
      ensures found.To? ==> found.pid in s && found.pid in procs && procs[found.pid].state.Zombie?
      ensures found == Null ==> NoZombieFor(procs, s, 0)
      ensures found.To? ==> FirstZombie(procs, s, found.pid)
    {
      found, hasKid := Null, false;
      var proc := procs[current].cptr;
      ghost var i: nat := 0;
      while proc.To?
        invariant i <= |s| && proc == (if i < |s| then To(s[i]) else Null) && (hasKid <==> i > 0)
        invariant forall j: nat | j < i :: !procs[s[j]].state.Zombie?
        decreases |s| - i
      {
        hasKid := true;
        if procs[proc.pid].state.Zombie? { return true, proc; }
        assert s[i] in procs;
        proc := procs[proc.pid].optr;
        i := i + 1;
      }
    }

    /** The search of do_wait: for one child, by its pid, or along the links for any one that is a zombie. */
    method Search(pid: int) returns (hasKid: bool, found: Link)
      requires Valid() && current in kids
      ensures hasKid <==> if pid == 0 then kids[current] != [] else pid > 0 && pid in kids[current]
      ensures found.To? ==> found.pid in kids[current] && found.pid in procs && procs[found.pid].state.Zombie? && (pid == 0 || pid == found.pid)
      ensures found == Null ==> pid < 0 || NoZombieFor(procs, kids[current], pid)
      ensures found.To? && pid == 0 ==> FirstZombie(procs, kids[current], found.pid)
    {
      hide Counts, Queued, Forest, WaitsOk;
      ChildrenOf(procs, kids, born, current);
      Limit(procs, list);
      hide InList, InitFirst;
      if pid == 0 {
        hasKid, found := SearchAll(kids[current]);
      } else {
        found, hasKid := Null, false;
        if 0 < pid < MAX_PID && pid in procs && procs[pid].parent == current {
          hasKid := true;
          if procs[pid].state.Zombie? { found := To(pid); }
        }
      }
    }

    /** The end of do_wait: the zombie is taken out of the lists and the links. */
    method Collect(c: nat)
      requires Valid() && current in kids && c in kids[current] && c in procs && procs[c].state.Zombie?
      modifies this
      ensures Valid() && current == old(current) && list == WithoutPid(old(list), c)
      ensures exists k: nat :: k < |old(list)| && old(list)[k] == c && list == old(list)[..k] + old(list)[k + 1..]
      ensures current in kids
      ensures exists i: nat ::
                i < |old(kids)[current]| && old(kids)[current][i] == c && kids[current] == old(kids)[current][..i] + old(kids)[current][i + 1..]
      ensures Gone(old(procs), procs, c)
      ensures old(procs)[c].parent in old(procs) && old(procs)[c].parent != c && procs == Unlink(old(procs), c)
    {
      hide Counts, Sound, Queued, Unlink, CollectKids;
      ghost var i := CollectKeepsSound(procs, kids, born, clock, list, current, c);
      ghost var k := WithoutPidAt(list, c);
      UnlinkStates(procs, c);
      CollectKidsAt(kids, current, i);
      CollectQueue(procs, current, queue, c);
      ListedOf(procs, kids, born, clock, list);
      WithoutPidIs(list, c);
      kids := CollectKids(kids, current, i);
      list, nrProcess := WithoutPid(list, c), nrProcess - 1;
      procs := Unlink(procs, c);
    }

    /** do_wait up to its next call of the scheduler. */
    method Wait(pid: int) returns (r: Outcome)
      requires Valid() && current != IDLE
      modifies this
      ensures Valid()
      ensures r.NoChild? <==> forall c | c in old(procs) && c != IDLE && old(procs)[c].parent == old(current) :: pid != 0 && pid != c
      ensures r.Collected? <==> exists c :: c in old(procs) && c != IDLE && old(procs)[c].parent == old(current) && old(procs)[c].state.Zombie? && (pid == 0 || pid == c)
      ensures r.NoChild? ==> procs == old(procs)
      ensures r.Collected? ==> r.pid in old(procs) && old(procs)[r.pid].state.Zombie? && old(procs)[r.pid].parent == old(current)
      ensures r.Collected? ==> current == old(current) != r.pid && current in old(procs) && procs == Unlink(old(procs), r.pid) && list == WithoutPid(old(list), r.pid)
      ensures r.Collected? ==> Gone(old(procs), procs, r.pid) && exists k: nat :: k < |old(list)| && old(list)[k] == r.pid && list == old(list)[..k] + old(list)[k + 1..]
      ensures r.Blocked? ==> pid >= 0 && procs == old(procs)[old(current) := old(procs[current]).(state := Sleeping, wait := Child(pid))]
    {
      hide Counts, Queued, Sound;
      KidsOf(procs, kids, born, clock, list, current);
      SoundForest(procs, kids, born, clock, list);
      ChildrenOf(procs, kids, born, current);
      var hasKid, found := Search(pid);
      if found.To? {
        Collect(found.pid);
        r := Collected(found.pid);
      } else if hasKid {
        FallAsleep(Child(pid));
        Schedule();
        r := Blocked;
      } else {
        r := NoChild;
      }
    }

    /** The loop of do_exit: all children of `p` go to INIT. */
    method GiveAway(p: nat)
      requires Leaving(procs, kids, born, clock, list, p) && p == current && Queued(procs, current, queue) && Counts(procNum, queue)
      modifies `procs, `queue, `procNum, `kids
      ensures Leaving(procs, kids, born, clock, list, p) && Queued(procs, current, queue) && Counts(procNum, queue)
      ensures p in kids && kids[p] == [] && procs.Keys == old(procs).Keys && ParentsMoved(old(procs), procs, p)
      ensures p in old(kids) && Heard(old(procs), procs, p, Told(old(procs), old(kids)[p]))
    {
      hide Counts, Leaving, Queued, Moved, Reparent, Heard, Told;
      HeadLeaving(procs, kids, born, clock, list, p);
      LeavingKids(procs, kids, born, clock, list, p);
      ghost var all, told: set<nat>, i := kids[p], {}, 0;
      NobodyHeard(procs, p);
      while procs[p].cptr != Null
        invariant Leaving(procs, kids, born, clock, list, p) && Queued(procs, current, queue) && Counts(procNum, queue)
        invariant ParentsMoved(old(procs), procs, p)
        invariant p in procs && p in kids && procs[p].cptr == HeadOf(kids[p]) && procs.Keys == old(procs).Keys
        invariant Heard(old(procs), procs, p, told) && told + Told(old(procs), kids[p]) == Told(old(procs), all)
        invariant p !in kids[p]
        decreases |kids[p]|
      {
        ghost var was, c, rest := procs, kids[p][0], kids[p][1..];
        assert kids[p] == [c] + rest;
        TellOn(old(procs), old(kids), procs, p, told, c, rest, all);
        MoveOne(p);
        MovedAgain(old(procs), was, procs, p);
        HeardTwice(old(procs), was, procs, p, told, Told(was, [c]));
        told := told + Told(was, [c]);
        HeadLeaving(procs, kids, born, clock, list, p);
      }
      NobodyTold(old(procs));
    }

    /** One turn. */
    method MoveOne(p: nat)
      requires Leaving(procs, kids, born, clock, list, p) && p == current && Queued(procs, current, queue) && Counts(procNum, queue)
      requires p in kids && kids[p] != []
      modifies `procs, `queue, `procNum, `kids
      ensures Leaving(procs, kids, born, clock, list, p) && Queued(procs, current, queue) && Counts(procNum, queue)
      ensures p in kids && kids[p] == old(kids)[p][1..] && procs.Keys == old(procs).Keys && ParentsMoved(old(procs), procs, p)
      ensures Heard(old(procs), procs, p, Told(old(procs), [old(kids)[p][0]]))
    {
      hide Counts, Leaving, Queued, Reparent, ParentsMoved, Heard, Told;
      HeadLeaving(procs, kids, born, clock, list, p);
      MovedKeepsLeaving(procs, kids, born, clock, list, p);
      MovedQueue(procs, kids, born, clock, list, p, current, queue);
      MovedParents(procs, kids, born, clock, list, p);
      MovedHeard(procs, kids, born, clock, list, p);
      kids := ReparentKids(kids, p);
      var c := procs[p].cptr.pid;
      procs := Reparent(procs, p);
      if procs[c].state.Zombie? && procs[INIT].wait.Child? { WakeupProc(INIT); }
    }

    /** do_exit of any process but IDLE and INIT: its children go to INIT, whoever waits for it or for them is woken. */
    method Exit()
      requires Valid() && current != IDLE && current != INIT
      modifies this
      ensures Valid() && procs.Keys == old(procs).Keys && old(current) in procs && procs[old(current)].state.Zombie?
      ensures forall x | x in procs :: procs[x].parent == if old(procs)[x].parent == old(current) then INIT else old(procs)[x].parent
      ensures old(current) in kids && kids[old(current)] == [] && current != old(current)
      ensures Heard(old(procs), procs, old(current), {old(procs[current]).parent} +
        if exists c :: c in old(procs) && c != IDLE && old(procs)[c].parent == old(current) && old(procs)[c].state.Zombie? then {INIT} else {})
    {
      hide Counts, Sound, Queued, Leaving, Dead, ParentsMoved, Heard, Told, SomeZombie;
      IdleParent(procs, kids, born, clock, list, current);
      KidsOf(procs, kids, born, clock, list, current);
      ChildrenTold(procs, kids, born, clock, list, current);
      ghost var p, parent, all := current, procs[current].parent, kids[current];
      Die();
      ghost var was := procs;
      StillTold(old(procs), kids, born, clock, list, procs, p, {parent});
      GiveAway(current);
      HeardTwice(old(procs), was, procs, p, {parent}, Told(was, all));
      MovedAgain(old(procs), was, procs, current);
      LeftIsSound(procs, kids, born, clock, list, current);
      ZombieStill(procs, kids, born, clock, list, current);
      AllMoved(old(procs), procs, kids, born, clock, list, current);
      Schedule();
    }

    /** The first part of do_exit; the parent that is woken is no zombie. */
    method Die()
      requires Valid() && current != IDLE && current != INIT
      modifies `procs, `queue, `procNum
      ensures Leaving(procs, kids, born, clock, list, current) && Queued(procs, current, queue) && Counts(procNum, queue) && procs.Keys == old(procs).Keys
      ensures ParentsMoved(old(procs), procs, current)
      ensures Heard(old(procs), procs, current, {old(procs)[current].parent})
    {
      hide Counts, Sound, Queued, Leaving, ParentsMoved, Heard;
      DyingLeaves(procs, kids, born, clock, list, current);
      DeadParents(procs, current);
      DeadHeard(procs, kids, born, clock, list, current);
      DyingQueue(procs, current, queue);
      procs := procs[current := procs[current].(state := Zombie)];
      var parent := procs[current].parent;
      if procs[parent].wait.Child? { WakeupProc(parent); }
    }
  }

  lemma {:induction false} HeadLeaving(P: Procs, kids: Kids, born: map<nat, nat>, clock: nat, list: seq<nat>, p: nat)
    requires Leaving(P, kids, born, clock, list, p)
    ensures p in P && p in kids && P[p].cptr == HeadOf(kids[p]) && p != INIT
  {
    HeadKid(P, kids, born, To(p), p);
  }

  lemma {:induction false} IdleParent(P: Procs, kids: Kids, born: map<nat, nat>, clock: nat, list: seq<nat>, p: nat)
    requires Sound(P, kids, born, clock, list) && p != IDLE
    ensures IDLE in P && P[IDLE].parent != p
  {
  }

  lemma {:induction false} ZombieStill(P: Procs, kids: Kids, born: map<nat, nat>, clock: nat, list: seq<nat>, p: nat)
    requires Leaving(P, kids, born, clock, list, p)
    ensures p in P && P[p].state.Zombie?
  {
  }

  lemma {:induction false} DyingQueue(P: Procs, p: nat, queue: set<nat>)
    requires Queued(P, p, queue) && p != IDLE && P[p].parent in P && P[p].parent != p
    ensures p !in queue && (P[P[p].parent].state.Runnable? || P[p].parent !in queue)
    ensures Queued(Dead(P, p), p, if P[P[p].parent].wait.Child? && !P[P[p].parent].state.Runnable? && P[p].parent != IDLE then queue + {P[p].parent} else queue)
  {
  }

  lemma {:induction false} MovedQueue(P: Procs, kids: Kids, born: map<nat, nat>, clock: nat, list: seq<nat>, p: nat, current: nat, queue: set<nat>)
    requires Leaving(P, kids, born, clock, list, p) && p in kids && kids[p] != [] && p == current && Queued(P, current, queue)
    ensures INIT in P && P[p].cptr.To? && P[p].cptr.pid in P && INIT in Reparent(P, p) && P[p].cptr.pid in Reparent(P, p)
    ensures (INIT in queue ==> Reparent(P, p)[INIT].state.Runnable?)
    ensures var P1 := Reparent(P, p);
      Queued(Moved(P, p), current, if P1[P[p].cptr.pid].state.Zombie? && P1[INIT].wait.Child? && !P1[INIT].state.Runnable? then queue + {INIT} else queue)
  {
    ReparentKeepsStates(P, kids, born, p);
    hide Reparent;
  }

  lemma {:induction false} Limit(P: Procs, list: seq<nat>)
    requires InList(P, list)
    ensures forall p | p in P :: p < MAX_PID
  {
    forall p | p in P ensures p < MAX_PID { if p != IDLE { assert p in list; } }
  }

  lemma {:induction false} SoundForest(P: Procs, kids: Kids, born: map<nat, nat>, clock: nat, list: seq<nat>)
    requires Sound(P, kids, born, clock, list)
    ensures Forest(P, kids, born, Null)
  {
  }

  lemma {:induction false} KidsOf(P: Procs, kids: Kids, born: map<nat, nat>, clock: nat, list: seq<nat>, p: nat)
    requires Sound(P, kids, born, clock, list) && p in P
    ensures p in kids
  {
    assert WaitOk(P, kids, p);
  }

  lemma {:induction false} ListedOf(P: Procs, kids: Kids, born: map<nat, nat>, clock: nat, list: seq<nat>)
    requires Sound(P, kids, born, clock, list)
    ensures Listed(list)
  {
  }

  lemma {:induction false} NotListed(live: seq<nat>, c: nat, pid: nat)
    requires FirstFree(live, c, pid)
    ensures pid !in live && 1 <= pid < MAX_PID
  {
  }

  lemma {:induction false} ForkQueue(P: Procs, pid: nat, current: nat, queue: set<nat>)
    requires Queued(P, current, queue) && pid !in P && pid != IDLE
    ensures Queued(Woken(Linked(P, current, pid), pid), current, queue + {pid}) && pid !in queue && pid != current
    ensures pid in Linked(P, current, pid) && Linked(P, current, pid)[pid].state.Uninit?
    ensures current in Woken(Linked(P, current, pid), pid) && Woken(Linked(P, current, pid), pid)[current].state == P[current].state
  {
    LinkedStates(P, current, pid);
    hide Linked;
  }

  lemma {:induction false} FirstForest(P: Procs, kids: Kids, born: map<nat, nat>)
    requires P.Keys == {IDLE, INIT} && P[IDLE].cptr == To(INIT) && P[INIT].cptr == Null && P[INIT].parent == IDLE && P[IDLE].parent == IDLE
    requires P[INIT].yptr == Null && P[INIT].optr == Null && kids == map[IDLE := [INIT], INIT := []] && born == map[IDLE := 0, INIT := 1]
    ensures Forest(P, kids, born, Null)
  {
    forall p | p in P ensures Kin(P, kids, Null, p) { if p == IDLE { assert ChildAt(P, IDLE, [INIT], 0, false); } }
    forall c | c in P && c != IDLE ensures HasParent(P, kids, born, c) { }
  }
}
