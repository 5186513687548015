/** The dining philosophers of sync/check_sync.c that use the Hoare monitor of sync/monitor.c, in any interleaving
    of these steps: a semaphore operation, with the check that chooses it; one read or write of a counter or of an
    own state; and one test of a philosopher, which reads three states and may write one. All but the semaphore
    operations are made inside the monitor. */
module PhilosophersMonitor {
  import opened Semaphore
  import opened Table

  /** Which call of phi_test_condvar a cond_signal belongs to. */
  datatype Call = AfterTake | AfterLeft | AfterRight

  /** Where a philosopher is. The states that end in `Wait` are asleep in a queue. */
  datatype Pc =
    | Idle | TakeWait | TakeIn | TakeTest
    | SigCheck(r: Call) | SigUp(r: Call) | SigDown(r: Call) | SigWait(r: Call) | SigDec(r: Call)
    | TakeCheck | CondInc | CondRelease | CondDown | CondWait | CondDec | TakeLeave
    | Dining | PutWait | PutIn | TestLeft | TestRight | PutLeave | Quit
  {
    /** Inside the monitor and running. */
    predicate Active() {
      TakeIn? || TakeTest? || SigCheck? || SigUp? || SigDec? || TakeCheck? || CondInc? || CondRelease? || CondDec?
      || TakeLeave? || PutIn? || TestLeft? || TestRight? || PutLeave?
    }
    /** Counted in `next_count`. */
    predicate Signalling() { SigUp? || SigDown? || SigWait? || SigDec? }
    /** Counted in the `count` of its condition variable. */
    predicate Counted() { CondRelease? || CondDown? || CondWait? || CondDec? }
    predicate Asleep() { TakeWait? || SigWait? || CondWait? || PutWait? }

    /** Where a sleeper goes on when it is handed a permit. */
    function Resume(): Pc {
      match this
      case TakeWait => TakeIn
      case PutWait => PutIn
      case SigWait(r) => SigDec(r)
      case CondWait => CondDec
      case _ => this
    }

    /** How many steps of the round are behind. */
    function Position(): nat {
      match this
      case Idle => 0 case TakeWait => 1 case TakeIn => 2 case TakeTest => 3
      case SigCheck(r) => Offset(r) case SigUp(r) => Offset(r) + 1 case SigDown(r) => Offset(r) + 2
      case SigWait(r) => Offset(r) + 3 case SigDec(r) => Offset(r) + 4
      case TakeCheck => 9 case CondInc => 10 case CondRelease => 11 case CondDown => 12 case CondWait => 13 case CondDec => 14
      case TakeLeave => 15 case Dining => 16 case PutWait => 17 case PutIn => 18 case TestLeft => 19 case TestRight => 25
      case PutLeave => 31 case Quit => 0
    }
  }

  function Offset(r: Call): nat { if r.AfterTake? then 4 else if r.AfterLeft? then 20 else 26 }

  /** A condition variable. */
  datatype Cond = Cond(sem: Sem, count: int)

  datatype State = State(pc: seq<Pc>, flag: seq<Flag>, mutex: Sem, next: Sem, nextCount: int, cv: seq<Cond>, meals: seq<nat>)

  predicate WellFormed(st: State) {
    |st.pc| == |st.flag| == |st.cv| == |st.meals| == N
  }

  /** After monitor_init. */
  const Init: State := State(seq(N, _ => Idle), seq(N, _ => Thinking), Sem(1, []), Sem(0, []), 0,
                             seq(N, _ => Cond(Sem(0, []), 0)), seq(N, _ => 0))

  function Target(r: Call, i: nat): nat
    requires i < N
  {
    match r case AfterTake => i case AfterLeft => Left(i) case AfterRight => Right(i)
  }

  function Return(r: Call): Pc {
    match r case AfterTake => TakeCheck case AfterLeft => TestRight case AfterRight => PutLeave
  }

  function Wake(pc: seq<Pc>, w: Woken): seq<Pc> {
    if w.First? && w.p < |pc| then pc[w.p := pc[w.p].Resume()] else pc
  }

  /** Leaving the monitor: a suspended signaller comes first. */
  function Release(st: State, i: nat, goOn: Pc): State
    requires WellFormed(st) && i < N
  {
    if st.nextCount > 0 then
      var (m, w) := Up(st.next);
      st.(next := m, pc := Wake(st.pc[i := goOn], w))
    else
      var (m, w) := Up(st.mutex);
      st.(mutex := m, pc := Wake(st.pc[i := goOn], w))
  }

  function Enter(st: State, i: nat, got: Pc, wait: Pc): State
    requires WellFormed(st) && i < N
  {
    var (m, ok) := Down(st.mutex, i);
    st.(mutex := m, pc := st.pc[i := if ok then got else wait])
  }

  /** phi_test_condvar for the target of `r` up to its call of cond_signal. */
  function Test(st: State, i: nat, r: Call): State
    requires WellFormed(st) && i < N
  {
    var k := Target(r, i);
    if MayEat(st.flag, k) then st.(flag := st.flag[k := Eating], pc := st.pc[i := SigCheck(r)])
    else st.(pc := st.pc[i := Return(r)])
  }

  predicate Enabled(st: State, i: nat)
    requires WellFormed(st)
  {
    i < N && !st.pc[i].Asleep() && !st.pc[i].Quit?
  }

  /** One step of philosopher `i`. */
  function Next(st: State, i: nat): (r: State)
    requires WellFormed(st) && Enabled(st, i)
    ensures WellFormed(r)
  {
    match st.pc[i]
    case Idle => Enter(st, i, TakeIn, TakeWait)
    case TakeIn => st.(flag := st.flag[i := Hungry], pc := st.pc[i := TakeTest])
    case TakeTest => Test(st, i, AfterTake)
    case SigCheck(r) =>
      if st.cv[Target(r, i)].count > 0 then st.(nextCount := st.nextCount + 1, pc := st.pc[i := SigUp(r)])
      else st.(pc := st.pc[i := Return(r)])
    case SigUp(r) =>
      var k := Target(r, i);
      var (m, w) := Up(st.cv[k].sem);
      st.(cv := st.cv[k := st.cv[k].(sem := m)], pc := Wake(st.pc[i := SigDown(r)], w))
    case SigDown(r) =>
      var (m, ok) := Down(st.next, i);
      st.(next := m, pc := st.pc[i := if ok then SigDec(r) else SigWait(r)])
    case SigDec(r) => st.(nextCount := st.nextCount - 1, pc := st.pc[i := Return(r)])
    case TakeCheck => st.(pc := st.pc[i := if st.flag[i] != Eating then CondInc else TakeLeave])
    case CondInc => st.(cv := st.cv[i := st.cv[i].(count := st.cv[i].count + 1)], pc := st.pc[i := CondRelease])
    case CondRelease => Release(st, i, CondDown)
    case CondDown =>
      var (m, ok) := Down(st.cv[i].sem, i);
      st.(cv := st.cv[i := st.cv[i].(sem := m)], pc := st.pc[i := if ok then CondDec else CondWait])
    case CondDec => st.(cv := st.cv[i := st.cv[i].(count := st.cv[i].count - 1)], pc := st.pc[i := TakeLeave])
    case TakeLeave => Release(st, i, Dining)
    case Dining => Enter(st, i, PutIn, PutWait)
    case PutIn => st.(flag := st.flag[i := Thinking], pc := st.pc[i := TestLeft])
    case TestLeft => Test(st, i, AfterLeft)
    case TestRight => Test(st, i, AfterRight)
    case PutLeave =>
      Release(st.(meals := st.meals[i := st.meals[i] + 1]), i, if st.meals[i] + 1 < TIMES then Idle else Quit)
  }

  // ---------- What every reachable state keeps ----------

  /** Where the one baton of the monitor can be. */
  datatype Place = AtMutex | AtNext | AtCond(c: nat) | With(i: nat)

  predicate Holds(st: State, k: Place)
    requires WellFormed(st)
  {
    match k
    case AtMutex => st.mutex.value > 0
    case AtNext => st.next.value > 0
    case AtCond(c) => c < N && st.cv[c].sem.value > 0
    case With(i) => i < N && st.pc[i].Active()
  }

  /** The baton is in one place, `b`; the signaller counted in `next_count` is `g`. */
  ghost predicate BatonInv(st: State, b: Place)
    requires WellFormed(st)
  {
    && (forall k :: Holds(st, k) <==> k == b)
    && st.mutex.value <= 1 && Sound(st.mutex) && st.next.value <= 1 && Sound(st.next)
    && (forall i: nat :: i in st.mutex.queue <==> i < N && (st.pc[i].TakeWait? || st.pc[i].PutWait?))
    && (forall i: nat :: i in st.next.queue <==> i < N && st.pc[i].SigWait?)
  }

  datatype Signaller = Nobody | Philosopher(j: nat)

  /** A suspended signaller waits for nobody but the one it has woken, and gets the baton back from it. */
  ghost predicate ChainInv(st: State, b: Place, g: Signaller)
    requires WellFormed(st)
  {
    && (forall i: nat :: i < N && st.pc[i].Signalling() <==> g == Philosopher(i))
    && st.nextCount == (if g.Philosopher? then 1 else 0)
    && match g {
      case Nobody => b.AtMutex? || (b.With? && b.i < N && !st.pc[b.i].CondDec?)
      case Philosopher(j) =>
        j < N && !st.pc[j].r.AfterTake? &&
        match st.pc[j] {
          case SigUp(r) => b == With(j) && (st.pc[Target(r, j)].CondDown? || st.pc[Target(r, j)].CondWait?)
          case SigDec(_) => b == With(j)
          case SigDown(r) => b == AtNext || Answering(st, b, Target(r, j))
          case SigWait(r) => Answering(st, b, Target(r, j))
          case _ => false
        }
    }
  }

  /** Philosopher `t` has been signalled and has not left the monitor yet. */
  ghost predicate Answering(st: State, b: Place, t: nat)
    requires WellFormed(st)
  {
    t < N && ((b == AtCond(t) && st.pc[t].CondDown?) || (b == With(t) && (st.pc[t].CondDec? || st.pc[t].TakeLeave?)))
  }

  /** Somebody has let philosopher `i` eat and is about to wake it. */
  predicate Pending(st: State, i: nat, b: Place)
    requires WellFormed(st) && i < N
  {
    && b.With? && b.i < N && (st.pc[b.i].SigCheck? || st.pc[b.i].SigUp?)
    && !st.pc[b.i].r.AfterTake? && Target(st.pc[b.i].r, b.i) == i
  }

  /** What holds of philosopher `i` at its place in the program. */
  ghost predicate OneInv(st: State, i: nat, b: Place)
    requires WellFormed(st) && i < N
  {
    var pc, flag, c := st.pc[i], st.flag[i], st.cv[i];
    && c.count == (if pc.Counted() then 1 else 0)
    && c.sem.value <= 1 && Sound(c.sem) && c.sem.queue == (if pc.CondWait? then [i] else [])
    && (c.sem.value == 1 ==> pc.CondDown? && flag.Eating?)
    && (Pending(st, i, b) ==> (pc.CondDown? || pc.CondWait?) && flag.Eating? && c.sem.value == 0)
    && match pc {
      case TakeTest | CondInc | CondRelease => flag.Hungry?
      case SigCheck(r) => if r.AfterTake? then flag.Eating? else flag.Thinking?
      case SigUp(r) => flag.Thinking? && !r.AfterTake?
      case SigDown(r) => flag.Thinking? && !r.AfterTake?
      case SigWait(r) => flag.Thinking? && !r.AfterTake?
      case SigDec(r) => flag.Thinking? && !r.AfterTake?
      case TakeCheck => flag.Hungry? || flag.Eating?
      case CondDown | CondWait => flag.Hungry? || (flag.Eating? && (c.sem.value == 1 || Pending(st, i, b)))
      case CondDec | TakeLeave | Dining | PutWait | PutIn => flag.Eating?
      case _ => flag.Thinking?
    }
    && (pc.Quit? <==> st.meals[i] >= TIMES) && st.meals[i] <= TIMES
  }

  /** The philosophers whose turn to be tested is still to come. */
  predicate Exempt(st: State, i: nat, b: Place, g: Signaller)
    requires WellFormed(st) && i < N
  {
    || (b.With? && b.i < N && ExemptBy(st.pc[b.i], b.i, i))
    || (g.Philosopher? && g.j < N && ExemptBy(st.pc[g.j], g.j, i))
  }

  predicate ExemptBy(pc: Pc, h: nat, i: nat)
    requires h < N
  {
    match pc
    case TakeTest => i == h
    case TestLeft => i == Left(h) || i == Right(h)
    case TestRight => i == Right(h)
    case SigCheck(r) => r.AfterLeft? && i == Right(h)
    case SigUp(r) => r.AfterLeft? && i == Right(h)
    case SigDown(r) => r.AfterLeft? && i == Right(h)
    case SigWait(r) => r.AfterLeft? && i == Right(h)
    case SigDec(r) => r.AfterLeft? && i == Right(h)
    case _ => false
  }

  predicate Satisfied(st: State, k: nat, b: Place, g: Signaller)
    requires WellFormed(st) && k < N
  {
    st.flag[k].Hungry? && !Exempt(st, k, b, g) ==> st.flag[Left(k)].Eating? || st.flag[Right(k)].Eating?
  }

  ghost predicate Inv(st: State, b: Place, g: Signaller) {
    && WellFormed(st) && BatonInv(st, b) && ChainInv(st, b, g) && NoNeighbours(st.flag)
    && (forall i: nat | i < N :: Satisfied(st, i, b, g))
    && forall i: nat | i < N :: OneInv(st, i, b)
  }

  lemma {:induction false} InitInv()
    ensures Inv(Init, AtMutex, Signaller.Nobody)
  {
  }

  /** Where the baton is after a step of `i`, and who is suspended then. */
  ghost function PlaceAfter(st: State, i: nat, b: Place): Place
    requires WellFormed(st) && Enabled(st, i)
  {
    match st.pc[i]
    case Idle | Dining => if st.mutex.value > 0 then With(i) else b
    case SigUp(r) => if st.cv[Target(r, i)].sem.queue == [] then AtCond(Target(r, i)) else With(st.cv[Target(r, i)].sem.queue[0])
    case SigDown(r) => if st.next.value > 0 then With(i) else b
    case CondDown => if st.cv[i].sem.value > 0 then With(i) else b
    case CondRelease | TakeLeave | PutLeave =>
      if st.nextCount > 0 then if st.next.queue == [] then AtNext else With(st.next.queue[0])
      else if st.mutex.queue == [] then AtMutex else With(st.mutex.queue[0])
    case _ => b
  }

  ghost function SignallerAfter(st: State, i: nat, g: Signaller): Signaller
    requires WellFormed(st) && Enabled(st, i)
  {
    match st.pc[i]
    case SigCheck(r) => if st.cv[Target(r, i)].count > 0 then Philosopher(i) else g
    case SigDec(_) => Signaller.Nobody
    case _ => g
  }

  lemma {:induction false} StepNeighbour(st: State, i: nat, b: Place, g: Signaller, k: nat)
    requires Inv(st, b, g) && Enabled(st, i) && k < N
    ensures var r := Next(st, i); !(r.flag[k].Eating? && r.flag[Right(k)].Eating?)
  {
    Ring(i);
    Ring(k);
  }

  // ---------- One step keeps it ----------

  /** What a step of philosopher `i` needs to know about it and about the heads of the queues. */
  ghost predicate Known(st: State, i: nat, b: Place, g: Signaller)
    requires WellFormed(st)
  {
    && i < N && OneInv(st, i, b) && (st.pc[i].Signalling() <==> g == Philosopher(i))
    && (Holds(st, AtMutex) <==> b == AtMutex) && (Holds(st, AtNext) <==> b == AtNext)
    && (Holds(st, With(i)) <==> b == With(i)) && (Holds(st, AtCond(i)) <==> b == AtCond(i))
    && (st.mutex.queue != [] ==> st.mutex.queue[0] < N && (st.pc[st.mutex.queue[0]].TakeWait? || st.pc[st.mutex.queue[0]].PutWait?))
    && (st.next.queue != [] ==> st.next.queue[0] < N && st.pc[st.next.queue[0]].SigWait? && g == Philosopher(st.next.queue[0]))
    && Left(i) < N && Right(i) < N && Left(Right(i)) == i && Right(Left(i)) == i
    && Left(i) != i && Right(i) != i && Left(i) != Right(i)
  }

  ghost predicate KnownNeighbours(st: State, i: nat, b: Place)
    requires WellFormed(st)
  {
    i < N && Left(i) < N && Right(i) < N && OneInv(st, Left(i), b) && OneInv(st, Right(i), b)
  }

  lemma {:induction false} Seen(st: State, i: nat, b: Place, g: Signaller)
    requires Inv(st, b, g) && i < N
    ensures Known(st, i, b, g) && KnownNeighbours(st, i, b)
  {
    Ring(i);
    assert st.mutex.queue != [] ==> st.mutex.queue[0] in st.mutex.queue;
    assert st.next.queue != [] ==> st.next.queue[0] in st.next.queue;
  }

  /** The baton stays with `i` when it goes on inside the monitor and touches no semaphore. */
  lemma {:induction false} BatonKept(st: State, r: State, i: nat, b: Place)
    requires WellFormed(st) && WellFormed(r) && BatonInv(st, b) && i < N && st.pc[i].Active()
    requires r.mutex == st.mutex && r.next == st.next && forall k: nat | k < N :: r.cv[k].sem == st.cv[k].sem
    requires |r.pc| == N && r.pc[i].Active() && r.pc == st.pc[i := r.pc[i]]
    ensures BatonInv(r, b)
  {
    forall k ensures Holds(r, k) <==> k == b { assert Holds(st, k) <==> k == b; }
  }

  lemma {:induction false} TestBaton(st: State, i: nat, b: Place, g: Signaller)
    requires WellFormed(st) && Known(st, i, b, g) && BatonInv(st, b) && ChainInv(st, b, g)
    requires Enabled(st, i) && (st.pc[i].TakeTest? || st.pc[i].TestLeft? || st.pc[i].TestRight?)
    ensures BatonInv(Next(st, i), PlaceAfter(st, i, b))
  {
    BatonKept(st, Next(st, i), i, b);
  }

  lemma {:induction false} TestChain(st: State, i: nat, b: Place, g: Signaller)
    requires WellFormed(st) && Known(st, i, b, g) && KnownNeighbours(st, i, b) && BatonInv(st, b) && ChainInv(st, b, g)
    requires Enabled(st, i) && (st.pc[i].TakeTest? || st.pc[i].TestLeft? || st.pc[i].TestRight?)
    ensures ChainInv(Next(st, i), PlaceAfter(st, i, b), SignallerAfter(st, i, g))
  {
  }

  lemma {:induction false} TestSelf(st: State, i: nat, b: Place, g: Signaller)
    requires WellFormed(st) && Known(st, i, b, g)
    requires Enabled(st, i) && (st.pc[i].TakeTest? || st.pc[i].TestLeft? || st.pc[i].TestRight?)
    ensures OneInv(Next(st, i), i, PlaceAfter(st, i, b))
  {
  }

  lemma {:induction false} TestOwnOther(st: State, i: nat, b: Place, g: Signaller, k: nat)
    requires WellFormed(st) && Known(st, i, b, g) && Known(st, k, b, g)
    requires Enabled(st, i) && st.pc[i].TakeTest? && k < N && k != i
    ensures OneInv(Next(st, i), k, PlaceAfter(st, i, b))
  {
  }

  lemma {:induction false} TestLeftOther(st: State, i: nat, b: Place, g: Signaller, k: nat)
    requires WellFormed(st) && Known(st, i, b, g) && Known(st, k, b, g)
    requires Enabled(st, i) && st.pc[i].TestLeft? && k < N && k != i
    ensures OneInv(Next(st, i), k, PlaceAfter(st, i, b))
  {
  }

  lemma {:induction false} TestRightOther(st: State, i: nat, b: Place, g: Signaller, k: nat)
    requires WellFormed(st) && Known(st, i, b, g) && Known(st, k, b, g)
    requires Enabled(st, i) && st.pc[i].TestRight? && k < N && k != i
    ensures OneInv(Next(st, i), k, PlaceAfter(st, i, b))
  {
  }

  lemma {:induction false} TestOwnSatisfied(st: State, i: nat, b: Place, g: Signaller, k: nat)
    requires WellFormed(st) && Known(st, i, b, g) && Known(st, k, b, g) && BatonInv(st, b) && ChainInv(st, b, g) && Satisfied(st, k, b, g)
    requires Enabled(st, i) && st.pc[i].TakeTest? && k < N
    ensures Satisfied(Next(st, i), k, PlaceAfter(st, i, b), SignallerAfter(st, i, g))
  {
  }

  lemma {:induction false} TestLeftSatisfied(st: State, i: nat, b: Place, g: Signaller, k: nat)
    requires WellFormed(st) && Known(st, i, b, g) && Known(st, k, b, g) && BatonInv(st, b) && ChainInv(st, b, g) && Satisfied(st, k, b, g)
    requires Enabled(st, i) && (st.pc[i].TestLeft?) && k < N
    ensures Satisfied(Next(st, i), k, PlaceAfter(st, i, b), SignallerAfter(st, i, g))
  {
  }

  lemma {:induction false} TestRightSatisfied(st: State, i: nat, b: Place, g: Signaller, k: nat)
    requires WellFormed(st) && Known(st, i, b, g) && Known(st, k, b, g) && BatonInv(st, b) && ChainInv(st, b, g) && Satisfied(st, k, b, g)
    requires Enabled(st, i) && (st.pc[i].TestRight?) && k < N
    ensures Satisfied(Next(st, i), k, PlaceAfter(st, i, b), SignallerAfter(st, i, g))
  {
  }

  lemma {:induction false} TestSatisfied(st: State, i: nat, b: Place, g: Signaller, k: nat)
    requires WellFormed(st) && Known(st, i, b, g) && Known(st, k, b, g) && BatonInv(st, b) && ChainInv(st, b, g) && Satisfied(st, k, b, g)
    requires Enabled(st, i) && (st.pc[i].TestLeft? || st.pc[i].TestRight?) && k < N
    ensures Satisfied(Next(st, i), k, PlaceAfter(st, i, b), SignallerAfter(st, i, g))
  {
    if st.pc[i].TestLeft? { TestLeftSatisfied(st, i, b, g, k); } else { TestRightSatisfied(st, i, b, g, k); }
  }

  lemma {:induction false} SigCheckBaton(st: State, i: nat, b: Place, g: Signaller)
    requires WellFormed(st) && Known(st, i, b, g) && BatonInv(st, b) && ChainInv(st, b, g)
    requires Enabled(st, i) && (st.pc[i].SigCheck?)
    ensures BatonInv(Next(st, i), PlaceAfter(st, i, b))
  {
    BatonKept(st, Next(st, i), i, b);
  }

  lemma {:induction false} SigCheckChain(st: State, i: nat, b: Place, g: Signaller)
    requires WellFormed(st) && Known(st, i, b, g) && KnownNeighbours(st, i, b) && BatonInv(st, b) && ChainInv(st, b, g)
    requires Enabled(st, i) && (st.pc[i].SigCheck?)
    ensures ChainInv(Next(st, i), PlaceAfter(st, i, b), SignallerAfter(st, i, g))
  {
  }

  lemma {:induction false} SigCheckSelf(st: State, i: nat, b: Place, g: Signaller)
    requires WellFormed(st) && Known(st, i, b, g) && KnownNeighbours(st, i, b)
    requires Enabled(st, i) && (st.pc[i].SigCheck?)
    ensures OneInv(Next(st, i), i, PlaceAfter(st, i, b))
  {
  }

  lemma {:induction false} SigCheckOther(st: State, i: nat, b: Place, g: Signaller, k: nat)
    requires WellFormed(st) && Known(st, i, b, g) && Known(st, k, b, g)
    requires Enabled(st, i) && (st.pc[i].SigCheck?) && k < N && k != i
    ensures OneInv(Next(st, i), k, PlaceAfter(st, i, b))
  {
  }

  lemma {:induction false} SigCheckSatisfied(st: State, i: nat, b: Place, g: Signaller, k: nat)
    requires WellFormed(st) && Known(st, i, b, g) && Known(st, k, b, g) && BatonInv(st, b) && ChainInv(st, b, g) && Satisfied(st, k, b, g)
    requires Enabled(st, i) && (st.pc[i].SigCheck?) && k < N
    ensures Satisfied(Next(st, i), k, PlaceAfter(st, i, b), SignallerAfter(st, i, g))
  {
  }

  lemma {:induction false} SigUpHolds(st: State, i: nat, b: Place, g: Signaller, k: Place)
    requires WellFormed(st) && Known(st, i, b, g) && KnownNeighbours(st, i, b) && BatonInv(st, b) && ChainInv(st, b, g)
    requires Enabled(st, i) && st.pc[i].SigUp?
    ensures Holds(Next(st, i), k) <==> k == PlaceAfter(st, i, b)
  {
    assert Holds(st, k) <==> k == b;
  }

  lemma {:induction false} SigUpQueues(st: State, i: nat, b: Place, g: Signaller)
    requires WellFormed(st) && Known(st, i, b, g) && KnownNeighbours(st, i, b) && BatonInv(st, b) && ChainInv(st, b, g)
    requires Enabled(st, i) && st.pc[i].SigUp?
    ensures var r := Next(st, i);
      && r.mutex == st.mutex && r.next == st.next
      && (forall j: nat :: j in r.mutex.queue <==> j < N && (r.pc[j].TakeWait? || r.pc[j].PutWait?))
      && forall j: nat :: j in r.next.queue <==> j < N && r.pc[j].SigWait?
  {
  }

  lemma {:induction false} SigUpBaton(st: State, i: nat, b: Place, g: Signaller)
    requires WellFormed(st) && Known(st, i, b, g) && KnownNeighbours(st, i, b) && BatonInv(st, b) && ChainInv(st, b, g)
    requires Enabled(st, i) && (st.pc[i].SigUp?)
    ensures BatonInv(Next(st, i), PlaceAfter(st, i, b))
  {
    forall k ensures Holds(Next(st, i), k) <==> k == PlaceAfter(st, i, b) { SigUpHolds(st, i, b, g, k); }
    SigUpQueues(st, i, b, g);
    hide Next, PlaceAfter, Holds, ChainInv, OneInv;
  }

  lemma {:induction false} SigUpChain(st: State, i: nat, b: Place, g: Signaller)
    requires WellFormed(st) && Known(st, i, b, g) && KnownNeighbours(st, i, b) && BatonInv(st, b) && ChainInv(st, b, g)
    requires Enabled(st, i) && (st.pc[i].SigUp?)
    ensures ChainInv(Next(st, i), PlaceAfter(st, i, b), SignallerAfter(st, i, g))
  {
  }

  lemma {:induction false} SigUpSelf(st: State, i: nat, b: Place, g: Signaller)
    requires WellFormed(st) && Known(st, i, b, g) && KnownNeighbours(st, i, b)
    requires Enabled(st, i) && (st.pc[i].SigUp?)
    ensures OneInv(Next(st, i), i, PlaceAfter(st, i, b))
  {
  }

  lemma {:induction false} SigUpTarget(st: State, i: nat, b: Place, g: Signaller, k: nat)
    requires WellFormed(st) && Known(st, i, b, g) && Known(st, k, b, g)
    requires Enabled(st, i) && st.pc[i].SigUp? && k != i && k == Target(st.pc[i].r, i)
    ensures OneInv(Next(st, i), k, PlaceAfter(st, i, b))
  {
    assert [k][1..] == [];
  }

  lemma {:induction false} SigUpOther(st: State, i: nat, b: Place, g: Signaller, k: nat)
    requires WellFormed(st) && Known(st, i, b, g) && Known(st, k, b, g) && KnownNeighbours(st, i, b)
    requires Enabled(st, i) && st.pc[i].SigUp? && k != i && k != Target(st.pc[i].r, i)
    ensures OneInv(Next(st, i), k, PlaceAfter(st, i, b))
  {
  }

  lemma {:induction false} SigUpSatisfied(st: State, i: nat, b: Place, g: Signaller, k: nat)
    requires WellFormed(st) && Known(st, i, b, g) && Known(st, k, b, g) && BatonInv(st, b) && ChainInv(st, b, g) && Satisfied(st, k, b, g)
    requires Enabled(st, i) && (st.pc[i].SigUp?) && k < N
    ensures Satisfied(Next(st, i), k, PlaceAfter(st, i, b), SignallerAfter(st, i, g))
  {
  }

  lemma {:induction false} SigDownBaton(st: State, i: nat, b: Place, g: Signaller)
    requires WellFormed(st) && Known(st, i, b, g) && BatonInv(st, b) && ChainInv(st, b, g)
    requires Enabled(st, i) && (st.pc[i].SigDown?)
    ensures BatonInv(Next(st, i), PlaceAfter(st, i, b))
  {
    UpDown(st.next, i);
    forall k ensures Holds(Next(st, i), k) <==> k == PlaceAfter(st, i, b) {
      assert Holds(st, k) <==> k == b;
    }
  }

  lemma {:induction false} SigDownChain(st: State, i: nat, b: Place, g: Signaller)
    requires WellFormed(st) && Known(st, i, b, g) && KnownNeighbours(st, i, b) && BatonInv(st, b) && ChainInv(st, b, g)
    requires Enabled(st, i) && (st.pc[i].SigDown?)
    ensures ChainInv(Next(st, i), PlaceAfter(st, i, b), SignallerAfter(st, i, g))
  {
  }

  lemma {:induction false} SigDownSelf(st: State, i: nat, b: Place, g: Signaller)
    requires WellFormed(st) && Known(st, i, b, g) && KnownNeighbours(st, i, b)
    requires Enabled(st, i) && (st.pc[i].SigDown?)
    ensures OneInv(Next(st, i), i, PlaceAfter(st, i, b))
  {
  }

  lemma {:induction false} SigDownOther(st: State, i: nat, b: Place, g: Signaller, k: nat)
    requires WellFormed(st) && Known(st, i, b, g) && Known(st, k, b, g)
    requires Enabled(st, i) && (st.pc[i].SigDown?) && k < N && k != i
    ensures OneInv(Next(st, i), k, PlaceAfter(st, i, b))
  {
  }

  lemma {:induction false} SigDownSatisfied(st: State, i: nat, b: Place, g: Signaller, k: nat)
    requires WellFormed(st) && Known(st, i, b, g) && Known(st, k, b, g) && BatonInv(st, b) && ChainInv(st, b, g) && Satisfied(st, k, b, g)
    requires Enabled(st, i) && (st.pc[i].SigDown?) && k < N
    ensures Satisfied(Next(st, i), k, PlaceAfter(st, i, b), SignallerAfter(st, i, g))
  {
  }

  lemma {:induction false} InsideBaton(st: State, i: nat, b: Place, g: Signaller)
    requires WellFormed(st) && Known(st, i, b, g) && BatonInv(st, b) && ChainInv(st, b, g)
    requires Enabled(st, i) && (st.pc[i].TakeIn? || st.pc[i].PutIn? || st.pc[i].SigDec? || st.pc[i].TakeCheck? || st.pc[i].CondInc? || st.pc[i].CondDec?)
    ensures BatonInv(Next(st, i), PlaceAfter(st, i, b))
  {
    BatonKept(st, Next(st, i), i, b);
  }

  lemma {:induction false} InsideChain(st: State, i: nat, b: Place, g: Signaller)
    requires WellFormed(st) && Known(st, i, b, g) && KnownNeighbours(st, i, b) && BatonInv(st, b) && ChainInv(st, b, g)
    requires Enabled(st, i) && (st.pc[i].TakeIn? || st.pc[i].PutIn? || st.pc[i].SigDec? || st.pc[i].TakeCheck? || st.pc[i].CondInc? || st.pc[i].CondDec?)
    ensures ChainInv(Next(st, i), PlaceAfter(st, i, b), SignallerAfter(st, i, g))
  {
  }

  lemma {:induction false} InsideSelfFlag(st: State, i: nat, b: Place, g: Signaller)
    requires WellFormed(st) && Known(st, i, b, g) && KnownNeighbours(st, i, b)
    requires Enabled(st, i) && (st.pc[i].TakeIn? || st.pc[i].PutIn? || st.pc[i].TakeCheck?)
    ensures OneInv(Next(st, i), i, PlaceAfter(st, i, b))
  {
  }

  lemma {:induction false} InsideSelfCount(st: State, i: nat, b: Place, g: Signaller)
    requires WellFormed(st) && Known(st, i, b, g) && KnownNeighbours(st, i, b)
    requires Enabled(st, i) && (st.pc[i].SigDec? || st.pc[i].CondInc? || st.pc[i].CondDec?)
    ensures OneInv(Next(st, i), i, PlaceAfter(st, i, b))
  {
  }

  lemma {:induction false} InsideSelf(st: State, i: nat, b: Place, g: Signaller)
    requires WellFormed(st) && Known(st, i, b, g) && KnownNeighbours(st, i, b)
    requires Enabled(st, i) && (st.pc[i].TakeIn? || st.pc[i].PutIn? || st.pc[i].SigDec? || st.pc[i].TakeCheck? || st.pc[i].CondInc? || st.pc[i].CondDec?)
    ensures OneInv(Next(st, i), i, PlaceAfter(st, i, b))
  {
    if st.pc[i].TakeIn? || st.pc[i].PutIn? || st.pc[i].TakeCheck? { InsideSelfFlag(st, i, b, g); } else { InsideSelfCount(st, i, b, g); }
  }

  lemma {:induction false} InsideOther(st: State, i: nat, b: Place, g: Signaller, k: nat)
    requires WellFormed(st) && Known(st, i, b, g) && Known(st, k, b, g)
    requires Enabled(st, i) && (st.pc[i].TakeIn? || st.pc[i].PutIn? || st.pc[i].SigDec? || st.pc[i].TakeCheck? || st.pc[i].CondInc? || st.pc[i].CondDec?) && k < N && k != i
    ensures OneInv(Next(st, i), k, PlaceAfter(st, i, b))
  {
  }

  lemma {:induction false} InsideSatisfied(st: State, i: nat, b: Place, g: Signaller, k: nat)
    requires WellFormed(st) && Known(st, i, b, g) && Known(st, k, b, g) && BatonInv(st, b) && ChainInv(st, b, g) && Satisfied(st, k, b, g)
    requires Enabled(st, i) && (st.pc[i].TakeIn? || st.pc[i].PutIn? || st.pc[i].SigDec? || st.pc[i].TakeCheck? || st.pc[i].CondInc? || st.pc[i].CondDec?) && k < N
    ensures Satisfied(Next(st, i), k, PlaceAfter(st, i, b), SignallerAfter(st, i, g))
  {
  }

  lemma {:induction false} CondDownBaton(st: State, i: nat, b: Place, g: Signaller)
    requires WellFormed(st) && Known(st, i, b, g) && BatonInv(st, b) && ChainInv(st, b, g)
    requires Enabled(st, i) && (st.pc[i].CondDown?)
    ensures BatonInv(Next(st, i), PlaceAfter(st, i, b))
  {
    forall k ensures Holds(Next(st, i), k) <==> k == PlaceAfter(st, i, b) {
      assert Holds(st, k) <==> k == b;
    }
  }

  lemma {:induction false} CondDownChain(st: State, i: nat, b: Place, g: Signaller)
    requires WellFormed(st) && Known(st, i, b, g) && KnownNeighbours(st, i, b) && BatonInv(st, b) && ChainInv(st, b, g)
    requires Enabled(st, i) && (st.pc[i].CondDown?)
    ensures ChainInv(Next(st, i), PlaceAfter(st, i, b), SignallerAfter(st, i, g))
  {
  }

  lemma {:induction false} CondDownSelf(st: State, i: nat, b: Place, g: Signaller)
    requires WellFormed(st) && Known(st, i, b, g) && KnownNeighbours(st, i, b)
    requires Enabled(st, i) && (st.pc[i].CondDown?)
    ensures OneInv(Next(st, i), i, PlaceAfter(st, i, b))
  {
  }

  lemma {:induction false} CondDownOther(st: State, i: nat, b: Place, g: Signaller, k: nat)
    requires WellFormed(st) && Known(st, i, b, g) && Known(st, k, b, g)
    requires Enabled(st, i) && (st.pc[i].CondDown?) && k < N && k != i
    ensures OneInv(Next(st, i), k, PlaceAfter(st, i, b))
  {
  }

  lemma {:induction false} CondDownSatisfied(st: State, i: nat, b: Place, g: Signaller, k: nat)
    requires WellFormed(st) && Known(st, i, b, g) && Known(st, k, b, g) && BatonInv(st, b) && ChainInv(st, b, g) && Satisfied(st, k, b, g)
    requires Enabled(st, i) && (st.pc[i].CondDown?) && k < N
    ensures Satisfied(Next(st, i), k, PlaceAfter(st, i, b), SignallerAfter(st, i, g))
  {
  }

  lemma {:induction false} ReleaseNextBaton(st: State, i: nat, b: Place, g: Signaller)
    requires WellFormed(st) && Known(st, i, b, g) && BatonInv(st, b) && ChainInv(st, b, g)
    requires Enabled(st, i) && (st.nextCount > 0 && (st.pc[i].CondRelease? || st.pc[i].TakeLeave? || st.pc[i].PutLeave?))
    ensures BatonInv(Next(st, i), PlaceAfter(st, i, b))
  {
    UpDown(st.next, i);
    forall k ensures Holds(Next(st, i), k) <==> k == PlaceAfter(st, i, b) {
      assert Holds(st, k) <==> k == b;
    }
  }

  lemma {:induction false} ReleaseNextChain(st: State, i: nat, b: Place, g: Signaller)
    requires WellFormed(st) && Known(st, i, b, g) && KnownNeighbours(st, i, b) && BatonInv(st, b) && ChainInv(st, b, g)
    requires Enabled(st, i) && (st.nextCount > 0 && (st.pc[i].CondRelease? || st.pc[i].TakeLeave? || st.pc[i].PutLeave?))
    ensures ChainInv(Next(st, i), PlaceAfter(st, i, b), SignallerAfter(st, i, g))
  {
  }

  lemma {:induction false} ReleaseNextSelf(st: State, i: nat, b: Place, g: Signaller)
    requires WellFormed(st) && Known(st, i, b, g) && KnownNeighbours(st, i, b)
    requires Enabled(st, i) && (st.nextCount > 0 && (st.pc[i].CondRelease? || st.pc[i].TakeLeave? || st.pc[i].PutLeave?))
    ensures OneInv(Next(st, i), i, PlaceAfter(st, i, b))
  {
  }

  lemma {:induction false} ReleaseNextOther(st: State, i: nat, b: Place, g: Signaller, k: nat)
    requires WellFormed(st) && Known(st, i, b, g) && Known(st, k, b, g)
    requires Enabled(st, i) && (st.nextCount > 0 && (st.pc[i].CondRelease? || st.pc[i].TakeLeave? || st.pc[i].PutLeave?)) && k < N && k != i
    ensures OneInv(Next(st, i), k, PlaceAfter(st, i, b))
  {
  }

  lemma {:induction false} ReleaseNextSatisfied(st: State, i: nat, b: Place, g: Signaller, k: nat)
    requires WellFormed(st) && Known(st, i, b, g) && Known(st, k, b, g) && BatonInv(st, b) && ChainInv(st, b, g) && Satisfied(st, k, b, g)
    requires Enabled(st, i) && (st.nextCount > 0 && (st.pc[i].CondRelease? || st.pc[i].TakeLeave? || st.pc[i].PutLeave?)) && k < N
    ensures Satisfied(Next(st, i), k, PlaceAfter(st, i, b), SignallerAfter(st, i, g))
  {
  }

  lemma {:induction false} WaitingMutexBaton(st: State, i: nat, b: Place, g: Signaller)
    requires WellFormed(st) && Known(st, i, b, g) && BatonInv(st, b) && ChainInv(st, b, g)
    requires Enabled(st, i) && (st.nextCount <= 0 && st.pc[i].CondRelease?)
    ensures BatonInv(Next(st, i), PlaceAfter(st, i, b))
  {
    UpDown(st.mutex, i);
    assert b == With(i);
    forall k ensures Holds(Next(st, i), k) <==> k == PlaceAfter(st, i, b) {
      assert Holds(st, k) <==> k == b;
    }
  }

  lemma {:induction false} LeavingMutexBaton(st: State, i: nat, b: Place, g: Signaller)
    requires WellFormed(st) && Known(st, i, b, g) && BatonInv(st, b) && ChainInv(st, b, g)
    requires Enabled(st, i) && (st.nextCount <= 0 && st.pc[i].TakeLeave?)
    ensures BatonInv(Next(st, i), PlaceAfter(st, i, b))
  {
    UpDown(st.mutex, i);
    assert b == With(i);
    forall k ensures Holds(Next(st, i), k) <==> k == PlaceAfter(st, i, b) {
      assert Holds(st, k) <==> k == b;
    }
  }

  lemma {:induction false} ReleaseMutexBaton(st: State, i: nat, b: Place, g: Signaller)
    requires WellFormed(st) && Known(st, i, b, g) && BatonInv(st, b) && ChainInv(st, b, g)
    requires Enabled(st, i) && (st.nextCount <= 0 && (st.pc[i].CondRelease? || st.pc[i].TakeLeave?))
    ensures BatonInv(Next(st, i), PlaceAfter(st, i, b))
  {
    if st.nextCount <= 0 && st.pc[i].CondRelease? { WaitingMutexBaton(st, i, b, g); } else { LeavingMutexBaton(st, i, b, g); }
  }

  lemma {:induction false} ReleaseMutexChain(st: State, i: nat, b: Place, g: Signaller)
    requires WellFormed(st) && Known(st, i, b, g) && KnownNeighbours(st, i, b) && BatonInv(st, b) && ChainInv(st, b, g)
    requires Enabled(st, i) && (st.nextCount <= 0 && (st.pc[i].CondRelease? || st.pc[i].TakeLeave?))
    ensures ChainInv(Next(st, i), PlaceAfter(st, i, b), SignallerAfter(st, i, g))
  {
  }

  lemma {:induction false} ReleaseMutexSelf(st: State, i: nat, b: Place, g: Signaller)
    requires WellFormed(st) && Known(st, i, b, g) && KnownNeighbours(st, i, b)
    requires Enabled(st, i) && (st.nextCount <= 0 && (st.pc[i].CondRelease? || st.pc[i].TakeLeave?))
    ensures OneInv(Next(st, i), i, PlaceAfter(st, i, b))
  {
  }

  lemma {:induction false} ReleaseMutexOther(st: State, i: nat, b: Place, g: Signaller, k: nat)
    requires WellFormed(st) && Known(st, i, b, g) && Known(st, k, b, g)
    requires Enabled(st, i) && (st.nextCount <= 0 && (st.pc[i].CondRelease? || st.pc[i].TakeLeave?)) && k < N && k != i
    ensures OneInv(Next(st, i), k, PlaceAfter(st, i, b))
  {
  }

  lemma {:induction false} ReleaseMutexSatisfied(st: State, i: nat, b: Place, g: Signaller, k: nat)
    requires WellFormed(st) && Known(st, i, b, g) && Known(st, k, b, g) && BatonInv(st, b) && ChainInv(st, b, g) && Satisfied(st, k, b, g)
    requires Enabled(st, i) && (st.nextCount <= 0 && (st.pc[i].CondRelease? || st.pc[i].TakeLeave?)) && k < N
    ensures Satisfied(Next(st, i), k, PlaceAfter(st, i, b), SignallerAfter(st, i, g))
  {
  }

  lemma {:induction false} ReleaseLastBaton(st: State, i: nat, b: Place, g: Signaller)
    requires WellFormed(st) && Known(st, i, b, g) && BatonInv(st, b) && ChainInv(st, b, g)
    requires Enabled(st, i) && (st.nextCount <= 0 && st.pc[i].PutLeave?)
    ensures BatonInv(Next(st, i), PlaceAfter(st, i, b))
  {
    UpDown(st.mutex, i);
    forall k ensures Holds(Next(st, i), k) <==> k == PlaceAfter(st, i, b) {
      assert Holds(st, k) <==> k == b;
    }
  }

  lemma {:induction false} ReleaseLastChain(st: State, i: nat, b: Place, g: Signaller)
    requires WellFormed(st) && Known(st, i, b, g) && KnownNeighbours(st, i, b) && BatonInv(st, b) && ChainInv(st, b, g)
    requires Enabled(st, i) && (st.nextCount <= 0 && st.pc[i].PutLeave?)
    ensures ChainInv(Next(st, i), PlaceAfter(st, i, b), SignallerAfter(st, i, g))
  {
  }

  lemma {:induction false} ReleaseLastSelf(st: State, i: nat, b: Place, g: Signaller)
    requires WellFormed(st) && Known(st, i, b, g) && KnownNeighbours(st, i, b)
    requires Enabled(st, i) && (st.nextCount <= 0 && st.pc[i].PutLeave?)
    ensures OneInv(Next(st, i), i, PlaceAfter(st, i, b))
  {
  }

  lemma {:induction false} ReleaseLastOther(st: State, i: nat, b: Place, g: Signaller, k: nat)
    requires WellFormed(st) && Known(st, i, b, g) && Known(st, k, b, g)
    requires Enabled(st, i) && (st.nextCount <= 0 && st.pc[i].PutLeave?) && k < N && k != i
    ensures OneInv(Next(st, i), k, PlaceAfter(st, i, b))
  {
  }

  lemma {:induction false} ReleaseLastSatisfied(st: State, i: nat, b: Place, g: Signaller, k: nat)
    requires WellFormed(st) && Known(st, i, b, g) && Known(st, k, b, g) && BatonInv(st, b) && ChainInv(st, b, g) && Satisfied(st, k, b, g)
    requires Enabled(st, i) && (st.nextCount <= 0 && st.pc[i].PutLeave?) && k < N
    ensures Satisfied(Next(st, i), k, PlaceAfter(st, i, b), SignallerAfter(st, i, g))
  {
  }

  lemma {:induction false} EnterBaton(st: State, i: nat, b: Place, g: Signaller)
    requires WellFormed(st) && Known(st, i, b, g) && BatonInv(st, b) && ChainInv(st, b, g)
    requires Enabled(st, i) && (st.pc[i].Idle? || st.pc[i].Dining?)
    ensures BatonInv(Next(st, i), PlaceAfter(st, i, b))
  {
    UpDown(st.mutex, i);
    forall k ensures Holds(Next(st, i), k) <==> k == PlaceAfter(st, i, b) {
      assert Holds(st, k) <==> k == b;
    }
  }

  lemma {:induction false} EnterChain(st: State, i: nat, b: Place, g: Signaller)
    requires WellFormed(st) && Known(st, i, b, g) && KnownNeighbours(st, i, b) && BatonInv(st, b) && ChainInv(st, b, g)
    requires Enabled(st, i) && (st.pc[i].Idle? || st.pc[i].Dining?)
    ensures ChainInv(Next(st, i), PlaceAfter(st, i, b), SignallerAfter(st, i, g))
  {
  }

  lemma {:induction false} EnterSelf(st: State, i: nat, b: Place, g: Signaller)
    requires WellFormed(st) && Known(st, i, b, g) && KnownNeighbours(st, i, b)
    requires Enabled(st, i) && (st.pc[i].Idle? || st.pc[i].Dining?)
    ensures OneInv(Next(st, i), i, PlaceAfter(st, i, b))
  {
  }

  lemma {:induction false} EnterOther(st: State, i: nat, b: Place, g: Signaller, k: nat)
    requires WellFormed(st) && Known(st, i, b, g) && Known(st, k, b, g)
    requires Enabled(st, i) && (st.pc[i].Idle? || st.pc[i].Dining?) && k < N && k != i
    ensures OneInv(Next(st, i), k, PlaceAfter(st, i, b))
  {
  }

  lemma {:induction false} EnterSatisfied(st: State, i: nat, b: Place, g: Signaller, k: nat)
    requires WellFormed(st) && Known(st, i, b, g) && Known(st, k, b, g) && BatonInv(st, b) && ChainInv(st, b, g) && Satisfied(st, k, b, g)
    requires Enabled(st, i) && (st.pc[i].Idle? || st.pc[i].Dining?) && k < N
    ensures Satisfied(Next(st, i), k, PlaceAfter(st, i, b), SignallerAfter(st, i, g))
  {
  }

  lemma {:induction false} StepBaton(st: State, i: nat, b: Place, g: Signaller)
    requires Inv(st, b, g) && Enabled(st, i)
    ensures BatonInv(Next(st, i), PlaceAfter(st, i, b))
  {
    Seen(st, i, b, g);
    assert !st.pc[i].TakeWait? && !st.pc[i].SigWait? && !st.pc[i].CondWait? && !st.pc[i].PutWait? && !st.pc[i].Quit?;
    hide *;
    if st.pc[i].Idle? || st.pc[i].Dining? { EnterBaton(st, i, b, g); }
    else if st.pc[i].TakeTest? || st.pc[i].TestLeft? || st.pc[i].TestRight? { TestBaton(st, i, b, g); }
    else if st.pc[i].SigCheck? { SigCheckBaton(st, i, b, g); }
    else if st.pc[i].SigUp? { SigUpBaton(st, i, b, g); }
    else if st.pc[i].SigDown? { SigDownBaton(st, i, b, g); }
    else if st.pc[i].CondDown? { CondDownBaton(st, i, b, g); }
    else if st.pc[i].CondRelease? || st.pc[i].TakeLeave? { if st.nextCount > 0 { ReleaseNextBaton(st, i, b, g); } else { ReleaseMutexBaton(st, i, b, g); } }
    else if st.pc[i].PutLeave? { if st.nextCount > 0 { ReleaseNextBaton(st, i, b, g); } else { ReleaseLastBaton(st, i, b, g); } }
    else { InsideBaton(st, i, b, g); }
  }

  lemma {:induction false} StepChain(st: State, i: nat, b: Place, g: Signaller)
    requires Inv(st, b, g) && Enabled(st, i)
    ensures ChainInv(Next(st, i), PlaceAfter(st, i, b), SignallerAfter(st, i, g))
  {
    Seen(st, i, b, g);
    assert !st.pc[i].TakeWait? && !st.pc[i].SigWait? && !st.pc[i].CondWait? && !st.pc[i].PutWait? && !st.pc[i].Quit?;
    hide *;
    if st.pc[i].Idle? || st.pc[i].Dining? { EnterChain(st, i, b, g); }
    else if st.pc[i].TakeTest? || st.pc[i].TestLeft? || st.pc[i].TestRight? { TestChain(st, i, b, g); }
    else if st.pc[i].SigCheck? { SigCheckChain(st, i, b, g); }
    else if st.pc[i].SigUp? { SigUpChain(st, i, b, g); }
    else if st.pc[i].SigDown? { SigDownChain(st, i, b, g); }
    else if st.pc[i].CondDown? { CondDownChain(st, i, b, g); }
    else if st.pc[i].CondRelease? || st.pc[i].TakeLeave? { if st.nextCount > 0 { ReleaseNextChain(st, i, b, g); } else { ReleaseMutexChain(st, i, b, g); } }
    else if st.pc[i].PutLeave? { if st.nextCount > 0 { ReleaseNextChain(st, i, b, g); } else { ReleaseLastChain(st, i, b, g); } }
    else { InsideChain(st, i, b, g); }
  }

  lemma {:induction false} StepSelf(st: State, i: nat, b: Place, g: Signaller)
    requires Inv(st, b, g) && Enabled(st, i)
    ensures OneInv(Next(st, i), i, PlaceAfter(st, i, b))
  {
    Seen(st, i, b, g);
    assert !st.pc[i].TakeWait? && !st.pc[i].SigWait? && !st.pc[i].CondWait? && !st.pc[i].PutWait? && !st.pc[i].Quit?;
    hide *;
    if st.pc[i].Idle? || st.pc[i].Dining? { EnterSelf(st, i, b, g); }
    else if st.pc[i].TakeTest? || st.pc[i].TestLeft? || st.pc[i].TestRight? { TestSelf(st, i, b, g); }
    else if st.pc[i].SigCheck? { SigCheckSelf(st, i, b, g); }
    else if st.pc[i].SigUp? { SigUpSelf(st, i, b, g); }
    else if st.pc[i].SigDown? { SigDownSelf(st, i, b, g); }
    else if st.pc[i].CondDown? { CondDownSelf(st, i, b, g); }
    else if st.pc[i].CondRelease? || st.pc[i].TakeLeave? { if st.nextCount > 0 { ReleaseNextSelf(st, i, b, g); } else { ReleaseMutexSelf(st, i, b, g); } }
    else if st.pc[i].PutLeave? { if st.nextCount > 0 { ReleaseNextSelf(st, i, b, g); } else { ReleaseLastSelf(st, i, b, g); } }
    else { InsideSelf(st, i, b, g); }
  }

  lemma {:induction false} StepOther(st: State, i: nat, b: Place, g: Signaller, k: nat)
    requires Inv(st, b, g) && Enabled(st, i) && k < N && k != i
    ensures OneInv(Next(st, i), k, PlaceAfter(st, i, b))
  {
    Seen(st, i, b, g);
    Seen(st, k, b, g);
    assert !st.pc[i].TakeWait? && !st.pc[i].SigWait? && !st.pc[i].CondWait? && !st.pc[i].PutWait? && !st.pc[i].Quit?;
    hide *;
    if st.pc[i].Idle? || st.pc[i].Dining? { EnterOther(st, i, b, g, k); }
    else if st.pc[i].TakeTest? { TestOwnOther(st, i, b, g, k); }
    else if st.pc[i].TestLeft? { TestLeftOther(st, i, b, g, k); }
    else if st.pc[i].TestRight? { TestRightOther(st, i, b, g, k); }
    else if st.pc[i].SigCheck? { SigCheckOther(st, i, b, g, k); }
    else if st.pc[i].SigUp? { if k == Target(st.pc[i].r, i) { SigUpTarget(st, i, b, g, k); } else { SigUpOther(st, i, b, g, k); } }
    else if st.pc[i].SigDown? { SigDownOther(st, i, b, g, k); }
    else if st.pc[i].CondDown? { CondDownOther(st, i, b, g, k); }
    else if st.pc[i].CondRelease? || st.pc[i].TakeLeave? { if st.nextCount > 0 { ReleaseNextOther(st, i, b, g, k); } else { ReleaseMutexOther(st, i, b, g, k); } }
    else if st.pc[i].PutLeave? { if st.nextCount > 0 { ReleaseNextOther(st, i, b, g, k); } else { ReleaseLastOther(st, i, b, g, k); } }
    else { InsideOther(st, i, b, g, k); }
  }

  lemma {:induction false} StepSatisfied(st: State, i: nat, b: Place, g: Signaller, k: nat)
    requires Inv(st, b, g) && Enabled(st, i) && k < N
    ensures Satisfied(Next(st, i), k, PlaceAfter(st, i, b), SignallerAfter(st, i, g))
  {
    Seen(st, i, b, g);
    Seen(st, k, b, g);
    assert !st.pc[i].TakeWait? && !st.pc[i].SigWait? && !st.pc[i].CondWait? && !st.pc[i].PutWait? && !st.pc[i].Quit?;
    hide *;
    if st.pc[i].Idle? || st.pc[i].Dining? { EnterSatisfied(st, i, b, g, k); }
    else if st.pc[i].TakeTest? { TestOwnSatisfied(st, i, b, g, k); }
    else if st.pc[i].TestLeft? || st.pc[i].TestRight? { TestSatisfied(st, i, b, g, k); }
    else if st.pc[i].SigCheck? { SigCheckSatisfied(st, i, b, g, k); }
    else if st.pc[i].SigUp? { SigUpSatisfied(st, i, b, g, k); }
    else if st.pc[i].SigDown? { SigDownSatisfied(st, i, b, g, k); }
    else if st.pc[i].CondDown? { CondDownSatisfied(st, i, b, g, k); }
    else if st.pc[i].CondRelease? || st.pc[i].TakeLeave? { if st.nextCount > 0 { ReleaseNextSatisfied(st, i, b, g, k); } else { ReleaseMutexSatisfied(st, i, b, g, k); } }
    else if st.pc[i].PutLeave? { if st.nextCount > 0 { ReleaseNextSatisfied(st, i, b, g, k); } else { ReleaseLastSatisfied(st, i, b, g, k); } }
    else { InsideSatisfied(st, i, b, g, k); }
  }

  lemma {:induction false} StepInv(st: State, i: nat, b: Place, g: Signaller)
    requires Inv(st, b, g) && Enabled(st, i)
    ensures Inv(Next(st, i), PlaceAfter(st, i, b), SignallerAfter(st, i, g))
  {
    StepBaton(st, i, b, g);
    StepChain(st, i, b, g);
    forall k: nat | k < N
      ensures OneInv(Next(st, i), k, PlaceAfter(st, i, b))
      ensures Satisfied(Next(st, i), k, PlaceAfter(st, i, b), SignallerAfter(st, i, g))
    {
      if k == i { StepSelf(st, i, b, g); } else { StepOther(st, i, b, g, k); }
      StepSatisfied(st, i, b, g, k);
    }
    forall k: nat | k < N
      ensures !(Next(st, i).flag[k].Eating? && Next(st, i).flag[Right(k)].Eating?)
    {
      StepNeighbour(st, i, b, g, k);
    }
  }

  // ---------- Runs ----------

  ghost predicate IsRun(st: State, schedule: seq<nat>, last: State)
    decreases |schedule|
  {
    WellFormed(st) &&
    if schedule == [] then st == last
    else Enabled(st, schedule[0]) && IsRun(Next(st, schedule[0]), schedule[1..], last)
  }

  /** How many steps philosopher `i` can still take at most. */
  function StepsLeft(st: State, i: nat): nat
    requires WellFormed(st) && i < N
  {
    if st.pc[i].Quit? || st.meals[i] >= TIMES then 0 else 32 * (TIMES - st.meals[i]) - st.pc[i].Position()
  }

  function AllStepsLeft(st: State): nat
    requires WellFormed(st)
  {
    StepsLeft(st, 0) + StepsLeft(st, 1) + StepsLeft(st, 2) + StepsLeft(st, 3) + StepsLeft(st, 4)
  }

  lemma {:induction false} StepUsesUpLeaving(st: State, i: nat, b: Place, g: Signaller)
    requires WellFormed(st) && Known(st, i, b, g)
    requires Enabled(st, i) && (st.pc[i].CondRelease? || st.pc[i].TakeLeave? || st.pc[i].PutLeave?)
    ensures StepsLeft(Next(st, i), i) < StepsLeft(st, i)
  {
  }

  lemma {:induction false} StepUsesUpSignal(st: State, i: nat, b: Place, g: Signaller)
    requires WellFormed(st) && Known(st, i, b, g) && KnownNeighbours(st, i, b)
    requires Enabled(st, i) && st.pc[i].SigUp?
    ensures StepsLeft(Next(st, i), i) < StepsLeft(st, i)
  {
  }

  lemma {:induction false} StepUsesUpTest(st: State, i: nat, b: Place, g: Signaller)
    requires WellFormed(st) && Known(st, i, b, g)
    requires Enabled(st, i) && (st.pc[i].TakeTest? || st.pc[i].TestLeft? || st.pc[i].TestRight? || st.pc[i].SigCheck?)
    ensures StepsLeft(Next(st, i), i) < StepsLeft(st, i)
  {
    assert OneInv(st, i, b);
  }

  lemma {:induction false} StepUsesUpOwn(st: State, i: nat, b: Place, g: Signaller)
    requires WellFormed(st) && Known(st, i, b, g) && Enabled(st, i)
    requires st.pc[i].Idle? || st.pc[i].TakeIn? || st.pc[i].SigDown? || st.pc[i].SigDec? || st.pc[i].TakeCheck? || st.pc[i].CondInc?
      || st.pc[i].CondDown? || st.pc[i].CondDec? || st.pc[i].Dining? || st.pc[i].PutIn?
    ensures StepsLeft(Next(st, i), i) < StepsLeft(st, i)
  {
  }

  /** Every step uses up steps of the philosopher that takes it. */
  lemma {:induction false} StepUsesUp(st: State, i: nat, b: Place, g: Signaller)
    requires Inv(st, b, g) && Enabled(st, i)
    ensures StepsLeft(Next(st, i), i) < StepsLeft(st, i)
  {
    Seen(st, i, b, g);
    assert !st.pc[i].TakeWait? && !st.pc[i].SigWait? && !st.pc[i].CondWait? && !st.pc[i].PutWait? && !st.pc[i].Quit?;
    hide *;
    if st.pc[i].CondRelease? || st.pc[i].TakeLeave? || st.pc[i].PutLeave? { StepUsesUpLeaving(st, i, b, g); }
    else if st.pc[i].SigUp? { StepUsesUpSignal(st, i, b, g); }
    else if st.pc[i].TakeTest? || st.pc[i].TestLeft? || st.pc[i].TestRight? || st.pc[i].SigCheck? { StepUsesUpTest(st, i, b, g); }
    else { StepUsesUpOwn(st, i, b, g); }
  }

  lemma {:induction false} OthersOnlyResume(st: State, i: nat, k: nat)
    requires WellFormed(st) && Enabled(st, i) && k < N && k != i
    ensures var r := Next(st, i); r.meals[k] == st.meals[k] && (r.pc[k] == st.pc[k] || r.pc[k] == st.pc[k].Resume())
  {
  }

  lemma {:induction false} NobodyGetsMore(st: State, i: nat, b: Place, g: Signaller, k: nat)
    requires Inv(st, b, g) && Enabled(st, i) && k < N
    ensures StepsLeft(Next(st, i), k) <= StepsLeft(st, k) - (if k == i then 1 else 0)
  {
    if k == i { StepUsesUp(st, i, b, g); } else { OthersOnlyResume(st, i, k); }
  }

  lemma {:induction false} MeasureDecreases(st: State, i: nat, b: Place, g: Signaller)
    requires Inv(st, b, g) && Enabled(st, i)
    ensures AllStepsLeft(Next(st, i)) < AllStepsLeft(st)
  {
    var r := Next(st, i);
    assert StepsLeft(r, 0) <= StepsLeft(st, 0) - (if 0 == i then 1 else 0) by { NobodyGetsMore(st, i, b, g, 0); }
    assert StepsLeft(r, 1) <= StepsLeft(st, 1) - (if 1 == i then 1 else 0) by { NobodyGetsMore(st, i, b, g, 1); }
    assert StepsLeft(r, 2) <= StepsLeft(st, 2) - (if 2 == i then 1 else 0) by { NobodyGetsMore(st, i, b, g, 2); }
    assert StepsLeft(r, 3) <= StepsLeft(st, 3) - (if 3 == i then 1 else 0) by { NobodyGetsMore(st, i, b, g, 3); }
    assert StepsLeft(r, 4) <= StepsLeft(st, 4) - (if 4 == i then 1 else 0) by { NobodyGetsMore(st, i, b, g, 4); }
  }

  /** The baton is never lost: while it is anywhere but at `mutex`, somebody can go on with it. */
  lemma {:induction false} BatonMoves(st: State, b: Place, g: Signaller)
    requires Inv(st, b, g) && !b.AtMutex?
    ensures exists i: nat :: i < N && Enabled(st, i)
  {
    assert Holds(st, b);
    match b {
      case With(i) => assert Enabled(st, i);
      case AtCond(c) => assert OneInv(st, c, b); assert Enabled(st, c);
      case AtNext => assert Enabled(st, g.j);
    }
  }

  /** Some philosopher can go on unless all have quit. */
  lemma {:induction false} NoDeadlock(st: State, b: Place, g: Signaller)
    requires Inv(st, b, g) && forall i: nat :: !Enabled(st, i)
    ensures forall i: nat | i < N :: st.pc[i].Quit?
  {
    if !b.AtMutex? { BatonMoves(st, b, g); }
    forall i: nat | i < N
      ensures st.pc[i].Quit?
    {
      Seen(st, i, b, g);
      Seen(st, i, b, g);
      assert st.mutex.queue == [] ==> i !in st.mutex.queue;
      assert Satisfied(st, i, b, g);
      assert !Enabled(st, i) && !Enabled(st, Left(i)) && !Enabled(st, Right(i));
    }
  }

  lemma {:induction false} EveryRun(st: State, b: Place, g: Signaller, schedule: seq<nat>, last: State)
      returns (b': Place, g': Signaller)
    requires Inv(st, b, g) && IsRun(st, schedule, last)
    ensures Inv(last, b', g') && |schedule| + AllStepsLeft(last) <= AllStepsLeft(st)
    decreases |schedule|
  {
    if schedule == [] { b', g' := b, g; }
    else {
      StepInv(st, schedule[0], b, g);
      MeasureDecreases(st, schedule[0], b, g);
      b', g' := EveryRun(Next(st, schedule[0]), PlaceAfter(st, schedule[0], b), SignallerAfter(st, schedule[0], g), schedule[1..], last);
    }
  }

  /** The number of permits that lie at semaphores and of philosophers running in the monitor. */
  function Batons(st: State): nat
    requires WellFormed(st)
  {
    st.mutex.value + st.next.value + BatonsOf(st, 0) + BatonsOf(st, 1) + BatonsOf(st, 2) + BatonsOf(st, 3) + BatonsOf(st, 4)
  }

  function BatonsOf(st: State, i: nat): nat
    requires WellFormed(st) && i < N
  {
    st.cv[i].sem.value + if st.pc[i].Active() then 1 else 0
  }

  lemma {:induction false} OneBaton(st: State, b: Place, g: Signaller)
    requires Inv(st, b, g)
    ensures Batons(st) == 1
  {
    assert Holds(st, b);
    forall i: nat | i < N
      ensures BatonsOf(st, i) == if b == With(i) || b == AtCond(i) then 1 else 0
    {
      Seen(st, i, b, g);
    }
    assert (Holds(st, AtMutex) <==> b == AtMutex) && (Holds(st, AtNext) <==> b == AtNext);
  }

  /** How many philosophers are suspended in cond_signal. */
  function Signallers(st: State): nat
    requires WellFormed(st)
  {
    |set i: nat | i < N && st.pc[i].Signalling()|
  }

  lemma {:induction false} NextCountIsExact(st: State, b: Place, g: Signaller)
    requires Inv(st, b, g)
    ensures st.nextCount == Signallers(st)
  {
    var s := set i: nat | i < N && st.pc[i].Signalling();
    assert s == if g.Philosopher? then {g.j} else {};
  }

  /** What the invariant says of one philosopher to a reader who does not know the invariant. */
  lemma {:induction false} OneIsServed(st: State, b: Place, g: Signaller, i: nat)
    requires Inv(st, b, g) && i < N
    ensures st.cv[i].count == if st.pc[i].Counted() then 1 else 0
    ensures st.pc[i].Dining? ==> st.flag[i].Eating?
    ensures st.mutex.value > 0 && st.flag[i].Hungry? ==> st.flag[Left(i)].Eating? || st.flag[Right(i)].Eating?
    ensures st.pc[i].Quit? ==> st.meals[i] == TIMES
  {
    Seen(st, i, b, g);
    assert Satisfied(st, i, b, g);
  }

  /** In every run: one baton; exact counts; whoever returns from phi_take_forks_condvar eats and
      no neighbour does, although `cond_wait` is called under an `if` only; a hungry philosopher has
      an eating neighbour while the monitor is free; the run is bounded, and at its end all have eaten. */
  lemma {:induction false} MonitorIsSafeAndFinishes(schedule: seq<nat>, last: State)
    requires IsRun(Init, schedule, last)
    ensures WellFormed(last) && Batons(last) == 1 && last.nextCount == Signallers(last)
    ensures forall i: nat | i < N :: last.cv[i].count == if last.pc[i].Counted() then 1 else 0
    ensures NoNeighbours(last.flag) && forall i: nat | i < N && last.pc[i].Dining? :: last.flag[i].Eating?
    ensures forall i: nat, j: nat | i < N && j == (i + 1) % N :: !(last.pc[i].Dining? && last.pc[j].Dining?)
    ensures last.mutex.value > 0 ==> HungryBesideEating(last.flag)
    ensures |schedule| <= 32 * TIMES * N
    ensures (forall i: nat :: !Enabled(last, i)) ==> forall i: nat | i < N :: last.meals[i] == TIMES
  {
    InitInv();
    var b, g := EveryRun(Init, AtMutex, Signaller.Nobody, schedule, last);
    OneBaton(last, b, g);
    NextCountIsExact(last, b, g);
    if forall i: nat :: !Enabled(last, i) { NoDeadlock(last, b, g); }
    forall i: nat | i < N
      ensures last.cv[i].count == if last.pc[i].Counted() then 1 else 0
      ensures last.pc[i].Dining? ==> last.flag[i].Eating?
      ensures last.mutex.value > 0 && last.flag[i].Hungry? ==> last.flag[Left(i)].Eating? || last.flag[Right(i)].Eating?
      ensures last.pc[i].Quit? ==> last.meals[i] == TIMES
    {
      OneIsServed(last, b, g, i);
    }
    NoTwoInARow(last.flag);
    if last.mutex.value > 0 { Served(last.flag); }
  }
}
