/** The table of sync/check_sync.c. */
module Table {
  const N: nat := 5
  const TIMES: nat := 4

  function Left(i: nat): nat { (i + N - 1) % N }
  function Right(i: nat): nat { (i + 1) % N }

  datatype Flag = Thinking | Hungry | Eating

  lemma {:induction false} Ring(i: nat)
    requires i < N
    ensures Left(i) < N && Right(i) < N && Left(Right(i)) == i && Right(Left(i)) == i
    ensures Left(i) != i && Right(i) != i && Left(i) != Right(i)
  {
  }

  /** The condition of phi_test_sema and phi_test_condvar. */
  predicate MayEat(flag: seq<Flag>, i: nat)
    requires |flag| == N && i < N
  {
    flag[i] == Hungry && flag[Left(i)] != Eating && flag[Right(i)] != Eating
  }

  ghost predicate NoNeighbours(flag: seq<Flag>)
    requires |flag| == N
  {
    forall i: nat | i < N :: !(flag[i].Eating? && flag[Right(i)].Eating?)
  }

  /** The same around the table. */
  lemma {:induction false} NoTwoInARow(flag: seq<Flag>)
    requires |flag| == N && NoNeighbours(flag)
    ensures forall i: nat, j: nat | i < N && j == (i + 1) % N :: !(flag[i].Eating? && flag[j].Eating?)
  {
    forall i: nat, j: nat | i < N && j == (i + 1) % N ensures !(flag[i].Eating? && flag[j].Eating?) { assert j == Right(i); }
  }

  /** Who is hungry sits beside somebody who eats. */
  ghost predicate HungryBesideEating(flag: seq<Flag>)
    requires |flag| == N
  {
    forall i: nat, j: nat, k: nat | j < N && k == (j + 1) % N && i == (k + 1) % N && flag[k].Hungry? :: flag[j].Eating? || flag[i].Eating?
  }

  lemma {:induction false} Served(flag: seq<Flag>)
    requires |flag| == N && forall i: nat | i < N && flag[i].Hungry? :: flag[Left(i)].Eating? || flag[Right(i)].Eating?
    ensures HungryBesideEating(flag)
  {
    forall i: nat, j: nat, k: nat | j < N && k == (j + 1) % N && i == (k + 1) % N && flag[k].Hungry? ensures flag[j].Eating? || flag[i].Eating? {
      Ring(j);
      assert k == Right(j) && i == Right(k) && j == Left(k);
    }
  }
}

/** The dining philosophers of sync/check_sync.c that use semaphores, in any interleaving of these steps: a
    semaphore operation, and under the mutex one write of an own state or one test of a philosopher, which reads
    three states and may write one. */
module PhilosophersSem {
  import opened Semaphore
  import opened Table

  /** Where a philosopher is. The three states that end in `Wait` are asleep in a queue. */
  datatype Pc =
    | Idle | TakeWait | TakeIn | TakeTest | TakeSignal | TakeOut | TakeFork | ForkWait
    | Dining | PutWait | PutIn | PutTestL | PutSignalL | PutTestR | PutSignalR | PutOut | Quit
  {
    /** Between the two semaphore operations on `mutex`. */
    predicate Inside() {
      TakeIn? || TakeTest? || TakeSignal? || TakeOut? || PutIn? || PutTestL? || PutSignalL? || PutTestR? || PutSignalR? || PutOut?
    }
    predicate Asleep() { TakeWait? || ForkWait? || PutWait? }

    /** Where a sleeper goes on when it is handed a permit. */
    function Resume(): Pc {
      if TakeWait? then TakeIn else if PutWait? then PutIn else if ForkWait? then Dining else this
    }

    /** How many steps of the round are behind. */
    function Position(): nat {
      match this
      case Idle => 0 case TakeWait => 1 case TakeIn => 2 case TakeTest => 3 case TakeSignal => 4 case TakeOut => 5
      case TakeFork => 6 case ForkWait => 7 case Dining => 8 case PutWait => 9 case PutIn => 10 case PutTestL => 11
      case PutSignalL => 12 case PutTestR => 13 case PutSignalR => 14 case PutOut => 15 case Quit => 0
    }
  }

  datatype State = State(pc: seq<Pc>, flag: seq<Flag>, mutex: Sem, s: seq<Sem>, meals: seq<nat>)

  predicate WellFormed(st: State) {
    |st.pc| == |st.flag| == |st.s| == |st.meals| == N
  }

  const Init: State := State(seq(N, _ => Idle), seq(N, _ => Thinking), Sem(1, []), seq(N, _ => Sem(0, [])), seq(N, _ => 0))

  function Wake(pc: seq<Pc>, w: Woken): seq<Pc> {
    if w.First? && w.p < |pc| then pc[w.p := pc[w.p].Resume()] else pc
  }

  /** up(&mutex) by `i`, which goes on at `next`. */
  function Leave(st: State, i: nat, next: Pc): State
    requires WellFormed(st) && i < N
  {
    var (m, w) := Up(st.mutex);
    st.(mutex := m, pc := Wake(st.pc[i := next], w))
  }

  /** up(&s[k]) by `i`, which goes on at `next`. */
  function Signal(st: State, i: nat, k: nat, next: Pc): State
    requires WellFormed(st) && i < N && k < N
  {
    var (m, w) := Up(st.s[k]);
    st.(s := st.s[k := m], pc := Wake(st.pc[i := next], w))
  }

  /** down(&mutex) by `i`. */
  function Enter(st: State, i: nat, got: Pc, wait: Pc): State
    requires WellFormed(st) && i < N
  {
    var (m, ok) := Down(st.mutex, i);
    st.(mutex := m, pc := st.pc[i := if ok then got else wait])
  }

  /** phi_test_sema(k) by `i` up to its call of up. */
  function Test(st: State, i: nat, k: nat, signal: Pc, next: Pc): State
    requires WellFormed(st) && i < N && k < N
  {
    if MayEat(st.flag, k) then st.(flag := st.flag[k := Eating], pc := st.pc[i := signal]) else st.(pc := st.pc[i := next])
  }

  predicate Enabled(st: State, i: nat)
    requires WellFormed(st)
  {
    i < N && !st.pc[i].Asleep() && !st.pc[i].Quit?
  }

  /** One step of philosopher `i`. */
  function Next(st: State, i: nat): (r: State)
    requires WellFormed(st) && Enabled(st, i)
    ensures WellFormed(r)
  {
    match st.pc[i]
    case Idle => Enter(st, i, TakeIn, TakeWait)
    case TakeIn => st.(flag := st.flag[i := Hungry], pc := st.pc[i := TakeTest])
    case TakeTest => Test(st, i, i, TakeSignal, TakeOut)
    case TakeSignal => Signal(st, i, i, TakeOut)
    case TakeOut => Leave(st, i, TakeFork)
    case TakeFork =>
      var (m, ok) := Down(st.s[i], i);
      st.(s := st.s[i := m], pc := st.pc[i := if ok then Dining else ForkWait])
    case Dining => Enter(st, i, PutIn, PutWait)
    case PutIn => st.(flag := st.flag[i := Thinking], pc := st.pc[i := PutTestL])
    case PutTestL => Test(st, i, Left(i), PutSignalL, PutTestR)
    case PutSignalL => Signal(st, i, Left(i), PutTestR)
    case PutTestR => Test(st, i, Right(i), PutSignalR, PutOut)
    case PutSignalR => Signal(st, i, Right(i), PutOut)
    case PutOut =>
      Leave(st.(meals := st.meals[i := st.meals[i] + 1]), i, if st.meals[i] + 1 < TIMES then Idle else Quit)
  }

  // ---------- What every reachable state keeps ----------

  /** The one permit of `mutex` is free or with one philosopher inside. */
  datatype Place = AtMutex | With(i: nat)

  predicate Holds(st: State, k: Place)
    requires WellFormed(st)
  {
    match k
    case AtMutex => st.mutex.value > 0
    case With(i) => i < N && st.pc[i].Inside()
  }

  ghost predicate MutexInv(st: State, b: Place)
    requires WellFormed(st)
  {
    && (forall k :: Holds(st, k) <==> k == b)
    && st.mutex.value <= 1 && Sound(st.mutex)
    && (forall i: nat :: i in st.mutex.queue <==> i < N && (st.pc[i].TakeWait? || st.pc[i].PutWait?))
  }

  /** Somebody has let philosopher `i` eat and is about to say so. */
  predicate Pending(st: State, i: nat, b: Place)
    requires WellFormed(st) && i < N
  {
    b.With? && b.i < N && (
      || (st.pc[b.i].TakeSignal? && b.i == i)
      || (st.pc[b.i].PutSignalL? && Left(b.i) == i)
      || (st.pc[b.i].PutSignalR? && Right(b.i) == i))
  }

  /** What holds of philosopher `i` at its place in the program. */
  ghost predicate OneInv(st: State, i: nat, b: Place)
    requires WellFormed(st) && i < N
  {
    var pc, flag, s := st.pc[i], st.flag[i], st.s[i];
    && s.value <= 1 && Sound(s) && s.queue == (if pc.ForkWait? then [i] else [])
    && (Pending(st, i, b) ==> flag.Eating? && s.value == 0 && (pc.TakeSignal? || pc.TakeFork? || pc.ForkWait?))
    && (s.value == 1 ==> flag.Eating? && (pc.TakeOut? || pc.TakeFork?))
    && match pc {
      case TakeTest => flag.Hungry?
      case TakeSignal => flag.Eating?
      case TakeOut | TakeFork | ForkWait => flag.Hungry? || (flag.Eating? && (s.value == 1 || Pending(st, i, b)))
      case Dining | PutWait | PutIn => flag.Eating?
      case _ => flag.Thinking?
    }
    && (pc.Quit? <==> st.meals[i] >= TIMES) && st.meals[i] <= TIMES
  }

  /** The philosophers whose turn to be tested is still to come. */
  predicate Exempt(st: State, i: nat, b: Place)
    requires WellFormed(st) && i < N
  {
    b.With? && b.i < N &&
    match st.pc[b.i]
    case TakeTest => i == b.i
    case PutTestL => i == Left(b.i) || i == Right(b.i)
    case PutSignalL | PutTestR => i == Right(b.i)
    case _ => false
  }

  ghost predicate NoLostWakeup(st: State, b: Place)
    requires WellFormed(st)
  {
    forall i: nat | i < N :: Satisfied(st, i, b)
  }

  ghost predicate Inv(st: State, b: Place) {
    && WellFormed(st) && MutexInv(st, b) && NoNeighbours(st.flag) && NoLostWakeup(st, b)
    && forall i | 0 <= i < N :: OneInv(st, i, b)
  }

  lemma {:induction false} InitInv()
    ensures Inv(Init, AtMutex)
  {
  }

  /** Where the permit is after a step of `i`. */
  ghost function PlaceAfter(st: State, i: nat, b: Place): Place
    requires WellFormed(st) && Enabled(st, i)
  {
    match st.pc[i]
    case Idle => if st.mutex.value > 0 then With(i) else b
    case Dining => if st.mutex.value > 0 then With(i) else b
    case TakeOut | PutOut => if st.mutex.queue == [] then AtMutex else With(st.mutex.queue[0])
    case _ => b
  }

  /** A step that neither takes nor gives back `mutex` leaves it and its queue as they were. */
  lemma {:induction false} StepMutexKept(st: State, i: nat, b: Place)
    requires Inv(st, b) && Enabled(st, i) && !st.pc[i].Idle? && !st.pc[i].Dining? && !st.pc[i].TakeOut? && !st.pc[i].PutOut?
    requires !st.pc[i].TakeSignal? && !st.pc[i].PutSignalL? && !st.pc[i].PutSignalR?
    ensures MutexInv(Next(st, i), b)
  {
    forall k ensures Holds(Next(st, i), k) <==> k == b {
      assert Holds(st, k) <==> k == b;
    }
  }

  lemma {:induction false} StepMutexSignal(st: State, i: nat, b: Place)
    requires Inv(st, b) && Enabled(st, i) && (st.pc[i].TakeSignal? || st.pc[i].PutSignalL? || st.pc[i].PutSignalR?)
    ensures MutexInv(Next(st, i), b)
  {
    Ring(i);
    assert OneInv(st, i, b) && OneInv(st, Left(i), b) && OneInv(st, Right(i), b);
    forall k ensures Holds(Next(st, i), k) <==> k == b {
      assert Holds(st, k) <==> k == b;
    }
  }

  lemma {:induction false} StepMutexTaken(st: State, i: nat, b: Place)
    requires Inv(st, b) && Enabled(st, i) && (st.pc[i].Idle? || st.pc[i].Dining?)
    ensures MutexInv(Next(st, i), PlaceAfter(st, i, b))
  {
    UpDown(st.mutex, i);
    assert Holds(st, AtMutex) <==> b == AtMutex;
    forall k ensures Holds(Next(st, i), k) <==> k == PlaceAfter(st, i, b) {
      assert Holds(st, k) <==> k == b;
    }
  }

  lemma {:induction false} StepMutexGiven(st: State, i: nat, b: Place)
    requires Inv(st, b) && Enabled(st, i) && (st.pc[i].TakeOut? || st.pc[i].PutOut?)
    ensures MutexInv(Next(st, i), PlaceAfter(st, i, b))
  {
    UpDown(st.mutex, i);
    assert Holds(st, AtMutex) <==> b == AtMutex;
    assert Holds(st, With(i)) <==> b == With(i);
    assert st.mutex.queue != [] ==> st.mutex.queue[0] in st.mutex.queue;
    forall k ensures Holds(Next(st, i), k) <==> k == PlaceAfter(st, i, b) {
      assert Holds(st, k) <==> k == b;
    }
  }

  lemma {:induction false} LeavingSelf(st: State, i: nat, b: Place)
    requires Inv(st, b) && Enabled(st, i) && (st.pc[i].TakeOut? || st.pc[i].PutOut?)
    ensures OneInv(Next(st, i), i, PlaceAfter(st, i, b))
  {
    assert Holds(st, With(i)) <==> b == With(i);
    Ring(i);
    assert OneInv(st, i, b);
    assert st.mutex.queue != [] ==> st.mutex.queue[0] in st.mutex.queue;
  }

  lemma {:induction false} SignallingSelf(st: State, i: nat, b: Place)
    requires Inv(st, b) && Enabled(st, i) && (st.pc[i].TakeSignal? || st.pc[i].PutSignalL? || st.pc[i].PutSignalR?)
    ensures OneInv(Next(st, i), i, PlaceAfter(st, i, b))
  {
    assert Holds(st, With(i)) <==> b == With(i);
    Ring(i);
    assert OneInv(st, i, b);
  }

  lemma {:induction false} StepSelf(st: State, i: nat, b: Place)
    requires Inv(st, b) && Enabled(st, i)
    ensures OneInv(Next(st, i), i, PlaceAfter(st, i, b))
  {
    if st.pc[i].TakeOut? || st.pc[i].PutOut? { LeavingSelf(st, i, b); }
    else if st.pc[i].TakeSignal? || st.pc[i].PutSignalL? || st.pc[i].PutSignalR? { SignallingSelf(st, i, b); }
    else {
      assert Holds(st, With(i)) <==> b == With(i);
      Ring(i);
      assert OneInv(st, i, b);
    }
  }

  /** Another philosopher `k` after `i` has taken or given back `mutex`. */
  lemma {:induction false} StepOtherMutex(st: State, i: nat, b: Place, k: nat)
    requires Inv(st, b) && Enabled(st, i) && k < N && k != i
    requires st.pc[i].Idle? || st.pc[i].Dining? || st.pc[i].TakeOut? || st.pc[i].PutOut?
    ensures OneInv(Next(st, i), k, PlaceAfter(st, i, b))
  {
    assert (Holds(st, With(i)) <==> b == With(i)) && (Holds(st, With(k)) <==> b == With(k));
    assert Holds(st, AtMutex) <==> b == AtMutex;
    assert OneInv(st, i, b) && OneInv(st, k, b);
    assert st.mutex.queue != [] ==> st.mutex.queue[0] in st.mutex.queue;
  }

  /** ... or has tested a neighbour. */
  lemma {:induction false} StepOtherTest(st: State, i: nat, b: Place, k: nat)
    requires Inv(st, b) && Enabled(st, i) && k < N && k != i && (st.pc[i].PutTestL? || st.pc[i].PutTestR?)
    ensures OneInv(Next(st, i), k, b)
  {
    assert (Holds(st, With(i)) <==> b == With(i)) && (Holds(st, With(k)) <==> b == With(k));
    Ring(i);
    Ring(k);
    assert OneInv(st, k, b);
  }

  /** ... or has changed or awaited only its own. */
  lemma {:induction false} StepOtherOwn(st: State, i: nat, b: Place, k: nat)
    requires Inv(st, b) && Enabled(st, i) && k < N && k != i
    requires st.pc[i].TakeIn? || st.pc[i].TakeTest? || st.pc[i].TakeSignal? || st.pc[i].TakeFork? || st.pc[i].PutIn?
    ensures OneInv(Next(st, i), k, b)
  {
    assert Holds(st, With(i)) <==> b == With(i);
    assert OneInv(st, i, b) && OneInv(st, k, b);
  }

  /** ... or has told the neighbour `t` that it may eat. */
  lemma {:induction false} StepSignalled(st: State, i: nat, b: Place, k: nat, t: nat, next: Pc)
    requires Inv(st, b) && i < N && k < N && k != i && t < N && t != i && b == With(i) && st.pc[i].Inside()
    requires forall j: nat | j < N && j != t :: !Pending(st, j, b)
    requires Pending(st, t, b) && (next.PutTestR? || next.PutOut?)
    ensures OneInv(Signal(st, i, t, next), k, b)
  {
    assert [k][1..] == [];
    assert Holds(st, With(k)) <==> b == With(k);
    assert OneInv(st, t, b) && OneInv(st, k, b);
  }

  lemma {:induction false} StepNeighbour(st: State, i: nat, b: Place, k: nat)
    requires Inv(st, b) && Enabled(st, i) && k < N
    ensures var r := Next(st, i); !(r.flag[k].Eating? && r.flag[Right(k)].Eating?)
  {
    Ring(i);
    Ring(k);
  }

  predicate Satisfied(st: State, k: nat, b: Place)
    requires WellFormed(st) && k < N
  {
    st.flag[k].Hungry? && !Exempt(st, k, b) ==> st.flag[Left(k)].Eating? || st.flag[Right(k)].Eating?
  }

  lemma {:induction false} StepWakeupMutex(st: State, i: nat, b: Place, k: nat)
    requires Inv(st, b) && Enabled(st, i) && k < N && (st.pc[i].Idle? || st.pc[i].Dining? || st.pc[i].TakeOut? || st.pc[i].PutOut?)
    ensures Satisfied(Next(st, i), k, PlaceAfter(st, i, b))
  {
    assert Holds(st, b) && (Holds(st, With(i)) <==> b == With(i)) && (Holds(st, AtMutex) <==> b == AtMutex);
    assert st.mutex.queue != [] ==> st.mutex.queue[0] in st.mutex.queue;
    assert Satisfied(st, k, b);
  }

  lemma {:induction false} StepWakeupKept(st: State, i: nat, b: Place, k: nat)
    requires Inv(st, b) && Enabled(st, i) && k < N && (st.pc[i].TakeSignal? || st.pc[i].TakeFork? || st.pc[i].PutSignalL? || st.pc[i].PutSignalR?)
    ensures Satisfied(Next(st, i), k, b)
  {
    assert Holds(st, b) && (Holds(st, With(i)) <==> b == With(i));
    Ring(i);
    assert OneInv(st, i, b) && OneInv(st, Left(i), b) && OneInv(st, Right(i), b);
    assert Satisfied(st, k, b);
  }

  lemma {:induction false} StepWakeupOwn(st: State, i: nat, b: Place, k: nat)
    requires Inv(st, b) && Enabled(st, i) && k < N && (st.pc[i].TakeIn? || st.pc[i].TakeTest? || st.pc[i].PutIn?)
    ensures Satisfied(Next(st, i), k, b)
  {
    assert Holds(st, With(i)) <==> b == With(i);
    Ring(i);
    Ring(k);
    assert OneInv(st, i, b) && Satisfied(st, k, b);
  }

  lemma {:induction false} StepWakeupTest(st: State, i: nat, b: Place, k: nat)
    requires Inv(st, b) && Enabled(st, i) && k < N && (st.pc[i].PutTestL? || st.pc[i].PutTestR?)
    ensures Satisfied(Next(st, i), k, b)
  {
    assert Holds(st, With(i)) <==> b == With(i);
    Ring(i);
    Ring(k);
    assert OneInv(st, i, b) && Satisfied(st, k, b);
  }

  lemma {:induction false} StepMutex(st: State, i: nat, b: Place)
    requires Inv(st, b) && Enabled(st, i)
    ensures MutexInv(Next(st, i), PlaceAfter(st, i, b))
  {
    if st.pc[i].Idle? || st.pc[i].Dining? { StepMutexTaken(st, i, b); }
    else if st.pc[i].TakeOut? || st.pc[i].PutOut? { StepMutexGiven(st, i, b); }
    else if st.pc[i].TakeSignal? || st.pc[i].PutSignalL? || st.pc[i].PutSignalR? { StepMutexSignal(st, i, b); }
    else { StepMutexKept(st, i, b); }
  }

  lemma {:induction false} StepOther(st: State, i: nat, b: Place, k: nat)
    requires Inv(st, b) && Enabled(st, i) && k < N && k != i
    ensures OneInv(Next(st, i), k, PlaceAfter(st, i, b))
  {
    Ring(i);
    assert Holds(st, With(i)) <==> b == With(i);
    if st.pc[i].Idle? || st.pc[i].Dining? || st.pc[i].TakeOut? || st.pc[i].PutOut? { StepOtherMutex(st, i, b, k); }
    else if st.pc[i].PutSignalL? { StepSignalled(st, i, b, k, Left(i), PutTestR); }
    else if st.pc[i].PutSignalR? { StepSignalled(st, i, b, k, Right(i), PutOut); }
    else if st.pc[i].PutTestL? || st.pc[i].PutTestR? { StepOtherTest(st, i, b, k); }
    else { StepOtherOwn(st, i, b, k); }
  }

  lemma {:induction false} StepWakeup(st: State, i: nat, b: Place, k: nat)
    requires Inv(st, b) && Enabled(st, i) && k < N
    ensures Satisfied(Next(st, i), k, PlaceAfter(st, i, b))
  {
    if st.pc[i].Idle? || st.pc[i].Dining? || st.pc[i].TakeOut? || st.pc[i].PutOut? { StepWakeupMutex(st, i, b, k); }
    else if st.pc[i].TakeSignal? || st.pc[i].TakeFork? || st.pc[i].PutSignalL? || st.pc[i].PutSignalR? { StepWakeupKept(st, i, b, k); }
    else if st.pc[i].PutTestL? || st.pc[i].PutTestR? { StepWakeupTest(st, i, b, k); }
    else { StepWakeupOwn(st, i, b, k); }
  }

  lemma {:induction false} StepInv(st: State, i: nat, b: Place)
    requires Inv(st, b) && Enabled(st, i)
    ensures Inv(Next(st, i), PlaceAfter(st, i, b))
  {
    StepMutex(st, i, b);
    hide OneInv, MutexInv, Satisfied, PlaceAfter;
    var r, b' := Next(st, i), PlaceAfter(st, i, b);
    forall k: nat | k < N
      ensures OneInv(r, k, b') && Satisfied(r, k, b') && !(r.flag[k].Eating? && r.flag[Right(k)].Eating?)
    {
      if k == i { StepSelf(st, i, b); } else { StepOther(st, i, b, k); }
      StepWakeup(st, i, b, k);
      StepNeighbour(st, i, b, k);
    }
    hide Next;
  }

  // ---------- Runs ----------

  /** The states of a run, one after the other, for the order in which philosophers take steps. */
  ghost predicate IsRun(st: State, schedule: seq<nat>, last: State)
    decreases |schedule|
  {
    WellFormed(st) &&
    if schedule == [] then st == last
    else Enabled(st, schedule[0]) && IsRun(Next(st, schedule[0]), schedule[1..], last)
  }

  /** How many steps philosopher `i` can still take at most. */
  function StepsLeft(st: State, i: nat): nat
    requires WellFormed(st) && i < N
  {
    if st.pc[i].Quit? || st.meals[i] >= TIMES then 0 else 16 * (TIMES - st.meals[i]) - st.pc[i].Position()
  }

  function AllStepsLeft(st: State): nat
    requires WellFormed(st)
  {
    StepsLeft(st, 0) + StepsLeft(st, 1) + StepsLeft(st, 2) + StepsLeft(st, 3) + StepsLeft(st, 4)
  }

  lemma {:induction false} LeavingUsesUp(st: State, i: nat, b: Place)
    requires Inv(st, b) && Enabled(st, i) && (st.pc[i].TakeOut? || st.pc[i].PutOut?)
    ensures StepsLeft(Next(st, i), i) < StepsLeft(st, i)
  {
    assert OneInv(st, i, b);
    assert st.mutex.queue != [] ==> st.mutex.queue[0] in st.mutex.queue;
  }

  lemma {:induction false} SignallingUsesUp(st: State, i: nat, b: Place)
    requires Inv(st, b) && Enabled(st, i) && (st.pc[i].TakeSignal? || st.pc[i].PutSignalL? || st.pc[i].PutSignalR?)
    ensures StepsLeft(Next(st, i), i) < StepsLeft(st, i)
  {
    Ring(i);
    assert OneInv(st, i, b) && OneInv(st, Left(i), b) && OneInv(st, Right(i), b);
  }

  /** Every step uses up steps of the philosopher that takes it. */
  lemma {:induction false} StepUsesUp(st: State, i: nat, b: Place)
    requires Inv(st, b) && Enabled(st, i)
    ensures StepsLeft(Next(st, i), i) < StepsLeft(st, i)
  {
    if st.pc[i].TakeOut? || st.pc[i].PutOut? { LeavingUsesUp(st, i, b); }
    else if st.pc[i].TakeSignal? || st.pc[i].PutSignalL? || st.pc[i].PutSignalR? { SignallingUsesUp(st, i, b); }
    else { assert OneInv(st, i, b); }
  }

  lemma {:induction false} OthersOnlyResume(st: State, i: nat, k: nat)
    requires WellFormed(st) && Enabled(st, i) && k < N && k != i
    ensures var r := Next(st, i); r.meals[k] == st.meals[k] && (r.pc[k] == st.pc[k] || r.pc[k] == st.pc[k].Resume())
  {
  }

  lemma {:induction false} NobodyGetsMore(st: State, i: nat, b: Place, k: nat)
    requires Inv(st, b) && Enabled(st, i) && k < N
    ensures StepsLeft(Next(st, i), k) <= StepsLeft(st, k) - (if k == i then 1 else 0)
  {
    if k == i { StepUsesUp(st, i, b); } else { OthersOnlyResume(st, i, k); }
  }

  lemma {:induction false} MeasureDecreases(st: State, i: nat, b: Place)
    requires Inv(st, b) && Enabled(st, i)
    ensures AllStepsLeft(Next(st, i)) < AllStepsLeft(st)
  {
    var r := Next(st, i);
    assert StepsLeft(r, 0) <= StepsLeft(st, 0) - (if 0 == i then 1 else 0) by { NobodyGetsMore(st, i, b, 0); }
    assert StepsLeft(r, 1) <= StepsLeft(st, 1) - (if 1 == i then 1 else 0) by { NobodyGetsMore(st, i, b, 1); }
    assert StepsLeft(r, 2) <= StepsLeft(st, 2) - (if 2 == i then 1 else 0) by { NobodyGetsMore(st, i, b, 2); }
    assert StepsLeft(r, 3) <= StepsLeft(st, 3) - (if 3 == i then 1 else 0) by { NobodyGetsMore(st, i, b, 3); }
    assert StepsLeft(r, 4) <= StepsLeft(st, 4) - (if 4 == i then 1 else 0) by { NobodyGetsMore(st, i, b, 4); }
  }

  lemma {:induction false} InsideIsEnabled(st: State, b: Place)
    requires Inv(st, b) && b.With?
    ensures b.i < N && Enabled(st, b.i)
  {
    assert Holds(st, b);
  }

  /** Some philosopher can go on unless all have quit. */
  lemma {:induction false} NoDeadlock(st: State, b: Place)
    requires Inv(st, b) && forall i | 0 <= i < N :: !Enabled(st, i)
    ensures forall i | 0 <= i < N :: st.pc[i].Quit?
  {
    if b.With? { InsideIsEnabled(st, b); }
    forall i: nat | i < N
      ensures st.pc[i].Quit?
    {
      Ring(i);
      assert Holds(st, AtMutex) && (st.mutex.queue == [] ==> i !in st.mutex.queue);
      assert OneInv(st, i, b) && OneInv(st, Left(i), b) && OneInv(st, Right(i), b) && Satisfied(st, i, b);
      assert !Enabled(st, i) && !Enabled(st, Left(i)) && !Enabled(st, Right(i));
    }
  }

  /** In every run neighbours never eat together, nobody hungry is forgotten while `mutex` is free,
      at most 16 * TIMES steps are taken for each philosopher, and a run that cannot go on has fed all. */
  lemma {:induction false} EveryRun(st: State, b: Place, schedule: seq<nat>, last: State) returns (b': Place)
    requires Inv(st, b) && IsRun(st, schedule, last)
    ensures Inv(last, b')
    ensures |schedule| + AllStepsLeft(last) <= AllStepsLeft(st)
    decreases |schedule|
  {
    if schedule == [] { b' := b; }
    else {
      StepInv(st, schedule[0], b);
      MeasureDecreases(st, schedule[0], b);
      b' := EveryRun(Next(st, schedule[0]), PlaceAfter(st, schedule[0], b), schedule[1..], last);
    }
  }

  lemma {:induction false} PhilosophersAreSafeAndFinish(schedule: seq<nat>, last: State)
    requires IsRun(Init, schedule, last)
    ensures WellFormed(last) && NoNeighbours(last.flag)
    ensures forall i | 0 <= i < N && last.pc[i].Dining? :: last.flag[i].Eating?
    ensures forall i: nat, j: nat | i < N && j == (i + 1) % N :: !(last.pc[i].Dining? && last.pc[j].Dining?)
    ensures last.mutex.value > 0 ==> HungryBesideEating(last.flag)
    ensures |schedule| <= 16 * TIMES * N
    ensures (forall i | 0 <= i < N :: !Enabled(last, i)) ==> forall i | 0 <= i < N :: last.meals[i] == TIMES
  {
    InitInv();
    var b := EveryRun(Init, AtMutex, schedule, last);
    assert Holds(last, AtMutex) <==> b == AtMutex;
    if forall i | 0 <= i < N :: !Enabled(last, i) { NoDeadlock(last, b); }
    forall i: nat | i < N
      ensures last.pc[i].Dining? ==> last.flag[i].Eating?
      ensures last.mutex.value > 0 && last.flag[i].Hungry? ==> last.flag[Left(i)].Eating? || last.flag[Right(i)].Eating?
      ensures last.pc[i].Quit? ==> last.meals[i] == TIMES
    {
      assert OneInv(last, i, b) && Satisfied(last, i, b);
    }
    NoTwoInARow(last.flag);
    if last.mutex.value > 0 { Served(last.flag); }
  }
}
