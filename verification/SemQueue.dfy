/** Wait queues and semaphores as the kernel updates them (sync/wait.c, sync/sem.c). */
module WaitQueues {
  import opened Semaphore

  const WT_INTERRUPTED := 0x8000_0000
  const WT_KSEM := 0x100

  datatype ProcState = Runnable | Sleeping | Zombie

  class Proc {
    const pid: nat
    var state: ProcState
    var waitState: nat
    constructor (pid: nat)
      ensures this.pid == pid && state == Runnable && waitState == 0
    {
      this.pid, state, waitState := pid, Runnable, 0;
    }
  }

  /** A `wait_t`, which lives on the stack of the process that waits. */
  class Wait {
    const proc: Proc
    var flags: nat
    constructor (proc: Proc)
      ensures this.proc == proc && flags == WT_INTERRUPTED
    {
      this.proc, flags := proc, WT_INTERRUPTED;
    }
  }

  /** wakeup_proc, without the run queue. */
  method WakeupProc(p: Proc)
    requires !p.state.Zombie?
    modifies p
    ensures p.state.Runnable? && p.waitState == if old(p.state.Runnable?) then old(p.waitState) else 0
  {
    if !p.state.Runnable? { p.state, p.waitState := Runnable, 0; }
  }

  function Pids(waits: seq<Wait>): (r: seq<nat>)
    ensures |r| == |waits| && forall i | 0 <= i < |r| :: r[i] == waits[i].proc.pid
  {
    if waits == [] then [] else [waits[0].proc.pid] + Pids(waits[1..])
  }

  lemma {:induction false} PidsAppend(waits: seq<Wait>, w: Wait)
    ensures Pids(waits + [w]) == Pids(waits) + [w.proc.pid]
  {
  }

  /** The entry `w` is gone, and the others are in the order they were in. */
  ghost predicate TakenOut(before: seq<Wait>, after: seq<Wait>, w: Wait) {
    exists i :: 0 <= i < |before| && before[i] == w && after == before[..i] + before[i + 1..]
  }

  class WaitQueue {
    var waits: seq<Wait>

    ghost function Procs(): set<object>
      reads this
    {
      set w <- waits :: w.proc
    }

    /** Every entry belongs to another process, asleep for `why`. */
    ghost predicate Valid(why: nat)
      reads this, Procs()
    {
      && (forall i, j | 0 <= i < j < |waits| :: waits[i] != waits[j] && waits[i].proc != waits[j].proc && waits[i].proc.pid != waits[j].proc.pid)
      && forall i | 0 <= i < |waits| :: waits[i].proc.state.Sleeping? && waits[i].proc.waitState == why
    }

    constructor ()
      ensures waits == []
    {
      waits := [];
    }

    /** wait_current_set: `current` goes to sleep at the end of the queue. */
    method SetCurrent(current: Proc, why: nat) returns (wait: Wait)
      requires Valid(why) && forall w | w in waits :: w.proc != current && w.proc.pid != current.pid
      modifies this, current
      ensures Valid(why) && fresh(wait) && wait.proc == current && wait.flags == WT_INTERRUPTED && waits == old(waits) + [wait]
      ensures current.state.Sleeping? && current.waitState == why
    {
      wait := new Wait(current);
      current.state, current.waitState := Sleeping, why;
      waits := waits + [wait];
    }

    /** wait_queue_del. */
    method Del(wait: Wait, ghost why: nat)
      requires Valid(why) && wait in waits
      modifies this
      ensures Valid(why) && wait !in waits && TakenOut(old(waits), waits, wait)
    {
      var i :| 0 <= i < |waits| && waits[i] == wait;
      waits := waits[..i] + waits[i + 1..];
    }

    /** wakeup_first with `del`; the assertions of wait_queue_del hold. */
    method WakeupFirst(flags: nat, ghost why: nat)
      requires Valid(why)
      modifies this, waits, Procs()
      ensures Valid(why) && waits == if old(waits) == [] then [] else old(waits)[1..]
      ensures old(waits) != [] ==> var w := old(waits[0]); w.flags == flags && w.proc.state.Runnable? && w.proc.waitState == 0
      ensures forall w | w in old(waits) && w != old(waits)[0] :: w.flags == old(w.flags)
    {
      if waits != [] {
        var w := waits[0];
        assert w in waits;
        waits := waits[1..];
        w.flags := flags;
        WakeupProc(w.proc);
      }
    }

    /** wakeup_queue: everybody is woken once, in order, and leaves the queue if `del`. */
    method WakeupAll(flags: nat, del: bool, ghost why: nat)
      requires Valid(why)
      modifies this, waits, Procs()
      ensures waits == if del then [] else old(waits)
      ensures forall w | w in old(waits) :: w.flags == flags && w.proc.state.Runnable? && w.proc.waitState == 0
    {
      var all, i := waits, 0;
      while i < |all|
        invariant 0 <= i <= |all| && all == old(waits) && waits == if del then all[i..] else all
        invariant forall j | 0 <= j < i :: all[j].flags == flags && all[j].proc.state.Runnable? && all[j].proc.waitState == 0
        invariant forall j | i <= j < |all| :: all[j].proc.state.Sleeping?
      {
        var w := all[i];
        assert w in old(waits);
        if del { waits := waits[1..]; }
        w.flags := flags;
        WakeupProc(w.proc);
        i := i + 1;
      }
    }
  }

  /** A semaphore. Its state, as a value, is `View`. */
  class KernelSem {
    var value: nat
    const queue: WaitQueue

    ghost function View(): Sem
      reads this, queue
    {
      Sem(value, Pids(queue.waits))
    }

    ghost predicate Valid()
      reads this, queue, queue.Procs()
    {
      queue.Valid(WT_KSEM) && (value > 0 ==> queue.waits == [])
    }

    constructor (value: nat)
      ensures Valid() && fresh(queue) && View() == Sem(value, [])
    {
      this.value := value;
      queue := new WaitQueue();
    }

    /** up: the new state is `Up` of the old one, and who is woken runs with the flags `down` asks for. */
    method Up()
      requires Valid()
      modifies this, queue, queue.waits, queue.Procs()
      ensures Valid() && View() == Semaphore.Up(old(View())).0
      ensures old(queue.waits) == [] ==> value == old(value) + 1 && queue.waits == []
      ensures old(queue.waits) != [] ==> value == old(value) && queue.waits == old(queue.waits)[1..]
      ensures old(queue.waits) != [] ==>
        var w := old(queue.waits[0]); w.proc.state.Runnable? && Awake(w) && Semaphore.Up(old(View())).1 == First(w.proc.pid)
    {
      if queue.waits == [] { value := value + 1; }
      else {
        assert queue.waits[0].proc.waitState == WT_KSEM;
        queue.WakeupFirst(WT_KSEM, WT_KSEM);
      }
    }

    /** The process of `w` has been handed a permit. */
    ghost predicate Awake(w: Wait)
      reads this, queue, w
    {
      w !in queue.waits && w.flags == WT_KSEM
    }

    /** down up to the call of the scheduler. */
    method DownBegin(current: Proc) returns (got: bool, wait: Wait?)
      requires Valid() && forall w | w in queue.waits :: w.proc != current && w.proc.pid != current.pid
      modifies this, queue, current
      ensures Valid() && (View(), got) == Semaphore.Down(old(View()), current.pid)
      ensures (got <==> wait == null) && (got <==> old(value) > 0)
      ensures got ==> value == old(value) - 1 && queue.waits == old(queue.waits)
      ensures !got ==> value == 0 && fresh(wait) && queue.waits == old(queue.waits) + [wait]
      ensures !got ==> wait.proc == current && current.state.Sleeping? && current.waitState == WT_KSEM
    {
      if value > 0 { value, got, wait := value - 1, true, null; }
      else {
        wait := queue.SetCurrent(current, WT_KSEM);
        PidsAppend(old(queue.waits), wait);
        got := false;
      }
    }

    /** The rest of down when the scheduler comes back: a process that is still queued leaves the queue,
        and the result, which `down` asserts to be zero, is zero exactly for one that was handed a permit. */
    method DownEnd(wait: Wait) returns (flags: nat)
      requires Valid()
      modifies queue
      ensures Valid() && wait !in queue.waits
      ensures if wait in old(queue.waits) then TakenOut(old(queue.waits), queue.waits, wait) else queue.waits == old(queue.waits)
      ensures flags == if wait.flags == WT_KSEM then 0 else wait.flags
      ensures old(Awake(wait)) ==> flags == 0 && View() == old(View())
    {
      if wait in queue.waits { queue.Del(wait, WT_KSEM); }
      flags := if wait.flags != WT_KSEM then wait.flags else 0;
    }

    /** try_down never waits. */
    method TryDown() returns (got: bool)
      requires Valid()
      modifies this
      ensures Valid() && got == (old(value) > 0)
      ensures queue.waits == old(queue.waits) && value == if got then old(value) - 1 else old(value)
      ensures View() == if got then Semaphore.Down(old(View()), 0).0 else old(View())
    {
      if value > 0 { value, got := value - 1, true; } else { got := false; }
    }
  }
}
