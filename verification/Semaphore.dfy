/** Counting semaphores with a first-in first-out queue, as values (sync/sem.c). */
module Semaphore {
  /** `value` permits, and the processes waiting for one. */
  datatype Sem = Sem(value: nat, queue: seq<nat>)

  datatype Woken = Nobody | First(p: nat)

  /** No permit lies about while somebody waits, and nobody waits twice. */
  predicate Sound(s: Sem) {
    && (s.value > 0 ==> s.queue == [])
    && forall i, j | 0 <= i < j < |s.queue| :: s.queue[i] != s.queue[j]
  }

  /** __up: the permit goes straight to the first waiter, or is put by. */
  function Up(s: Sem): (Sem, Woken) {
    if s.queue == [] then (s.(value := s.value + 1), Nobody) else (s.(queue := s.queue[1..]), First(s.queue[0]))
  }

  /** __down up to the call of the scheduler: a permit is taken, or `p` joins the queue. */
  function Down(s: Sem, p: nat): (Sem, bool) {
    if s.value > 0 then (s.(value := s.value - 1), true) else (s.(queue := s.queue + [p]), false)
  }

  lemma UpDown(s: Sem, p: nat)
    requires Sound(s) && p !in s.queue
    ensures Sound(Up(s).0) && Sound(Down(s, p).0)
    ensures forall q :: q in Up(s).0.queue <==> q in s.queue && Up(s).1 != First(q)
    ensures forall q :: q in Down(s, p).0.queue <==> q in s.queue || (q == p && !Down(s, p).1)
  {
  }

  // ---------- Runs ----------

  datatype Op = Ups | Downs(p: nat)

  /** What a run of ups and downs comes to: the semaphore then, the processes that were woken and those that had to wait,
      in the order in which it happened, and how many permits were taken without waiting. */
  datatype Trace = Trace(end: Sem, woken: seq<nat>, waited: seq<nat>, taken: nat)

  function Run(s: Sem, ops: seq<Op>): Trace
    decreases |ops|
  {
    if ops == [] then Trace(s, [], [], 0)
    else if ops[0].Ups? then
      var (s1, w) := Up(s);
      var t := Run(s1, ops[1..]);
      if w.First? then t.(woken := [w.p] + t.woken) else t
    else
      var (s1, got) := Down(s, ops[0].p);
      var t := Run(s1, ops[1..]);
      if got then t.(taken := t.taken + 1) else t.(waited := [ops[0].p] + t.waited)
  }

  function UpsIn(ops: seq<Op>): nat {
    if ops == [] then 0 else (if ops[0].Ups? then 1 else 0) + UpsIn(ops[1..])
  }

  /** First come, first woken, over every run: those woken, followed by those who still wait, are those who waited at the
      start followed by those who had to wait since. And no permit is lost or made: each one is put by, taken, or handed on. */
  lemma {:induction false} FirstComeFirstWoken(s: Sem, ops: seq<Op>)
    ensures var t := Run(s, ops);
      && t.woken + t.end.queue == s.queue + t.waited
      && t.end.value + t.taken + |t.woken| == s.value + UpsIn(ops)
    decreases |ops|
  {
    if ops != [] {
      var t := Run(s, ops);
      if ops[0].Ups? {
        FirstComeFirstWoken(Up(s).0, ops[1..]);
        if s.queue != [] {
          var t' := Run(Up(s).0, ops[1..]);
          assert s.queue == [s.queue[0]] + s.queue[1..];
          assert t.woken + t.end.queue == [s.queue[0]] + (t'.woken + t'.end.queue);
        }
      } else {
        var p := ops[0].p;
        FirstComeFirstWoken(Down(s, p).0, ops[1..]);
        if s.value == 0 { assert s.queue + [p] + Run(Down(s, p).0, ops[1..]).waited == s.queue + t.waited; }
      }
    }
  }

  /** So of two processes that wait, the one that came first is woken first: when the other one is woken, it has been. */
  lemma {:induction false} NobodyOvertakes(s: Sem, ops: seq<Op>, i: nat, j: nat)
    requires Sound(s) && i < j < |s.queue|
    requires forall k | 0 <= k < |ops| && ops[k].Downs? :: ops[k].p != s.queue[i] && ops[k].p != s.queue[j]
    ensures var t := Run(s, ops);
      s.queue[j] in t.woken ==> i < j < |t.woken| && t.woken[i] == s.queue[i] && t.woken[j] == s.queue[j]
  {
    var t := Run(s, ops);
    FirstComeFirstWoken(s, ops);
    WaitersCame(s, ops);
    var all := s.queue + t.waited;
    if s.queue[j] in t.woken {
      var k :| 0 <= k < |t.woken| && t.woken[k] == s.queue[j];
      assert all[k] == s.queue[j];
      assert forall m | |s.queue| <= m < |all| :: all[m] == t.waited[m - |s.queue|] && all[m] in t.waited;
      assert k == j && all[i] == t.woken[i];
    }
  }

  /** Who had to wait has called down. */
  lemma {:induction false} WaitersCame(s: Sem, ops: seq<Op>)
    ensures forall p | p in Run(s, ops).waited :: Downs(p) in ops
    decreases |ops|
  {
    if ops != [] {
      WaitersCame(if ops[0].Ups? then Up(s).0 else Down(s, ops[0].p).0, ops[1..]);
      assert ops == [ops[0]] + ops[1..];
    }
  }
}
