/** get_pid with its cached interval (process/proc.c lines 190-223). */
module Pids {
  const MAX_PROCESS: nat := 4096
  const MAX_PID: nat := 8192

  /** The pid after `p`, around the circle 1 .. MAX_PID - 1. */
  function After(p: nat): nat { if p + 1 >= MAX_PID then 1 else p + 1 }

  /** How far it is from `a` on to `b`. */
  function Distance(a: nat, b: nat): nat
    requires 1 <= a < MAX_PID && 1 <= b < MAX_PID
  {
    if a <= b then b - a else b + (MAX_PID - 1) - a
  }

  /** `r` is the first pid from `c` on that is not in use. */
  ghost predicate FirstFree(live: seq<nat>, c: nat, r: nat) {
    && 1 <= c < MAX_PID && 1 <= r < MAX_PID && r !in live
    && forall q: nat | 1 <= q < MAX_PID && Distance(c, q) < Distance(c, r) :: q in live
  }

  /** The same without distances: all pids are in use from the one after `last` up to `r`, around the circle. */
  ghost predicate NextFree(live: seq<nat>, last: nat, r: nat) {
    && 1 <= r < MAX_PID && r !in live
    && forall q: nat | 1 <= q < MAX_PID && (if last < r then last < q < r else last < q || q < r) :: q in live
  }

  lemma {:induction false} FirstIsNext(live: seq<nat>, last: nat, r: nat)
    requires 1 <= last <= MAX_PID && FirstFree(live, After(last), r)
    ensures NextFree(live, last, r)
  {
  }

  lemma {:induction false} FirstFreeIsUnique(live: seq<nat>, c: nat, r: nat, s: nat)
    requires FirstFree(live, c, r) && FirstFree(live, c, s)
    ensures r == s
  {
    assert Distance(c, r) == Distance(c, s);
  }

  ghost predicate Listed(live: seq<nat>) {
    (forall i | 0 <= i < |live| :: 1 <= live[i] < MAX_PID) && forall i, j | 0 <= i < j < |live| :: live[i] != live[j]
  }

  /** With fewer than MAX_PID - 1 processes some pid is free. */
  lemma {:induction false} SomePidIsFree(live: seq<nat>, n: nat) returns (f: nat)
    requires Listed(live) && |live| < n < MAX_PID
    ensures 1 <= f <= n && f !in live
  {
    if n !in live { f := n; }
    else {
      var k :| 0 <= k < |live| && live[k] == n;
      var rest := live[..k] + live[k + 1..];
      forall i: nat | i < |rest| ensures rest[i] == live[if i < k then i else i + 1] { }
      f := SomePidIsFree(rest, n - 1);
      forall i: nat | i < |live| && i != k ensures live[i] in rest { assert rest[if i < k then i else i - 1] == live[i]; }
    }
  }

  class PidAllocator {
    var lastPid: nat
    var nextSafe: nat

    /** No pid in use lies strictly between the two. */
    ghost predicate Safe(live: seq<nat>)
      reads this
    {
      1 <= lastPid <= MAX_PID && nextSafe <= MAX_PID && forall p | p in live :: !(lastPid < p < nextSafe)
    }

    constructor ()
      ensures forall live :: Safe(live)
    {
      lastPid, nextSafe := MAX_PID, MAX_PID;
    }

    /** After the first call, which has given out `first`. */
    constructor StartAfter(first: nat)
      requires 1 <= first < MAX_PID
      ensures lastPid == first && forall live :: Safe(live) <==> forall p | p in live :: p <= first || p >= MAX_PID
    {
      lastPid, nextSafe := first, MAX_PID;
    }

    /** get_pid: the first free pid after the last one that was given out. */
    method GetPid(live: seq<nat>) returns (pid: nat)
      requires Safe(live) && Listed(live) && |live| < MAX_PID - 1
      modifies this
      ensures FirstFree(live, After(old(lastPid)), pid) && NextFree(live, old(lastPid), pid) && pid == lastPid
      ensures Safe(live) && Safe([pid] + live)
    {
      lastPid := lastPid + 1;
      if lastPid >= MAX_PID {
        lastPid := 1;
        Scan(live);
      } else if lastPid >= nextSafe {
        Scan(live);
      }
      pid := lastPid;
      FirstIsNext(live, old(lastPid), pid);
    }

    /** The part from `inside` on. */
    method Scan(live: seq<nat>)
      requires Listed(live) && |live| < MAX_PID - 1 && 1 <= lastPid < MAX_PID
      modifies this
      ensures FirstFree(live, old(lastPid), lastPid) && nextSafe <= MAX_PID && forall p | p in live :: !(lastPid < p < nextSafe)
    {
      ghost var c := lastPid;
      ghost var f := SomePidIsFree(live, MAX_PID - 1);
      f := Nearest(live, c, f);
      nextSafe := MAX_PID;
      var i := 0;
      while i < |live|
        invariant 0 <= i <= |live| && 1 <= lastPid < MAX_PID && lastPid < nextSafe <= MAX_PID
        invariant forall j | 0 <= j < i :: !(lastPid <= live[j] < nextSafe)
        invariant Distance(c, lastPid) <= Distance(c, f)
        decreases Distance(c, f) - Distance(c, lastPid), |live| - i
      {
        if live[i] == lastPid {
          assert lastPid in live && lastPid != f;
          StepOn(c, lastPid, f);
          lastPid := lastPid + 1;
          if lastPid >= nextSafe {
            if lastPid >= MAX_PID { lastPid := 1; }
            nextSafe := MAX_PID;
            i := 0;
            continue;
          }
        } else if live[i] > lastPid && nextSafe > live[i] {
          nextSafe := live[i];
        }
        i := i + 1;
      }
      assert lastPid !in live;
      SameDistance(c, lastPid, f);
    }
  }

  /** The nearest free pid from `c` on. */
  lemma {:induction false} Nearest(live: seq<nat>, c: nat, f0: nat) returns (f: nat)
    requires 1 <= c < MAX_PID && 1 <= f0 < MAX_PID && f0 !in live
    ensures FirstFree(live, c, f)
    decreases Distance(c, f0)
  {
    if q: nat :| 1 <= q < MAX_PID && Distance(c, q) < Distance(c, f0) && q !in live {
      f := Nearest(live, c, q);
    } else { f := f0; }
  }

  lemma {:induction false} StepOn(c: nat, p: nat, f: nat)
    requires 1 <= c < MAX_PID && 1 <= p < MAX_PID && 1 <= f < MAX_PID && Distance(c, p) <= Distance(c, f) && p != f
    ensures Distance(c, After(p)) == Distance(c, p) + 1 <= Distance(c, f)
  {
  }

  lemma {:induction false} SameDistance(c: nat, p: nat, f: nat)
    requires 1 <= c < MAX_PID && 1 <= p < MAX_PID && 1 <= f < MAX_PID
    ensures Distance(c, p) == Distance(c, f) ==> p == f
  {
  }
}
