/** The delta-encoded timer list (schedule/sched.c lines 105-176). */
module Timers {
  /** A pending timer, and its delta to the one before it. */
  datatype Timer = Timer(id: nat, expires: nat)

  /** A pending timer, and how many ticks are left until it fires. */
  datatype Due = Due(id: nat, ticks: nat)

  function Sum(l: seq<Timer>): nat {
    if l == [] then 0 else l[0].expires + Sum(l[1..])
  }

  /** What the list stands for. */
  function Dues(l: seq<Timer>, base: nat): (r: seq<Due>)
    ensures |r| == |l|
  {
    if l == [] then [] else [Due(l[0].id, base + l[0].expires)] + Dues(l[1..], base + l[0].expires)
  }

  lemma {:induction false} DuesSplit(a: seq<Timer>, b: seq<Timer>, base: nat)
    ensures Dues(a + b, base) == Dues(a, base) + Dues(b, base + Sum(a))
  {
    if a == [] { assert a + b == b; }
    else {
      assert (a + b)[1..] == a[1..] + b;
      DuesSplit(a[1..], b, base + a[0].expires);
    }
  }

  /** A new timer goes behind all that fire before it or with it. */
  function Insert(s: seq<Due>, d: Due): seq<Due> {
    if s == [] || d.ticks < s[0].ticks then [d] + s else [s[0]] + Insert(s[1..], d)
  }

  function Without(s: seq<Due>, id: nat): seq<Due> {
    if s == [] then [] else if s[0].id == id then s[1..] else [s[0]] + Without(s[1..], id)
  }

  /** One tick less for everybody. */
  function Ticked(s: seq<Due>): (r: seq<Due>)
    ensures |r| == |s|
  {
    if s == [] then [] else [Due(s[0].id, if s[0].ticks > 0 then s[0].ticks - 1 else 0)] + Ticked(s[1..])
  }

  /** The timers at the front that have no ticks left, and the others. */
  function Fired(s: seq<Due>): seq<nat> {
    if s == [] || s[0].ticks > 0 then [] else [s[0].id] + Fired(s[1..])
  }

  function Waiting(s: seq<Due>): seq<Due> {
    if s == [] || s[0].ticks > 0 then s else Waiting(s[1..])
  }

  lemma {:induction false} InsertInto(a: seq<Timer>, b: seq<Timer>, base: nat, d: Due)
    requires base + Sum(a) <= d.ticks
    ensures Insert(Dues(a + b, base), d) == Dues(a, base) + Insert(Dues(b, base + Sum(a)), d)
  {
    if a == [] { assert a + b == b; }
    else {
      assert (a + b)[1..] == a[1..] + b;
      InsertInto(a[1..], b, base + a[0].expires, d);
    }
  }

  lemma {:induction false} SumSplit(a: seq<Timer>, b: seq<Timer>)
    ensures Sum(a + b) == Sum(a) + Sum(b)
  {
    if a == [] { assert a + b == b; } else { assert (a + b)[1..] == a[1..] + b; SumSplit(a[1..], b); }
  }

  predicate Distinct(l: seq<Timer>) { forall i, j | 0 <= i < j < |l| :: l[i].id != l[j].id }

  class TimerList {
    var list: seq<Timer>

    /** Between ticks the head has ticks left. */
    ghost predicate Valid()
      reads this
    {
      Distinct(list) && (list != [] ==> list[0].expires > 0)
    }

    constructor ()
      ensures Valid() && list == []
    {
      list := [];
    }

    /** add_timer */
    method Add(id: nat, expires: nat)
      requires Valid() && expires > 0 && forall t | t in list :: t.id != id
      modifies this
      ensures Valid() && Dues(list, 0) == Insert(old(Dues(list, 0)), Due(id, expires))
    {
      hide Dues, Insert, Distinct;
      var x: nat, i: nat := expires, 0;
      ghost var was := list;
      while i < |list| && x >= list[i].expires
        invariant 0 <= i <= |list| && list == was && x + Sum(list[..i]) == expires && (i == 0 ==> x == expires)
      {
        assert list[..i + 1] == list[..i] + [list[i]];
        SumSplit(list[..i], [list[i]]);
        x := x - list[i].expires;
        i := i + 1;
      }
      ghost var a, b := list[..i], list[i..];
      assert list == a + b;
      Placed(a, b, id, x);
      PutDistinct(a, b, Timer(id, x));
      if i < |list| {
        list := list[i := list[i].(expires := list[i].expires - x)];
        assert list[..i] == a && list[i..] == [b[0].(expires := b[0].expires - x)] + b[1..];
      }
      list := list[..i] + [Timer(id, x)] + list[i..];
      assert list == PutBetween(a, b, Timer(id, x));
    }

    /** del_timer; a timer that is not linked is left alone. */
    method Delete(id: nat)
      requires Valid()
      modifies this
      ensures Valid() && Dues(list, 0) == Without(old(Dues(list, 0)), id)
    {
      hide Dues, Without, Distinct;
      if i :| 0 <= i < |list| && list[i].id == id {
        ghost var a, x, b := list[..i], list[i], list[i + 1..];
        assert list == a + ([x] + b);
        TakeOverDistinct(a, x, b);
        Unlinked(a, x, b, 0);
        if list[i].expires != 0 && i + 1 < |list| {
          list := list[i + 1 := list[i + 1].(expires := list[i + 1].expires + list[i].expires)];
        }
        list := list[..i] + list[i + 1..];
        assert list == a + TakeOver(x, b);
      } else {
        NotThere(list, id, 0);
      }
    }

    /** run_timer_list: exactly the timers with one tick left fire, in their order. */
    method Tick() returns (fired: seq<nat>)
      requires Valid()
      modifies this
      ensures Valid() && Dues(list, 0) == Waiting(Ticked(old(Dues(list, 0)))) && fired == Fired(Ticked(old(Dues(list, 0))))
      ensures |fired| + |list| == |old(list)| && (forall i | 0 <= i < |fired| :: fired[i] == old(list)[i].id)
      ensures forall i | 0 <= i < |list| :: list[i].id == old(list)[|fired| + i].id
      ensures forall i | 0 <= i < |old(list)| :: old(Dues(list, 0))[i].ticks == 1 <==> i < |fired|
    {
      fired := [];
      FiredInFront(list);
      if list == [] { return; }
      HeadTicks(list, 0);
      list := list[0 := list[0].(expires := list[0].expires - 1)];
      fired := FireAll();
    }

    /** The loop of run_timer_list. */
    method FireAll() returns (fired: seq<nat>)
      requires Distinct(list)
      modifies this
      ensures Valid() && Dues(list, 0) == Waiting(old(Dues(list, 0))) && fired == Fired(old(Dues(list, 0)))
      ensures |fired| + |list| == |old(list)| && (forall i | 0 <= i < |fired| :: fired[i] == old(list)[i].id)
      ensures list == old(list)[|fired|..]
    {
      hide Dues, Fired, Waiting, Distinct;
      ghost var l, s := list, Dues(list, 0);
      fired := [];
      while list != [] && list[0].expires == 0
        invariant |fired| <= |old(list)| && list == old(list)[|fired|..] && forall i | 0 <= i < |fired| :: fired[i] == old(list)[i].id
        invariant fired + Fired(Dues(list, 0)) == Fired(s) && Waiting(Dues(list, 0)) == Waiting(s)
        decreases |list|
      {
        FiresFirst(list);
        assert (fired + [list[0].id]) + Fired(Dues(list[1..], 0)) == fired + ([list[0].id] + Fired(Dues(list[1..], 0)));
        assert list[1..] == l[|fired| + 1..];
        fired := fired + [list[0].id];
        list := list[1..];
      }
      NothingFires(list);
      RestDistinct(l, |fired|);
    }
  }

  /** The first timer has no ticks left. */
  lemma {:induction false} FiresFirst(l: seq<Timer>)
    requires l != [] && l[0].expires == 0
    ensures Fired(Dues(l, 0)) == [l[0].id] + Fired(Dues(l[1..], 0)) && Waiting(Dues(l, 0)) == Waiting(Dues(l[1..], 0))
  {
    assert Dues(l, 0)[1..] == Dues(l[1..], 0);
  }

  lemma {:induction false} NothingFires(l: seq<Timer>)
    requires l != [] ==> l[0].expires > 0
    ensures Fired(Dues(l, 0)) == [] && Waiting(Dues(l, 0)) == Dues(l, 0)
  {
  }

  lemma {:induction false} RestDistinct(l: seq<Timer>, k: nat)
    requires Distinct(l) && k <= |l|
    ensures Distinct(l[k..])
  {
  }

  /** add_timer at its place: what is behind gives up what the new timer takes. */
  function PutBetween(a: seq<Timer>, b: seq<Timer>, t: Timer): seq<Timer>
    requires b != [] ==> t.expires < b[0].expires
  {
    a + [t] + if b == [] then [] else [b[0].(expires := b[0].expires - t.expires)] + b[1..]
  }

  lemma {:induction false} PutDistinct(a: seq<Timer>, b: seq<Timer>, t: Timer)
    requires Distinct(a + b) && (b != [] ==> t.expires < b[0].expires) && forall u | u in a + b :: u.id != t.id
    ensures Distinct(PutBetween(a, b, t))
  {
    var l, m := a + b, PutBetween(a, b, t);
    forall i | 0 <= i < |m| ensures m[i].id == if i < |a| then l[i].id else if i == |a| then t.id else l[i - 1].id { }
    forall i | 0 <= i < |l| ensures l[i].id != t.id { assert l[i] in l; }
    forall i, j | 0 <= i < j < |m| ensures m[i].id != m[j].id {
      assert i != |a| && j != |a| ==> l[if i < |a| then i else i - 1].id != l[if j < |a| then j else j - 1].id;
    }
  }

  lemma {:induction false} Placed(a: seq<Timer>, b: seq<Timer>, id: nat, x: nat)
    requires b != [] ==> x < b[0].expires
    ensures Dues(PutBetween(a, b, Timer(id, x)), 0) == Insert(Dues(a + b, 0), Due(id, x + Sum(a)))
  {
    var t := Timer(id, x);
    var b' := if b != [] then [t] + [b[0].(expires := b[0].expires - x)] + b[1..] else [t];
    assert PutBetween(a, b, t) == a + b';
    PlacedBehind(b, Sum(a), t);
    hide Dues, Insert, PutBetween, Sum;
    InsertInto(a, b, 0, Due(id, x + Sum(a)));
    DuesSplit(a, b', 0);
  }

  lemma {:induction false} PlacedBehind(b: seq<Timer>, base: nat, t: Timer)
    requires b != [] ==> t.expires < b[0].expires
    ensures var b' := if b != [] then [t] + [b[0].(expires := b[0].expires - t.expires)] + b[1..] else [t];
      Dues(b', base) == Insert(Dues(b, base), Due(t.id, t.expires + base))
  {
    if b != [] { Reduced(b, base, t); }
  }

  /** The front of the list behind which a timer is put gives up what the new one takes. */
  lemma {:induction false} Reduced(b: seq<Timer>, base: nat, t: Timer)
    requires b != [] && t.expires < b[0].expires
    ensures var b' := [t] + [b[0].(expires := b[0].expires - t.expires)] + b[1..];
      Dues(b', base) == [Due(t.id, base + t.expires)] + Dues(b, base)
  {
    var b' := [t] + [b[0].(expires := b[0].expires - t.expires)] + b[1..];
    assert b'[1..] == [b[0].(expires := b[0].expires - t.expires)] + b[1..];
    assert b'[1..][1..] == b[1..];
  }

  /** del_timer: what is behind takes over the delta of the timer that goes. */
  function TakeOver(x: Timer, b: seq<Timer>): seq<Timer> {
    if b == [] then [] else [b[0].(expires := b[0].expires + x.expires)] + b[1..]
  }

  lemma {:induction false} TakeOverDistinct(a: seq<Timer>, x: Timer, b: seq<Timer>)
    requires Distinct(a + ([x] + b))
    ensures Distinct(a + TakeOver(x, b)) && forall i | 0 <= i < |a| :: a[i].id != x.id
  {
    var l, m := a + ([x] + b), a + TakeOver(x, b);
    assert l[|a|] == x;
    forall i | 0 <= i < |m| ensures m[i].id == l[if i < |a| then i else i + 1].id { }
    forall i | 0 <= i < |a| ensures a[i].id != x.id { assert l[i] == a[i]; }
  }

  lemma {:induction false} Unlinked(a: seq<Timer>, x: Timer, b: seq<Timer>, base: nat)
    requires forall i | 0 <= i < |a| :: a[i].id != x.id
    ensures Dues(a + TakeOver(x, b), base) == Without(Dues(a + ([x] + b), base), x.id)
  {
    if a == [] {
      assert a + TakeOver(x, b) == TakeOver(x, b) && a + ([x] + b) == [x] + b && ([x] + b)[1..] == b;
      if b != [] { assert TakeOver(x, b)[1..] == b[1..]; }
    } else {
      assert (a + TakeOver(x, b))[1..] == a[1..] + TakeOver(x, b) && (a + ([x] + b))[1..] == a[1..] + ([x] + b);
      Unlinked(a[1..], x, b, base + a[0].expires);
    }
  }

  lemma {:induction false} NotThere(l: seq<Timer>, id: nat, base: nat)
    requires forall i | 0 <= i < |l| :: l[i].id != id
    ensures Without(Dues(l, base), id) == Dues(l, base)
  {
    if l != [] { NotThere(l[1..], id, base + l[0].expires); }
  }

  /** Taking one from the first delta takes one from everybody. */
  lemma {:induction false} HeadTicks(l: seq<Timer>, base: nat)
    requires l != [] && l[0].expires > 0
    ensures Dues(l[0 := l[0].(expires := l[0].expires - 1)], base) == Ticked(Dues(l, base))
  {
    var m := l[0 := l[0].(expires := l[0].expires - 1)];
    assert m[1..] == l[1..];
    ShiftTicks(l[1..], base + l[0].expires);
  }

  lemma {:induction false} ShiftTicks(l: seq<Timer>, base: nat)
    requires base > 0
    ensures Dues(l, base - 1) == Ticked(Dues(l, base))
  {
    if l != [] { ShiftTicks(l[1..], base + l[0].expires); }
  }

  // ---------- Whole runs ----------

  predicate Sorted(s: seq<Due>) { forall i, j | 0 <= i < j < |s| :: s[i].ticks <= s[j].ticks }

  datatype Event = Added(id: nat, ticks: nat) | Deleted(id: nat) | Tick

  /** What an event leaves waiting, and what it fires. */
  function After(s: seq<Due>, e: Event): seq<Due> {
    match e case Added(id, t) => Insert(s, Due(id, t)) case Deleted(id) => Without(s, id) case Tick => Waiting(Ticked(s))
  }

  function FiredBy(s: seq<Due>, e: Event): seq<nat> {
    if e.Tick? then Fired(Ticked(s)) else []
  }

  function AfterAll(s: seq<Due>, es: seq<Event>): seq<Due>
    decreases |es|
  {
    if es == [] then s else AfterAll(After(s, es[0]), es[1..])
  }

  function Ticks(es: seq<Event>): nat {
    if es == [] then 0 else (if es[0].Tick? then 1 else 0) + Ticks(es[1..])
  }

  /** The state between events: times do not fall, and none is zero. */
  predicate Calm(s: seq<Due>) { Sorted(s) && forall i | 0 <= i < |s| :: s[i].ticks > 0 }

  /** What a valid list stands for is such a state. */
  lemma {:induction false} ListIsCalm(l: seq<Timer>, base: nat)
    requires l != [] ==> base + l[0].expires > 0
    ensures Calm(Dues(l, base)) && forall i | 0 <= i < |l| :: Dues(l, base)[i].ticks >= base
  {
    if l != [] {
      ListIsCalm(l[1..], base + l[0].expires);
      var r := Dues(l, base);
      forall i | 0 < i < |r| ensures r[i] == Dues(l[1..], base + l[0].expires)[i - 1] { }
      forall i, j | 0 <= i < j < |r| ensures r[i].ticks <= r[j].ticks {
        if i > 0 { assert Dues(l[1..], base + l[0].expires)[i - 1].ticks <= Dues(l[1..], base + l[0].expires)[j - 1].ticks; }
      }
    }
  }

  lemma {:induction false} TickedAt(s: seq<Due>)
    requires Calm(s)
    ensures Sorted(Ticked(s)) && forall i | 0 <= i < |s| :: Ticked(s)[i] == Due(s[i].id, s[i].ticks - 1)
  {
    if s != [] {
      TickedAt(s[1..]);
      forall i | 0 <= i < |s| ensures Ticked(s)[i] == Due(s[i].id, s[i].ticks - 1) { if i > 0 { assert s[i] == s[1..][i - 1]; } }
    }
  }

  lemma {:induction false} WaitingIs(s: seq<Due>, d: Due)
    requires Sorted(s)
    ensures Calm(Waiting(s)) && (d in Waiting(s) <==> d in s && d.ticks > 0)
  {
    if s != [] && s[0].ticks == 0 {
      assert s == [s[0]] + s[1..];
      WaitingIs(s[1..], d);
    }
  }

  /** Exactly the timers without ticks left fire. */
  lemma {:induction false} FiredIs(s: seq<Due>, id: nat)
    requires Sorted(s)
    ensures id in Fired(s) <==> Due(id, 0) in s
  {
    if s != [] {
      assert s == [s[0]] + s[1..];
      if s[0].ticks == 0 {
        FiredIs(s[1..], id);
      } else {
        assert forall i | 0 <= i < |s| :: s[i].ticks > 0;
      }
    }
  }

  /** They are the front of the list, in its order. */
  lemma {:induction false} FiredAre(s: seq<Due>)
    requires Sorted(s)
    ensures |Fired(s)| <= |s| && forall i | 0 <= i < |s| :: s[i].ticks == 0 <==> i < |Fired(s)|
    ensures forall i | 0 <= i < |Fired(s)| :: Fired(s)[i] == s[i].id
  {
    if s != [] && s[0].ticks == 0 {
      FiredAre(s[1..]);
      assert forall i | 0 < i < |s| :: s[i] == s[1..][i - 1];
    }
  }

  lemma {:induction false} FiredInFront(l: seq<Timer>)
    requires l != [] ==> l[0].expires > 0
    ensures var fired := Fired(Ticked(Dues(l, 0)));
      |fired| <= |l| && forall i | 0 <= i < |l| :: Dues(l, 0)[i].ticks == 1 <==> i < |fired|
  {
    ListIsCalm(l, 0);
    TickedAt(Dues(l, 0));
    hide Dues, Ticked, Fired;
    FiredAre(Ticked(Dues(l, 0)));
  }

  /** A new timer stands behind exactly those that fire before it or with it, and leaves all others alone. */
  lemma {:induction false} InsertIs(s: seq<Due>, d: Due) returns (k: nat)
    requires Sorted(s)
    ensures k <= |s| && Insert(s, d) == s[..k] + [d] + s[k..] && forall i | 0 <= i < |s| :: s[i].ticks <= d.ticks <==> i < k
  {
    if s == [] || d.ticks < s[0].ticks { k := 0; }
    else {
      k := InsertIs(s[1..], d);
      Shifted(s, d, k);
      k := k + 1;
    }
  }

  lemma {:induction false} Shifted(s: seq<Due>, d: Due, k: nat)
    requires s != [] && k <= |s[1..]|
    ensures [s[0]] + (s[1..][..k] + [d] + s[1..][k..]) == s[..k + 1] + [d] + s[k + 1..]
  {
  }

  lemma {:induction false} InsertCalm(s: seq<Due>, d: Due)
    requires Calm(s) && d.ticks > 0
    ensures Calm(Insert(s, d)) && forall x: Due :: x in Insert(s, d) <==> x in s || x == d
  {
    var k := InsertIs(s, d);
    hide Insert;
    BetweenCalm(s, d, k);
    assert s == s[..k] + s[k..];
  }

  lemma {:induction false} BetweenCalm(s: seq<Due>, d: Due, k: nat)
    requires Calm(s) && d.ticks > 0 && k <= |s| && forall i | 0 <= i < |s| :: s[i].ticks <= d.ticks <==> i < k
    ensures Calm(s[..k] + [d] + s[k..])
  {
    var r := s[..k] + [d] + s[k..];
    assert forall i | 0 <= i < |r| :: r[i] == if i < k then s[i] else if i == k then d else s[i - 1];
    forall i, j | 0 <= i < j < |r| ensures r[i].ticks <= r[j].ticks {
      var i' := if i < k then i else i - 1;
      var j' := if j < k then j else j - 1;
      assert i != k && j != k ==> s[i'].ticks <= s[j'].ticks;
    }
  }

  lemma {:induction false} WithoutIs(s: seq<Due>, id: nat) returns (k: nat)
    ensures k <= |s| && Without(s, id) == if k == |s| then s else s[..k] + s[k + 1..]
    ensures (k < |s| ==> s[k].id == id) && forall i | 0 <= i < k :: s[i].id != id
  {
    k := 0;
    if s != [] && s[0].id != id {
      k := WithoutIs(s[1..], id);
      k := k + 1;
      assert s == [s[0]] + s[1..];
      if k < |s| { assert [s[0]] + (s[1..][..k - 1] + s[1..][k..]) == s[..k] + s[k + 1..]; }
    }
  }

  lemma {:induction false} WithoutCalm(s: seq<Due>, id: nat)
    requires Calm(s)
    ensures Calm(Without(s, id)) && forall x: Due | x.id != id :: x in Without(s, id) <==> x in s
  {
    var k := WithoutIs(s, id);
    hide Without;
    if k < |s| {
      var r := s[..k] + s[k + 1..];
      assert forall i | 0 <= i < |r| :: r[i] == s[if i < k then i else i + 1];
      assert s == s[..k] + [s[k]] + s[k + 1..];
    }
  }

  /** Number `id` waits for exactly `n` ticks more; with `n` at most zero it does not wait at all. */
  ghost predicate TimeLeft(s: seq<Due>, id: nat, n: int) {
    forall k: nat :: Due(id, k) in s <==> 0 < k == n
  }

  /** In a list the numbers differ, so each one waits for one time. */
  lemma {:induction false} OneTimeEach(l: seq<Timer>, id: nat, t: nat)
    requires Distinct(l) && Due(id, t) in Dues(l, 0) && t > 0
    ensures TimeLeft(Dues(l, 0), id, t)
  {
    DuesIds(l, 0);
    var s := Dues(l, 0);
    forall k: nat | Due(id, k) in s ensures k == t {
      var i :| 0 <= i < |s| && s[i] == Due(id, k);
      var j :| 0 <= j < |s| && s[j] == Due(id, t);
      assert l[i].id == l[j].id;
    }
  }

  /** And a deleted one waits no more. */
  lemma {:induction false} DeletedIsGone(l: seq<Timer>, id: nat)
    requires Distinct(l)
    ensures TimeLeft(Without(Dues(l, 0), id), id, 0)
  {
    DuesIds(l, 0);
    var s := Dues(l, 0);
    var k := WithoutIs(s, id);
    hide Dues, Without;
    forall i | 0 <= i < |s| && i != k ensures s[i].id != id { if k < |s| { assert l[i].id != l[k].id; } }
    NoneLeft(s, id, k);
  }

  lemma {:induction false} NoneLeft(s: seq<Due>, id: nat, k: nat)
    requires k <= |s| && forall i | 0 <= i < |s| && i != k :: s[i].id != id
    ensures TimeLeft(if k < |s| then s[..k] + s[k + 1..] else s, id, 0)
  {
    var r := if k < |s| then s[..k] + s[k + 1..] else s;
    assert forall i | 0 <= i < |r| :: r[i] == s[if i < k then i else i + 1];
  }

  predicate Foreign(e: Event, id: nat) {
    (e.Added? ==> e.ticks > 0 && e.id != id) && (e.Deleted? ==> e.id != id)
  }

  /** One event that does not concern timer `id`: it fires it exactly if it is a tick and one tick was left. */
  lemma {:induction false} Undisturbed(s: seq<Due>, e: Event, id: nat, n: int)
    requires Calm(s) && TimeLeft(s, id, n) && Foreign(e, id)
    ensures Calm(After(s, e)) && TimeLeft(After(s, e), id, if e.Tick? then n - 1 else n)
    ensures id in FiredBy(s, e) <==> e.Tick? && n == 1
  {
    if e.Added? { InsertCalm(s, Due(e.id, e.ticks)); }
    else if e.Deleted? { WithoutCalm(s, e.id); }
    else { OneTick(s, id, n); }
  }

  lemma {:induction false} OneTick(s: seq<Due>, id: nat, n: int)
    requires Calm(s) && TimeLeft(s, id, n)
    ensures Calm(Waiting(Ticked(s))) && TimeLeft(Waiting(Ticked(s)), id, n - 1)
    ensures id in Fired(Ticked(s)) <==> n == 1
  {
    var r := Ticked(s);
    TickedAt(s);
    FiredIs(r, id);
    hide Ticked;
    forall k: nat ensures Due(id, k) in r <==> k + 1 == n {
      if Due(id, k) in r { var i :| 0 <= i < |r| && r[i] == Due(id, k); assert s[i] == Due(id, k + 1); }
      if Due(id, k + 1) in s { var i :| 0 <= i < |s| && s[i] == Due(id, k + 1); assert r[i] == Due(id, k); }
    }
    WaitingIs(r, Due(id, 0));
    forall k: nat ensures Due(id, k) in Waiting(r) <==> 0 < k == n - 1 { WaitingIs(r, Due(id, k)); }
  }

  ghost predicate LeavesAlone(es: seq<Event>, id: nat) { forall e | e in es :: Foreign(e, id) }

  /** A timer with `t` ticks to go waits for what is left of them, whatever else is added and deleted,
      and a tick fires it exactly if it is the t-th one: no earlier one does, and no later one. */
  lemma {:induction false} FiresOnTime(s: seq<Due>, es: seq<Event>, id: nat, t: int)
    requires Calm(s) && TimeLeft(s, id, t) && LeavesAlone(es, id)
    ensures Calm(AfterAll(s, es)) && TimeLeft(AfterAll(s, es), id, t - Ticks(es))
    ensures id in FiredBy(AfterAll(s, es), Tick) <==> Ticks(es) + 1 == t
    decreases |es|
  {
    if es == [] { Undisturbed(s, Tick, id, t); }
    else {
      Undisturbed(s, es[0], id, t);
      assert es[0] in es && forall e | e in es[1..] :: e in es;
      FiresOnTime(After(s, es[0]), es[1..], id, if es[0].Tick? then t - 1 else t);
    }
  }

  /** Events that a list can be given one after the other: a new timer has ticks and a number that is not waiting. */
  ghost predicate Possible(s: seq<Due>, es: seq<Event>)
    decreases |es|
  {
    es != [] ==>
      && (es[0].Added? ==> es[0].ticks > 0 && forall i | 0 <= i < |s| :: s[i].id != es[0].id)
      && Possible(After(s, es[0]), es[1..])
  }

  /** The list of the kernel under a run of events, and the timers that the last tick has fired. */
  method Run(l: TimerList, es: seq<Event>) returns (fired: seq<nat>)
    requires l.Valid() && Possible(Dues(l.list, 0), es)
    modifies l
    ensures l.Valid() && Dues(l.list, 0) == AfterAll(old(Dues(l.list, 0)), es)
    ensures es != [] ==> fired == FiredBy(AfterAll(old(Dues(l.list, 0)), es[..|es| - 1]), es[|es| - 1])
  {
    fired := [];
    ghost var s := Dues(l.list, 0);
    for i := 0 to |es|
      invariant l.Valid() && Dues(l.list, 0) == AfterAll(s, es[..i]) && Possible(Dues(l.list, 0), es[i..])
      invariant i > 0 ==> fired == FiredBy(AfterAll(s, es[..i - 1]), es[i - 1])
    {
      assert es[i..][0] == es[i] && es[i..][1..] == es[i + 1..];
      OneEventMore(s, es[..i], es[i]);
      assert es[..i] + [es[i]] == es[..i + 1];
      match es[i] {
        case Added(id, ticks) =>
          DuesIds(l.list, 0);
          l.Add(id, ticks);
          fired := [];
        case Deleted(id) => l.Delete(id); fired := [];
        case Tick => fired := l.Tick();
      }
    }
    assert es[..|es|] == es;
  }

  lemma {:induction false} DuesIds(l: seq<Timer>, base: nat)
    ensures forall i | 0 <= i < |l| :: Dues(l, base)[i].id == l[i].id
  {
    if l != [] { DuesIds(l[1..], base + l[0].expires); }
  }

  lemma {:induction false} OneEventMore(s: seq<Due>, es: seq<Event>, e: Event)
    ensures AfterAll(s, es + [e]) == After(AfterAll(s, es), e)
    decreases |es|
  {
    if es == [] { assert ([e])[1..] == []; } else {
      OneEventMore(After(s, es[0]), es[1..], e);
      assert (es + [e])[1..] == es[1..] + [e];
    }
  }

  /** So in the kernel's list a timer with `t` ticks to go, which no event of the run concerns, is fired by the t-th tick
      and by no other one. */
  method FiresInTheList(l: TimerList, es: seq<Event>, id: nat, t: nat) returns (fired: seq<nat>)
    requires l.Valid() && Due(id, t) in Dues(l.list, 0) && LeavesAlone(es, id) && Possible(Dues(l.list, 0), es + [Tick])
    modifies l
    ensures l.Valid() && (id in fired <==> Ticks(es) + 1 == t)
  {
    ListIsCalm(l.list, 0);
    OneTimeEach(l.list, id, t);
    fired := LastTick(l, es, id, t);
  }

  /** And a timer that is deleted, and not added again, is fired by none. */
  method DeletedNeverFires(l: TimerList, es: seq<Event>, id: nat) returns (fired: seq<nat>)
    requires l.Valid() && LeavesAlone(es, id) && Possible(Without(Dues(l.list, 0), id), es + [Tick])
    modifies l
    ensures l.Valid() && id !in fired
  {
    DeletedIsGone(l.list, id);
    l.Delete(id);
    ListIsCalm(l.list, 0);
    fired := LastTick(l, es, id, 0);
  }

  /** A run, and the tick after it. */
  method LastTick(l: TimerList, es: seq<Event>, id: nat, t: nat) returns (fired: seq<nat>)
    requires l.Valid() && Calm(Dues(l.list, 0)) && TimeLeft(Dues(l.list, 0), id, t)
    requires LeavesAlone(es, id) && Possible(Dues(l.list, 0), es + [Tick])
    modifies l
    ensures l.Valid() && (id in fired <==> Ticks(es) + 1 == t)
  {
    FiresOnTime(Dues(l.list, 0), es, id, t);
    assert (es + [Tick])[..|es|] == es;
    fired := Run(l, es + [Tick]);
  }
}
