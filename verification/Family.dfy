/** Parents, children and siblings as the links of the process table hold them (process/proc.c lines 163-188 and 557-582). */
module Family {
  const IDLE: nat := 0
  const INIT: nat := 1

  datatype Link = Null | To(pid: nat)
  datatype RunState = Uninit | Runnable | Sleeping | Zombie

  /** What a process waits for: nothing, a child (any one if `target` is zero), or something else. */
  datatype Wait = Nothing | Child(target: nat) | Interruptible | Semaphore

  /** A proc_struct. `cptr` is its youngest child, `yptr` and `optr` its next younger and older sibling. */
  datatype Proc = Proc(state: RunState, wait: Wait, exiting: bool, parent: nat, cptr: Link, yptr: Link, optr: Link)

  type Procs = map<nat, Proc>
  type Kids = map<nat, seq<nat>>

  function HeadOf(s: seq<nat>): Link { if s == [] then Null else To(s[0]) }
  function PrevOf(s: seq<nat>, i: nat): Link requires i < |s| { if i == 0 then Null else To(s[i - 1]) }
  function NextOf(s: seq<nat>, i: nat): Link requires i < |s| { if i + 1 < |s| then To(s[i + 1]) else Null }

  predicate Distinct(s: seq<nat>) { forall i, j | 0 <= i < j < |s| :: s[i] != s[j] }

  /** The links of the i-th of the children `s` of `p`. While the children of `p` are being moved away the first
      one may still point to a younger sibling that is gone: then `loose`. */
  predicate ChildAt(P: Procs, p: nat, s: seq<nat>, i: nat, loose: bool)
    requires i < |s|
  {
    && s[i] in P && s[i] != IDLE && P[s[i]].parent == p && P[s[i]].optr == NextOf(s, i)
    && ((loose && i == 0) || P[s[i]].yptr == PrevOf(s, i))
  }

  /** The children of `p` are `s`, the youngest first. */
  ghost predicate Children(P: Procs, p: nat, s: seq<nat>, loose: bool) {
    && p in P && Distinct(s) && P[p].cptr == HeadOf(s)
    && forall i: nat {:trigger ChildAt(P, p, s, i, loose)} | i < |s| :: ChildAt(P, p, s, i, loose)
  }

  /** Process `c` is among the children of its parent, which is older. */
  predicate HasParent(P: Procs, kids: Kids, born: map<nat, nat>, c: nat)
    requires c in P
  {
    && c in born && P[c].parent in P && P[c].parent in kids && c in kids[P[c].parent]
    && P[c].parent in born && born[P[c].parent] < born[c]
  }

  ghost predicate Kin(P: Procs, kids: Kids, loose: Link, p: nat) { p in kids && Children(P, p, kids[p], loose == To(p)) }

  /** The links are those of a forest with root `IDLE`: children lists and sibling links agree, and every
      process is a child of an older one. */
  ghost predicate Forest(P: Procs, kids: Kids, born: map<nat, nat>, loose: Link) {
    && IDLE in P && P[IDLE].parent == IDLE && kids.Keys == P.Keys
    && (forall p {:trigger Kin(P, kids, loose, p)} | p in P :: Kin(P, kids, loose, p))
    && forall c {:trigger HasParent(P, kids, born, c)} | c in P && c != IDLE :: HasParent(P, kids, born, c)
  }

  /** Following parents leads to IDLE: there are no cycles. */
  function Ancestors(P: Procs, kids: Kids, born: map<nat, nat>, loose: Link, c: nat): (r: seq<nat>)
    requires Forest(P, kids, born, loose) && c in P
    ensures |r| > 0 && r[0] == c && r[|r| - 1] == IDLE
    decreases if c in born then born[c] else 0
  {
    if c == IDLE then [c] else
      assert HasParent(P, kids, born, c);
      if P[c].parent == IDLE then [c, IDLE] else [c] + Ancestors(P, kids, born, loose, P[c].parent)
  }

  // ---------- set_links ----------

  function WithYptr(P: Procs, l: Link, y: Link): Procs {
    if l.To? && l.pid in P then P[l.pid := P[l.pid].(yptr := y)] else P
  }

  /** set_links of a process `c` whose parent is `p`. */
  function LinkIn(P: Procs, p: nat, c: nat): Procs
    requires p in P && c in P
  {
    var P1 := P[c := P[c].(yptr := Null, optr := P[p].cptr)];
    var P2 := WithYptr(P1, P[p].cptr, To(c));
    P2[p := P2[p].(cptr := To(c))]
  }

  lemma {:induction false} KidIsOther(P: Procs, kids: Kids, born: map<nat, nat>, loose: Link, p: nat, i: nat)
    requires Forest(P, kids, born, loose) && p in P && i < |kids[p]|
    ensures kids[p][i] in P && kids[p][i] != p && kids[p][i] != IDLE && P[kids[p][i]].parent == p
  {
    assert Kin(P, kids, loose, p) && ChildAt(P, p, kids[p], i, loose == To(p));
    assert HasParent(P, kids, born, kids[p][i]);
  }

  /** What set_links writes, record by record. */
  lemma {:induction false} LinkInFields(P: Procs, p: nat, c: nat)
    requires p in P && c in P && p != c && P[p].cptr != To(p) && P[p].cptr != To(c) && (P[p].cptr.To? ==> P[p].cptr.pid in P)
    ensures var P' := LinkIn(P, p, c);
      && P'.Keys == P.Keys
      && P'[c] == P[c].(yptr := Null, optr := P[p].cptr) && P'[p] == P[p].(cptr := To(c))
      && (P[p].cptr.To? ==> P'[P[p].cptr.pid] == P[P[p].cptr.pid].(yptr := To(c)))
      && forall x | x in P && x != p && x != c && To(x) != P[p].cptr :: P'[x] == P[x]
  {
  }

  lemma {:induction false} LinkInStates(P: Procs, p: nat, c: nat)
    requires p in P && c in P
    ensures LinkIn(P, p, c).Keys == P.Keys
    ensures forall x | x in P :: var y := LinkIn(P, p, c)[x];
      y.state == P[x].state && y.wait == P[x].wait && y.exiting == P[x].exiting && y.parent == P[x].parent
  {
  }

  lemma {:induction false} HeadKid(P: Procs, kids: Kids, born: map<nat, nat>, loose: Link, p: nat)
    requires Forest(P, kids, born, loose) && p in P
    ensures P[p].cptr == HeadOf(kids[p]) && (kids[p] != [] ==> kids[p][0] in P && kids[p][0] != p && P[kids[p][0]].parent == p)
  {
    assert Kin(P, kids, loose, p);
    if kids[p] != [] { KidIsOther(P, kids, born, loose, p, 0); }
  }

  /** A new process becomes the youngest child of `p`. */
  lemma {:induction false} LinkInKeepsForest(P: Procs, kids: Kids, born: map<nat, nat>, p: nat, c: nat, rec: Proc, b: nat)
    requires Forest(P, kids, born, Null) && p in P && c !in P && c != IDLE && rec.parent == p && rec.cptr == Null
    requires p in born && forall x | x in born :: born[x] < b
    ensures Forest(LinkIn(P[c := rec], p, c), kids[p := [c] + kids[p]][c := []], born[c := b], Null)
  {
    var P', kids', born' := LinkIn(P[c := rec], p, c), kids[p := [c] + kids[p]][c := []], born[c := b];
    hide LinkIn, Children, HasParent;
    forall q | q in P' ensures Kin(P', kids', Null, q) {
      if q == p { LinkInAt(P, kids, born, p, c, rec); }
      else if q != c { LinkInElsewhere(P, kids, born, p, c, rec, q); }
      else { LinkInNew(P, kids, born, p, c, rec); }
    }
    forall x | x in P' && x != IDLE ensures HasParent(P', kids', born', x) { LinkInParent(P, kids, born, p, c, rec, b, x); }
    LinkInNew(P, kids, born, p, c, rec);
    LinkInStates(P[c := rec], p, c);
  }

  lemma {:induction false} LinkInNew(P: Procs, kids: Kids, born: map<nat, nat>, p: nat, c: nat, rec: Proc)
    requires Forest(P, kids, born, Null) && p in P && c !in P && c != IDLE && rec.parent == p && rec.cptr == Null
    ensures LinkIn(P[c := rec], p, c).Keys == P.Keys + {c} && Children(LinkIn(P[c := rec], p, c), c, [], false)
  {
    HeadKid(P, kids, born, Null, p);
    LinkInFields(P[c := rec], p, c);
  }

  lemma {:induction false} LinkInParent(P: Procs, kids: Kids, born: map<nat, nat>, p: nat, c: nat, rec: Proc, b: nat, x: nat)
    requires Forest(P, kids, born, Null) && p in P && c !in P && c != IDLE && rec.parent == p && rec.cptr == Null
    requires p in born && (forall y | y in born :: born[y] < b) && x in LinkIn(P[c := rec], p, c) && x != IDLE
    ensures HasParent(LinkIn(P[c := rec], p, c), kids[p := [c] + kids[p]][c := []], born[c := b], x)
  {
    HeadKid(P, kids, born, Null, p);
    LinkInFields(P[c := rec], p, c);
    hide LinkIn;
    if x != c { assert HasParent(P, kids, born, x); }
  }

  lemma {:induction false} LinkInAt(P: Procs, kids: Kids, born: map<nat, nat>, p: nat, c: nat, rec: Proc)
    requires Forest(P, kids, born, Null) && p in P && c !in P && c != IDLE && rec.parent == p && rec.cptr == Null
    ensures Children(LinkIn(P[c := rec], p, c), p, [c] + kids[p], false)
  {
    var P', s := LinkIn(P[c := rec], p, c), [c] + kids[p];
    HeadKid(P, kids, born, Null, p);
    LinkInFields(P[c := rec], p, c);
    hide LinkIn, HasParent;
    assert Kin(P, kids, Null, p);
    forall i: nat | i < |kids[p]| ensures kids[p][i] in P && kids[p][i] != p { KidIsOther(P, kids, born, Null, p, i); }
    forall i: nat | i < |s| ensures ChildAt(P', p, s, i, false) {
      if i > 0 { assert ChildAt(P, p, kids[p], i - 1, false); }
    }
  }

  lemma {:induction false} LinkInElsewhere(P: Procs, kids: Kids, born: map<nat, nat>, p: nat, c: nat, rec: Proc, q: nat)
    requires Forest(P, kids, born, Null) && p in P && c !in P && c != IDLE && rec.parent == p && q in P && q != p
    ensures Children(LinkIn(P[c := rec], p, c), q, kids[q], false)
  {
    var P' := LinkIn(P[c := rec], p, c);
    HeadKid(P, kids, born, Null, p);
    LinkInFields(P[c := rec], p, c);
    hide LinkIn, HasParent;
    assert Kin(P, kids, Null, q);
    forall i: nat | i < |kids[q]| ensures ChildAt(P', q, kids[q], i, false) {
      assert ChildAt(P, q, kids[q], i, false);
    }
  }

  // ---------- remove_links ----------

  /** remove_links of `c`, which then goes. */
  function Unlink(P: Procs, c: nat): Procs
    requires c in P && P[c].parent in P
  {
    var P1 := WithYptr(P, P[c].optr, P[c].yptr);
    var P2 := if P[c].yptr.To? then if P[c].yptr.pid in P1 then P1[P[c].yptr.pid := P1[P[c].yptr.pid].(optr := P[c].optr)] else P1
              else P1[P[c].parent := P1[P[c].parent].(cptr := P[c].optr)];
    P2 - {c}
  }

  /** What remove_links writes; `s[i]` is `c`. */
  lemma {:induction false} UnlinkFields(P: Procs, c: nat, s: seq<nat>, i: nat)
    requires c in P && P[c].parent in P && P[c].parent != c && i < |s| && s[i] == c && Distinct(s) && P[c].parent !in s
    requires P[c].yptr == PrevOf(s, i) && P[c].optr == NextOf(s, i) && forall x | x in s :: x in P
    ensures var P', q := Unlink(P, c), P[c].parent;
      && P'.Keys == P.Keys - {c}
      && (i + 1 < |s| ==> P'[s[i + 1]] == P[s[i + 1]].(yptr := PrevOf(s, i)))
      && (i > 0 ==> P'[s[i - 1]] == P[s[i - 1]].(optr := NextOf(s, i)) && P'[q] == P[q])
      && (i == 0 ==> P'[q] == P[q].(cptr := NextOf(s, i)))
      && forall x | x in P && x != c && x != q && !(i + 1 < |s| && x == s[i + 1]) && !(i > 0 && x == s[i - 1]) :: P'[x] == P[x]
  {
  }

  lemma {:induction false} PlaceOf(P: Procs, kids: Kids, born: map<nat, nat>, c: nat) returns (i: nat)
    requires Forest(P, kids, born, Null) && c in P && c != IDLE
    ensures P[c].parent in P && P[c].parent != c && P[c].parent in kids
    ensures i < |kids[P[c].parent]| && kids[P[c].parent][i] == c && Distinct(kids[P[c].parent]) && P[c].parent !in kids[P[c].parent]
    ensures P[c].yptr == PrevOf(kids[P[c].parent], i) && P[c].optr == NextOf(kids[P[c].parent], i)
    ensures forall x | x in kids[P[c].parent] :: x in P && P[x].parent == P[c].parent
  {
    assert HasParent(P, kids, born, c);
    var q := P[c].parent;
    var s := kids[q];
    assert Kin(P, kids, Null, q);
    i :| 0 <= i < |s| && s[i] == c;
    assert ChildAt(P, q, s, i, false);
    forall x | x in s ensures x in P && x != q && P[x].parent == q {
      var j :| 0 <= j < |s| && s[j] == x;
      KidIsOther(P, kids, born, Null, q, j);
    }
  }

  /** Without the i-th. */
  function Drop(s: seq<nat>, i: nat): seq<nat> requires i < |s| { s[..i] + s[i + 1..] }

  lemma {:induction false} UnlinkAt(P: Procs, kids: Kids, born: map<nat, nat>, c: nat, i: nat)
    requires Forest(P, kids, born, Null) && c in P && c != IDLE && P[c].parent in P && P[c].parent in kids
    requires i < |kids[P[c].parent]| && kids[P[c].parent][i] == c
    ensures Children(Unlink(P, c), P[c].parent, Drop(kids[P[c].parent], i), false)
  {
    var q := P[c].parent;
    var s, P' := kids[q], Unlink(P, c);
    var i' := PlaceOf(P, kids, born, c);
    assert i' == i;
    UnlinkFields(P, c, s, i);
    hide Unlink, HasParent, Forest;
    KinOf(P, kids, born, q);
    var t := Drop(s, i);
    forall k: nat | k < |t| ensures t[k] == s[if k < i then k else k + 1] { }
    forall k: nat | k < |t| ensures ChildAt(P', q, t, k, false) {
      var j := if k < i then k else k + 1;
      assert ChildAt(P, q, s, j, false);
      assert t[k] == s[j] && t[k] != c;
    }
  }

  lemma {:induction false} KinOf(P: Procs, kids: Kids, born: map<nat, nat>, q: nat)
    requires Forest(P, kids, born, Null) && q in P
    ensures q in kids && Children(P, q, kids[q], false)
  {
    assert Kin(P, kids, Null, q);
  }

  lemma {:induction false} UnlinkElsewhere(P: Procs, kids: Kids, born: map<nat, nat>, c: nat, q: nat)
    requires Forest(P, kids, born, Null) && c in P && c != IDLE && P[c].parent in P && q in P && q != c && q != P[c].parent
    ensures Children(Unlink(P, c), q, kids[q], false)
  {
    var i := PlaceOf(P, kids, born, c);
    var s, P' := kids[P[c].parent], Unlink(P, c);
    UnlinkFields(P, c, s, i);
    KinOf(P, kids, born, q);
    forall k: nat | k < |kids[q]| ensures kids[q][k] in P && P[kids[q][k]].parent == q && kids[q][k] != q { KidIsOther(P, kids, born, Null, q, k); }
    hide Unlink, HasParent, Forest;
    forall k: nat | k < |kids[q]| ensures ChildAt(P', q, kids[q], k, false) {
      assert ChildAt(P, q, kids[q], k, false);
    }
  }

  lemma {:induction false} UnlinkParent(P: Procs, kids: Kids, born: map<nat, nat>, c: nat, i: nat, x: nat)
    requires Forest(P, kids, born, Null) && c in P && c != IDLE && P[c].parent in P && P[c].parent in kids && c in kids && kids[c] == []
    requires i < |kids[P[c].parent]| && kids[P[c].parent][i] == c && x in P && x != c && x != IDLE
    ensures x in Unlink(P, c) && HasParent(Unlink(P, c), kids[P[c].parent := Drop(kids[P[c].parent], i)] - {c}, born, x)
  {
    var i' := PlaceOf(P, kids, born, c);
    assert i' == i;
    var s := kids[P[c].parent];
    UnlinkFields(P, c, s, i);
    assert HasParent(P, kids, born, x);
    hide Unlink, Forest;
    if P[x].parent == P[c].parent {
      var j :| 0 <= j < |s| && s[j] == x;
      assert Drop(s, i)[if j < i then j else j - 1] == x;
    }
  }

  /** A process without children leaves the forest. */
  lemma {:induction false} UnlinkKeepsForest(P: Procs, kids: Kids, born: map<nat, nat>, c: nat) returns (i: nat)
    requires Forest(P, kids, born, Null) && c in P && c != IDLE && kids[c] == []
    ensures P[c].parent in P && P[c].parent in kids && i < |kids[P[c].parent]| && kids[P[c].parent][i] == c
    ensures Unlink(P, c).Keys == P.Keys - {c}
    ensures Forest(Unlink(P, c), kids[P[c].parent := Drop(kids[P[c].parent], i)] - {c}, born, Null)
  {
    i := PlaceOf(P, kids, born, c);
    var q := P[c].parent;
    UnlinkFields(P, c, kids[q], i);
    var P', kids' := Unlink(P, c), kids[q := Drop(kids[q], i)] - {c};
    forall p | p in P' ensures Kin(P', kids', Null, p) {
      if p == q { UnlinkAt(P, kids, born, c, i); } else { UnlinkElsewhere(P, kids, born, c, p); }
    }
    forall x | x in P' && x != IDLE ensures HasParent(P', kids', born, x) { UnlinkParent(P, kids, born, c, i, x); }
  }

  // ---------- do_exit gives the children of a process to INIT ----------

  /** One turn of the loop of do_exit for process `p`: its youngest child becomes the youngest child of INIT.
      The `yptr` of the next child is left as it is. */
  function Reparent(P: Procs, p: nat): Procs
    requires p in P && INIT in P && P[p].cptr.To? && P[p].cptr.pid in P
  {
    var c := P[p].cptr.pid;
    var P1 := P[p := P[p].(cptr := P[c].optr)];
    var P2 := P1[c := P1[c].(yptr := Null, optr := P1[INIT].cptr)];
    var P3 := WithYptr(P2, P2[INIT].cptr, To(c));
    var P4 := P3[c := P3[c].(parent := INIT)];
    P4[INIT := P4[INIT].(cptr := To(c))]
  }

  lemma {:induction false} ReparentFields(P: Procs, p: nat)
    requires p in P && INIT in P && P[p].cptr.To? && P[p].cptr.pid in P && p != INIT
    requires var c := P[p].cptr.pid;
      c != p && c != INIT && P[INIT].cptr != To(c) && P[INIT].cptr != To(INIT)
    ensures var P', c, f := Reparent(P, p), P[p].cptr.pid, P[INIT].cptr;
      && P'.Keys == P.Keys
      && P'[p] == P[p].(cptr := P[c].optr, yptr := if f == To(p) then To(c) else P[p].yptr)
      && P'[INIT] == P[INIT].(cptr := To(c)) && P'[c] == P[c].(yptr := Null, optr := f, parent := INIT)
      && forall x | x in P && x != p && x != INIT && x != c :: P'[x] == if To(x) == f then P[x].(yptr := To(c)) else P[x]
  {
  }

  /** `p` may give its children to INIT: INIT is older than every process but IDLE. */
  ghost predicate MayReparent(P: Procs, kids: Kids, born: map<nat, nat>, p: nat) {
    && Forest(P, kids, born, To(p)) && p in P && p != INIT && p != IDLE && INIT in P && P[INIT].parent == IDLE && INIT in born
    && forall x | x in P && x != IDLE && x != INIT :: x in born && born[INIT] < born[x]
  }

  lemma {:induction false} ReparentFacts(P: Procs, kids: Kids, born: map<nat, nat>, p: nat)
    requires MayReparent(P, kids, born, p) && kids[p] != []
    ensures P[p].cptr == To(kids[p][0]) && kids[p][0] in P && INIT in kids && P[INIT].cptr == HeadOf(kids[INIT])
    ensures var c := kids[p][0];
      && c != p && c != INIT && c != IDLE && P[c].parent == p && c !in kids[INIT] && P[c].optr == NextOf(kids[p], 0) && HeadOf(kids[INIT]) != To(INIT)
  {
    HeadKid(P, kids, born, To(p), p);
    HeadKid(P, kids, born, To(p), INIT);
    assert Kin(P, kids, To(p), p) && ChildAt(P, p, kids[p], 0, true) && HasParent(P, kids, born, kids[p][0]);
    var c := kids[p][0];
    if c in kids[INIT] {
      var j :| 0 <= j < |kids[INIT]| && kids[INIT][j] == c;
      KidIsOther(P, kids, born, To(p), INIT, j);
    }
  }

  function ReparentKids(kids: Kids, p: nat): Kids
    requires p in kids && INIT in kids && kids[p] != []
  {
    kids[p := kids[p][1..]][INIT := [kids[p][0]] + kids[INIT]]
  }

  lemma {:induction false} ReparentFrom(P: Procs, kids: Kids, born: map<nat, nat>, p: nat)
    requires MayReparent(P, kids, born, p) && kids[p] != [] && P[p].cptr.To? && P[p].cptr.pid in P
    ensures Children(Reparent(P, p), p, kids[p][1..], true)
  {
    ReparentFacts(P, kids, born, p);
    ReparentFields(P, p);
    var s, t, P' := kids[p], kids[p][1..], Reparent(P, p);
    assert Kin(P, kids, To(p), p);
    HeadKid(P, kids, born, To(p), INIT);
    forall i: nat | i < |s| ensures s[i] in P && s[i] != p && s[i] != INIT && P[s[i]].parent == p {
      KidIsOther(P, kids, born, To(p), p, i);
    }
    hide Reparent, Forest;
    forall i: nat | i < |t| ensures ChildAt(P', p, t, i, true) {
      assert ChildAt(P, p, s, i + 1, true) && t[i] == s[i + 1];
      assert s[0] != s[i + 1];
    }
    forall i, j | 0 <= i < j < |t| ensures t[i] != t[j] { assert t[i] == s[i + 1] && t[j] == s[j + 1]; }
  }

  lemma {:induction false} ReparentTo(P: Procs, kids: Kids, born: map<nat, nat>, p: nat)
    requires MayReparent(P, kids, born, p) && kids[p] != [] && P[p].cptr.To? && P[p].cptr.pid in P && INIT in kids
    ensures Children(Reparent(P, p), INIT, [kids[p][0]] + kids[INIT], false)
  {
    ReparentFacts(P, kids, born, p);
    ReparentFields(P, p);
    var c, s, P' := kids[p][0], kids[INIT], Reparent(P, p);
    var t := [c] + s;
    assert Kin(P, kids, To(p), INIT);
    forall i: nat | i < |s| ensures s[i] in P && s[i] != INIT && s[i] != c { KidIsOther(P, kids, born, To(p), INIT, i); }
    hide Reparent, Forest;
    forall i: nat | i < |t| ensures ChildAt(P', INIT, t, i, false) {
      if i > 0 {
        assert ChildAt(P, INIT, s, i - 1, false) && t[i] == s[i - 1];
        assert i > 1 ==> s[i - 1] != s[0];
      }
    }
    forall i, j | 0 <= i < j < |t| ensures t[i] != t[j] { if i > 0 { assert t[i] == s[i - 1] && t[j] == s[j - 1]; } else { assert t[j] == s[j - 1]; } }
  }

  lemma {:induction false} ReparentElsewhere(P: Procs, kids: Kids, born: map<nat, nat>, p: nat, q: nat)
    requires MayReparent(P, kids, born, p) && kids[p] != [] && P[p].cptr.To? && P[p].cptr.pid in P && q in P && q != p && q != INIT
    ensures Children(Reparent(P, p), q, kids[q], false)
  {
    ReparentFacts(P, kids, born, p);
    ReparentFields(P, p);
    var s, P' := kids[q], Reparent(P, p);
    assert Kin(P, kids, To(p), q);
    HeadKid(P, kids, born, To(p), INIT);
    forall i: nat | i < |s| ensures s[i] in P && P[s[i]].parent == q { KidIsOther(P, kids, born, To(p), q, i); }
    hide Reparent, Forest;
    forall i: nat | i < |s| ensures ChildAt(P', q, s, i, false) { assert ChildAt(P, q, s, i, false); }
  }

  lemma {:induction false} ReparentParent(P: Procs, kids: Kids, born: map<nat, nat>, p: nat, x: nat)
    requires MayReparent(P, kids, born, p) && kids[p] != [] && P[p].cptr.To? && P[p].cptr.pid in P && INIT in kids && x in Reparent(P, p) && x != IDLE
    ensures HasParent(Reparent(P, p), ReparentKids(kids, p), born, x)
  {
    ReparentFacts(P, kids, born, p);
    ReparentFields(P, p);
    hide Reparent;
    assert HasParent(P, kids, born, x);
    if x != kids[p][0] && P[x].parent == p { assert kids[p] == [kids[p][0]] + kids[p][1..]; }
  }

  lemma {:induction false} ReparentKeepsStates(P: Procs, kids: Kids, born: map<nat, nat>, p: nat)
    requires MayReparent(P, kids, born, p) && kids[p] != []
    ensures P[p].cptr == To(kids[p][0]) && kids[p][0] in P && INIT in kids && Reparent(P, p).Keys == P.Keys
    ensures Reparent(P, p)[INIT].parent == IDLE && kids[p][0] !in kids[INIT] && kids[p][0] != p && kids[p][0] != INIT && kids[p][0] != IDLE
    ensures forall x | x in P :: var y := Reparent(P, p)[x];
      y.state == P[x].state && y.wait == P[x].wait && y.exiting == P[x].exiting && y.parent == (if x == kids[p][0] then INIT else P[x].parent)
  {
    ReparentFacts(P, kids, born, p);
    ReparentFields(P, p);
  }

  lemma {:induction false} ReparentKin(P: Procs, kids: Kids, born: map<nat, nat>, p: nat, q: nat)
    requires MayReparent(P, kids, born, p) && kids[p] != [] && P[p].cptr.To? && P[p].cptr.pid in P && INIT in kids && q in P
    ensures Kin(Reparent(P, p), ReparentKids(kids, p), To(p), q)
  {
    hide Reparent, Children, HasParent;
    if q == p { ReparentFrom(P, kids, born, p); }
    else if q == INIT { ReparentTo(P, kids, born, p); }
    else { ReparentElsewhere(P, kids, born, p, q); }
  }

  /** One turn keeps the forest. */
  lemma {:induction false} ReparentKeepsForest(P: Procs, kids: Kids, born: map<nat, nat>, p: nat)
    requires MayReparent(P, kids, born, p) && kids[p] != []
    ensures P[p].cptr == To(kids[p][0]) && kids[p][0] in P && INIT in kids && Reparent(P, p).Keys == P.Keys
    ensures MayReparent(Reparent(P, p), ReparentKids(kids, p), born, p)
  {
    ReparentKeepsStates(P, kids, born, p);
    var P', kids' := Reparent(P, p), ReparentKids(kids, p);
    hide Reparent, Children, HasParent, Kin;
    forall q | q in P' ensures Kin(P', kids', To(p), q) { ReparentKin(P, kids, born, p, q); }
    forall x | x in P' && x != IDLE ensures HasParent(P', kids', born, x) { ReparentParent(P, kids, born, p, x); }
  }

  /** Before the loop, and after it, the links of the exiting process are as tight as all others. */
  lemma {:induction false} Loosen(P: Procs, kids: Kids, born: map<nat, nat>, p: nat)
    requires Forest(P, kids, born, Null)
    ensures Forest(P, kids, born, To(p))
  {
    forall q | q in P ensures Kin(P, kids, To(p), q) {
      assert Kin(P, kids, Null, q);
      var loose := To(p) == To(q);
      forall i: nat | i < |kids[q]| ensures ChildAt(P, q, kids[q], i, loose) { assert ChildAt(P, q, kids[q], i, false); }
    }
    forall x | x in P && x != IDLE ensures HasParent(P, kids, born, x) { }
  }

  lemma {:induction false} Tighten(P: Procs, kids: Kids, born: map<nat, nat>, p: nat)
    requires Forest(P, kids, born, To(p)) && p in P && kids[p] == []
    ensures Forest(P, kids, born, Null)
  {
    forall q | q in P ensures Kin(P, kids, Null, q) {
      assert Kin(P, kids, To(p), q);
      forall i: nat | i < |kids[q]| ensures ChildAt(P, q, kids[q], i, false) { assert ChildAt(P, q, kids[q], i, To(p) == To(q)); }
    }
    forall x | x in P && x != IDLE ensures HasParent(P, kids, born, x) { }
  }

  lemma {:induction false} UnlinkStates(P: Procs, c: nat)
    requires c in P && P[c].parent in P && P[c].parent != c
    ensures Unlink(P, c).Keys == P.Keys - {c}
    ensures forall x | x in P && x != c :: var y := Unlink(P, c)[x];
      y.state == P[x].state && y.wait == P[x].wait && y.exiting == P[x].exiting && y.parent == P[x].parent
  {
  }
}
