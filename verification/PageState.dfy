/** Two-level page tables and the frames they use, as values (mm/pmm.c). */
module PageState {
  const ENTRIES: nat := 1024
  const VPAGES: nat := 1024 * 1024

  /** What a page is mapped to. */
  datatype Entry = Entry(frame: nat, perm: nat)
  datatype Pte = None | Some(e: Entry)
  datatype Pde = Absent | Present(frame: nat)

  /** The page directory, the frames that hold page tables, the reference counts, and the free frames. */
  datatype State = State(pgdir: seq<Pde>, tables: map<nat, seq<Pte>>, ref: map<nat, nat>, free: set<nat>)

  /** The mappings that the tables stand for. */
  type Mapping = map<nat, Entry>

  function RefOf(ref: map<nat, nat>, f: nat): nat { if f in ref then ref[f] else 0 }

  /** What the tables hold for page `p`. */
  function Look(pgdir: seq<Pde>, tables: map<nat, seq<Pte>>, p: nat): Pte {
    if p / ENTRIES < |pgdir| && pgdir[p / ENTRIES].Present? && pgdir[p / ENTRIES].frame in tables
       && p % ENTRIES < |tables[pgdir[p / ENTRIES].frame]|
    then tables[pgdir[p / ENTRIES].frame][p % ENTRIES] else None
  }

  predicate TableAt(st: State, d: nat)
    requires d < |st.pgdir|
  {
    st.pgdir[d].Present? ==> st.pgdir[d].frame in st.tables && |st.tables[st.pgdir[d].frame]| == ENTRIES
  }

  ghost predicate UsedAt(st: State, t: nat) { exists d: nat :: d < |st.pgdir| && st.pgdir[d] == Present(t) }

  /** Every present directory entry has a table of its own, and there are no other tables. */
  ghost predicate Tables(st: State) {
    && |st.pgdir| == ENTRIES
    && (forall d: nat {:trigger TableAt(st, d)} | d < ENTRIES :: TableAt(st, d))
    && (forall a: nat, b: nat | a < b < ENTRIES && st.pgdir[a].Present? && st.pgdir[b].Present? :: st.pgdir[a].frame != st.pgdir[b].frame)
    && forall t | t in st.tables :: t !in st.free && UsedAt(st, t)
  }

  /** The tables refine the mapping. */
  ghost predicate Refines(pgdir: seq<Pde>, tables: map<nat, seq<Pte>>, M: Mapping) {
    && (forall p | p in M :: p < VPAGES)
    && forall p: nat {:trigger Look(pgdir, tables, p)} | p < VPAGES :: Look(pgdir, tables, p) == if p in M then Some(M[p]) else None
  }

  ghost function Users(M: Mapping, f: nat): set<nat> { set p | p in M && M[p].frame == f }

  ghost predicate Used(M: Mapping, f: nat) { exists p :: p in M && M[p].frame == f }

  ghost predicate Count(M: Mapping, f: nat, n: nat) { n == |Users(M, f)| }

  /** Mapped frames are neither free nor tables, the count of a data frame is the number of entries that map it,
      and a free frame has none. */
  ghost predicate Frames(st: State, M: Mapping) {
    && (forall p | p in M :: M[p].frame !in st.free && M[p].frame !in st.tables)
    && (forall f | f in st.free :: RefOf(st.ref, f) == 0)
    && forall f: nat {:trigger Count(M, f, RefOf(st.ref, f))} | f !in st.free && f !in st.tables :: Count(M, f, RefOf(st.ref, f))
  }

  ghost predicate Inv(st: State, M: Mapping) {
    Tables(st) && Refines(st.pgdir, st.tables, M) && Frames(st, M)
  }

  // ---------- Counting ----------

  lemma {:induction false} CountUp(M: Mapping, p: nat, e: Entry, n: nat)
    requires p !in M && Count(M, e.frame, n)
    ensures Count(M[p := e], e.frame, n + 1)
  {
    assert Users(M[p := e], e.frame) == Users(M, e.frame) + {p};
  }

  lemma {:induction false} CountDown(M: Mapping, p: nat, n: nat)
    requires p in M && Count(M, M[p].frame, n)
    ensures n > 0 && Count(M - {p}, M[p].frame, n - 1) && (n == 1 <==> !Used(M - {p}, M[p].frame))
  {
    var f := M[p].frame;
    assert Users(M - {p}, f) == Users(M, f) - {p} && p in Users(M, f);
    if n == 1 {
      forall q | q in M - {p} ensures M[q].frame != f { assert q in Users(M - {p}, f) <==> M[q].frame == f; Single(Users(M, f), p, q); }
    } else {
      var q :| q in Users(M - {p}, f);
      assert q in M - {p} && (M - {p})[q].frame == f;
    }
  }

  lemma {:induction false} Single(s: set<nat>, p: nat, q: nat)
    requires |s| == 1 && p in s && q != p
    ensures q !in s
  {
    assert |s - {p}| == 0;
  }

  lemma {:induction false} CountSame(M: Mapping, M': Mapping, f: nat, n: nat)
    requires Count(M, f, n) && forall p :: (p in M && M[p].frame == f) <==> (p in M' && M'[p].frame == f)
    ensures Count(M', f, n)
  {
    assert Users(M', f) == Users(M, f);
  }

  // ---------- Steps ----------

  /** The word for page `p`, whose table is there, is set to `v`. */
  function Put(st: State, p: nat, v: Pte): State
    requires p / ENTRIES < |st.pgdir| && st.pgdir[p / ENTRIES].Present? && st.pgdir[p / ENTRIES].frame in st.tables
    requires |st.tables[st.pgdir[p / ENTRIES].frame]| == ENTRIES
  {
    var t := st.pgdir[p / ENTRIES].frame;
    st.(tables := st.tables[t := st.tables[t][p % ENTRIES := v]])
  }

  ghost predicate HasTable(st: State, p: nat) {
    && p < VPAGES && p / ENTRIES < |st.pgdir| && st.pgdir[p / ENTRIES].Present? && st.pgdir[p / ENTRIES].frame in st.tables
    && |st.tables[st.pgdir[p / ENTRIES].frame]| == ENTRIES
  }

  lemma {:induction false} PutLook(st: State, p: nat, v: Pte, q: nat)
    requires Tables(st) && HasTable(st, p) && q < VPAGES
    ensures Look(st.pgdir, Put(st, p, v).tables, q) == if q == p then v else Look(st.pgdir, st.tables, q)
  {
    assert TableAt(st, q / ENTRIES);
    if q / ENTRIES == p / ENTRIES { assert q % ENTRIES == p % ENTRIES ==> q == p; }
  }

  lemma {:induction false} PutKeepsTables(st: State, p: nat, v: Pte)
    requires Tables(st) && HasTable(st, p)
    ensures Tables(Put(st, p, v)) && Put(st, p, v).tables.Keys == st.tables.Keys
  {
    var st' := Put(st, p, v);
    forall d: nat | d < ENTRIES ensures TableAt(st', d) { assert TableAt(st, d); }
    forall t | t in st'.tables ensures UsedAt(st', t) {
      assert UsedAt(st, t);
      var d: nat :| d < |st.pgdir| && st.pgdir[d] == Present(t);
    }
  }

  lemma {:induction false} PutRefines(st: State, M: Mapping, p: nat, v: Pte)
    requires Tables(st) && HasTable(st, p) && Refines(st.pgdir, st.tables, M)
    ensures Refines(st.pgdir, Put(st, p, v).tables, if v.Some? then M[p := v.e] else M - {p})
  {
    forall q: nat | q < VPAGES
      ensures Look(st.pgdir, Put(st, p, v).tables, q) == (var M' := if v.Some? then M[p := v.e] else M - {p}; if q in M' then Some(M'[q]) else None)
    {
      PutLook(st, p, v, q);
      assert Look(st.pgdir, st.tables, q) == if q in M then Some(M[q]) else None;
    }
  }

  /** get_pte makes a table of zeroes in frame `t`. */
  function NewTable(st: State, d: nat, t: nat): State
    requires d < |st.pgdir|
  {
    State(st.pgdir[d := Present(t)], st.tables[t := seq(ENTRIES, _ => None)], st.ref[t := 1], st.free - {t})
  }

  lemma {:induction false} NewTableKeepsTables(st: State, d: nat, t: nat)
    requires Tables(st) && d < ENTRIES && st.pgdir[d] == Absent && t in st.free
    ensures Tables(NewTable(st, d, t))
  {
    var st' := NewTable(st, d, t);
    forall x: nat | x < ENTRIES ensures TableAt(st', x) { assert TableAt(st, x); }
    forall x: nat | x < ENTRIES && st.pgdir[x].Present? ensures st.pgdir[x].frame != t { assert TableAt(st, x); }
    forall u | u in st'.tables ensures u !in st'.free && UsedAt(st', u) {
      if u == t { assert st'.pgdir[d] == Present(t); }
      else {
        assert UsedAt(st, u);
        var x: nat :| x < |st.pgdir| && st.pgdir[x] == Present(u);
        assert st'.pgdir[x] == Present(u);
      }
    }
  }

  lemma {:induction false} NewTableLooks(st: State, M: Mapping, d: nat, t: nat)
    requires Tables(st) && Refines(st.pgdir, st.tables, M) && d < ENTRIES && st.pgdir[d] == Absent && t in st.free
    ensures Refines(NewTable(st, d, t).pgdir, NewTable(st, d, t).tables, M)
  {
    var st' := NewTable(st, d, t);
    forall q: nat | q < VPAGES ensures Look(st'.pgdir, st'.tables, q) == if q in M then Some(M[q]) else None {
      assert TableAt(st, q / ENTRIES);
      assert Look(st.pgdir, st.tables, q) == if q in M then Some(M[q]) else None;
    }
  }

  lemma {:induction false} NewTableKeepsInv(st: State, M: Mapping, d: nat, t: nat)
    requires Inv(st, M) && d < ENTRIES && |st.pgdir| == ENTRIES && st.pgdir[d] == Absent && t in st.free
    ensures Inv(NewTable(st, d, t), M)
  {
    NewTableKeepsTables(st, d, t);
    NewTableLooks(st, M, d, t);
    hide Refines, Tables, Count;
    var st' := NewTable(st, d, t);
    forall f: nat | f !in st'.free && f !in st'.tables ensures Count(M, f, RefOf(st'.ref, f)) {
      assert Count(M, f, RefOf(st.ref, f));
    }
  }

  /** alloc_page of frame `f`. */
  function Take(st: State, f: nat): State { st.(free := st.free - {f}) }

  /** A free frame that is taken is a data frame that no entry maps. */
  lemma {:induction false} TakeKeepsInv(st: State, M: Mapping, f: nat)
    requires Inv(st, M) && f in st.free
    ensures Inv(Take(st, f), M) && f !in st.tables && !Used(M, f)
  {
    var st' := Take(st, f);
    SameTables(st, st');
    hide Tables, Refines;
    forall g: nat | g !in st'.free && g !in st'.tables ensures Count(M, g, RefOf(st'.ref, g)) {
      if g == f { assert Users(M, f) == {}; } else { assert Count(M, g, RefOf(st.ref, g)); }
    }
  }

  /** page_remove_pte of a page that is mapped: its frame loses a reference, and is freed with the last one. */
  function Drop(st: State, f: nat): State {
    var n := RefOf(st.ref, f);
    st.(ref := st.ref[f := if n > 0 then n - 1 else 0], free := if n == 1 then st.free + {f} else st.free)
  }

  lemma {:induction false} UnmapKeepsInv(st: State, M: Mapping, p: nat)
    requires Inv(st, M) && p in M && HasTable(st, p)
    ensures RefOf(st.ref, M[p].frame) > 0
    ensures var f := M[p].frame;
      var st' := Put(Drop(st, f), p, None);
      && Inv(st', M - {p}) && st'.free == (if Used(M - {p}, f) then st.free else st.free + {f}) && st'.pgdir == st.pgdir && st'.tables.Keys == st.tables.Keys
  {
    var f := M[p].frame;
    var st1 := Drop(st, f);
    var st' := Put(st1, p, None);
    assert Count(M, f, RefOf(st.ref, f));
    CountDown(M, p, RefOf(st.ref, f));
    DropKeepsTables(st, f, M);
    PutKeepsTables(st1, p, None);
    PutRefines(st1, M, p, None);
    hide Tables, Refines, Look;
    UnmapFrames(st, M, p, st');
  }

  lemma {:induction false} DropKeepsTables(st: State, f: nat, M: Mapping)
    requires Tables(st) && f !in st.tables
    ensures Tables(Drop(st, f))
  {
    var st' := Drop(st, f);
    forall d: nat | d < ENTRIES ensures TableAt(st', d) { assert TableAt(st, d); }
    forall t | t in st'.tables ensures UsedAt(st', t) {
      assert UsedAt(st, t);
      var d: nat :| d < |st.pgdir| && st.pgdir[d] == Present(t);
      assert st'.pgdir[d] == Present(t);
    }
  }

  lemma {:induction false} UnmapFrames(st: State, M: Mapping, p: nat, st': State)
    requires Frames(st, M) && p in M && st'.tables.Keys == st.tables.Keys && RefOf(st.ref, M[p].frame) > 0
    requires st'.ref == Drop(st, M[p].frame).ref && st'.free == Drop(st, M[p].frame).free
    requires Count(M - {p}, M[p].frame, RefOf(st.ref, M[p].frame) - 1) && (RefOf(st.ref, M[p].frame) == 1 <==> !Used(M - {p}, M[p].frame))
    ensures Frames(st', M - {p})
  {
    var f, M' := M[p].frame, M - {p};
    forall g: nat | g !in st'.free && g !in st'.tables ensures Count(M', g, RefOf(st'.ref, g)) {
      if g != f {
        assert Count(M, g, RefOf(st.ref, g));
        CountSame(M, M', g, RefOf(st.ref, g));
      }
    }
    forall q | q in M' ensures M'[q].frame !in st'.free {
      if M'[q].frame == f { assert Used(M', f); }
    }
  }

  /** page_insert once page `p` is not mapped: frame `f` gets a reference, and the entry is written. */
  function Hold(st: State, f: nat): State { st.(ref := st.ref[f := RefOf(st.ref, f) + 1]) }

  lemma {:induction false} MapKeepsInv(st: State, M: Mapping, p: nat, f: nat, perm: nat)
    requires Inv(st, M) && p !in M && HasTable(st, p) && f !in st.free && f !in st.tables
    ensures Inv(Put(Hold(st, f), p, Some(Entry(f, perm))), M[p := Entry(f, perm)])
  {
    var st1, e := Hold(st, f), Entry(f, perm);
    var st', M' := Put(st1, p, Some(e)), M[p := e];
    SameTables(st, st1);
    PutKeepsTables(st1, p, Some(e));
    PutRefines(st1, M, p, Some(e));
    hide Tables, Refines, Look;
    MapFrames(st, M, p, e, st');
  }

  lemma {:induction false} MapFrames(st: State, M: Mapping, p: nat, e: Entry, st': State)
    requires Frames(st, M) && p !in M && e.frame !in st.free && e.frame !in st.tables
    requires st'.tables.Keys == st.tables.Keys && st'.ref == Hold(st, e.frame).ref && st'.free == st.free
    ensures Frames(st', M[p := e])
  {
    forall g: nat | g !in st'.free && g !in st'.tables ensures Count(M[p := e], g, RefOf(st'.ref, g)) {
      assert Count(M, g, RefOf(st.ref, g));
      if g == e.frame { CountUp(M, p, e, RefOf(st.ref, g)); } else { CountSame(M, M[p := e], g, RefOf(st.ref, g)); }
    }
  }

  lemma {:induction false} SameTables(st: State, st': State)
    requires Tables(st) && st'.pgdir == st.pgdir && st'.tables == st.tables && st'.free <= st.free
    ensures Tables(st')
  {
    forall d: nat | d < ENTRIES ensures TableAt(st', d) { assert TableAt(st, d); }
    forall t | t in st'.tables ensures UsedAt(st', t) {
      assert UsedAt(st, t);
      var d: nat :| d < |st.pgdir| && st.pgdir[d] == Present(t);
      assert st'.pgdir[d] == Present(t);
    }
  }

  /** page_insert of the frame that is mapped already changes the permission only. */
  lemma {:induction false} RemapKeepsInv(st: State, M: Mapping, p: nat, perm: nat)
    requires Inv(st, M) && p in M && HasTable(st, p)
    ensures Inv(Put(st, p, Some(Entry(M[p].frame, perm))), M[p := Entry(M[p].frame, perm)])
  {
    var e := Entry(M[p].frame, perm);
    var st', M' := Put(st, p, Some(e)), M[p := e];
    PutKeepsTables(st, p, Some(e));
    PutRefines(st, M, p, Some(e));
    hide Tables, Refines, Look;
    forall g: nat | g !in st'.free && g !in st'.tables ensures Count(M', g, RefOf(st'.ref, g)) {
      assert Count(M, g, RefOf(st.ref, g));
      CountSame(M, M', g, RefOf(st.ref, g));
    }
  }

  /** exit_range frees the table of directory entry `d`. */
  function DropTable(st: State, d: nat): State
    requires d < |st.pgdir| && st.pgdir[d].Present?
  {
    var t := st.pgdir[d].frame;
    State(st.pgdir[d := Absent], st.tables - {t}, st.ref[t := 0], st.free + {t})
  }

  lemma {:induction false} DropTableKeepsTables(st: State, d: nat)
    requires Tables(st) && d < ENTRIES && st.pgdir[d].Present?
    ensures Tables(DropTable(st, d))
  {
    var st', t := DropTable(st, d), st.pgdir[d].frame;
    forall x: nat | x < ENTRIES ensures TableAt(st', x) {
      assert TableAt(st, x);
      assert x != d && st.pgdir[x].Present? ==> st.pgdir[x].frame != t;
    }
    forall u | u in st'.tables ensures u !in st'.free && UsedAt(st', u) {
      assert UsedAt(st, u);
      var x: nat :| x < |st.pgdir| && st.pgdir[x] == Present(u);
      assert x != d && st'.pgdir[x] == Present(u);
    }
  }

  lemma {:induction false} DropTableLooks(st: State, M: Mapping, d: nat)
    requires Tables(st) && Refines(st.pgdir, st.tables, M) && d < ENTRIES && st.pgdir[d].Present? && forall p | p in M :: p / ENTRIES != d
    ensures Refines(DropTable(st, d).pgdir, DropTable(st, d).tables, M)
  {
    var st' := DropTable(st, d);
    forall q: nat | q < VPAGES ensures Look(st'.pgdir, st'.tables, q) == if q in M then Some(M[q]) else None {
      assert TableAt(st, q / ENTRIES);
      assert Look(st.pgdir, st.tables, q) == if q in M then Some(M[q]) else None;
      assert q / ENTRIES != d && st.pgdir[q / ENTRIES].Present? ==> st.pgdir[q / ENTRIES].frame != st.pgdir[d].frame;
    }
  }

  /** An empty table may go. */
  lemma {:induction false} DropTableKeepsInv(st: State, M: Mapping, d: nat)
    requires Inv(st, M) && |st.pgdir| == ENTRIES && d < ENTRIES && st.pgdir[d].Present? && forall p | p in M :: p / ENTRIES != d
    ensures Inv(DropTable(st, d), M)
  {
    assert TableAt(st, d);
    DropTableKeepsTables(st, d);
    DropTableLooks(st, M, d);
    hide Tables, Refines, Look, Count;
    var st' := DropTable(st, d);
    forall g: nat | g !in st'.free && g !in st'.tables ensures Count(M, g, RefOf(st'.ref, g)) {
      assert Count(M, g, RefOf(st.ref, g));
    }
  }
}
