/** get_pte, page_insert, page_remove, pgdir_alloc_page, unmap_range and exit_range (mm/pmm.c), exit_mmap and the end
    of do_pgfault (mm/vmm.c lines 209-222 and 402-415). */
module PageTables {
  import opened PageState

  const USER_LOW: nat := 0x1_0000     // USERBASE and USERTOP in pages
  const USER_HIGH: nat := 0x8_0000

  /** The pages of `M` outside [start, end). */
  ghost function Outside(M: Mapping, start: nat, end: nat): Mapping {
    map p | p in M && !(start <= p < end) :: M[p]
  }

  /** Exactly the frames that `M` used and `M'` does not have become free. */
  ghost predicate Freed(M: Mapping, M': Mapping, free: set<nat>, free': set<nat>) {
    forall f :: f in free' <==> f in free || (Used(M, f) && !Used(M', f))
  }

  lemma {:induction false} FreedOne(st: State, M: Mapping, p: nat, free': set<nat>)
    requires Inv(st, M) && p in M && free' == if Used(M - {p}, M[p].frame) then st.free else st.free + {M[p].frame}
    ensures Freed(M, M - {p}, st.free, free')
  {
    forall f ensures f in free' <==> f in st.free || (Used(M, f) && !Used(M - {p}, f)) {
      if Used(M, f) && f != M[p].frame {
        var q :| q in M && M[q].frame == f;
        assert q in M - {p} && (M - {p})[q].frame == f;
      }
      assert Used(M, M[p].frame);
    }
  }

  lemma {:induction false} FreedNone(M: Mapping, free: set<nat>)
    ensures Freed(M, M, free, free)
  {
  }

  /** Unmapping step by step frees what unmapping at once frees. */
  lemma {:induction false} FreedTwice(M: Mapping, M1: Mapping, M2: Mapping, a: set<nat>, b: set<nat>, c: set<nat>)
    requires Freed(M, M1, a, b) && Freed(M1, M2, b, c)
    requires forall p | p in M1 :: p in M && M1[p] == M[p]
    requires forall p | p in M2 :: p in M1 && M2[p] == M1[p]
    ensures Freed(M, M2, a, c)
  {
    forall f ensures f in c <==> f in a || (Used(M, f) && !Used(M2, f)) {
      if Used(M1, f) { var p :| p in M1 && M1[p].frame == f; assert p in M && M[p].frame == f; }
      if Used(M2, f) { var p :| p in M2 && M2[p].frame == f; assert p in M1 && M1[p].frame == f; }
    }
  }

  class AddressSpace {
    var pgdir: seq<Pde>
    var tables: map<nat, seq<Pte>>
    var ref: map<nat, nat>
    var free: set<nat>
    ghost var M: Mapping

    function View(): State
      reads this
    {
      State(pgdir, tables, ref, free)
    }

    ghost predicate Valid()
      reads this
    {
      |pgdir| == ENTRIES && Inv(View(), M)
    }

    method SetState(st: State)
      modifies `pgdir, `tables, `ref, `free
      ensures View() == st
    {
      pgdir, tables, ref, free := st.pgdir, st.tables, st.ref, st.free;
    }

    /** An empty directory; frames that are neither free nor tables belong to callers. */
    constructor (free: set<nat>)
      ensures Valid() && M == map[] && this.free == free
    {
      pgdir, tables, ref, this.free, M := seq(ENTRIES, _ => Absent), map[], map[], free, map[];
      new;
      assert forall d: nat | d < ENTRIES :: TableAt(View(), d);
      forall f: nat | f !in free ensures Count(M, f, 0) { assert Users(M, f) == {}; }
    }

    /** get_pte: whether the word for page `p` is there. With `create` a missing table is made, unless no frame is free. */
    method GetPte(p: nat, create: bool) returns (ok: bool)
      requires Valid() && p < VPAGES
      modifies this
      ensures Valid() && M == old(M)
      ensures ok ==> HasTable(View(), p)
      ensures ok <==> old(pgdir)[p / ENTRIES].Present? || (create && old(free) != {})
      ensures !ok || old(pgdir)[p / ENTRIES].Present? ==> View() == old(View())
      ensures ok && old(pgdir)[p / ENTRIES].Absent? ==> exists t :: t in old(free) && View() == NewTable(old(View()), p / ENTRIES, t)
    {
      hide Refines, Frames;
      assert TableAt(View(), p / ENTRIES);
      if pgdir[p / ENTRIES].Present? { return true; }
      if !create { return false; }
      if free == {} { return false; }
      var t :| t in free;
      NewTableKeepsInv(View(), M, p / ENTRIES, t);
      SetState(NewTable(View(), p / ENTRIES, t));
      ok := true;
    }

    /** page_remove_pte of page `p`, whose word is there. */
    method RemovePte(p: nat)
      requires Valid() && HasTable(View(), p)
      modifies this
      ensures Valid() && M == old(M) - {p} && Freed(old(M), M, old(free), free) && pgdir == old(pgdir) && tables.Keys == old(tables).Keys
    {
      hide Frames, Tables, Freed, Inv;
      ghost var st := View();
      LookIs(st, M, p);
      var v := tables[pgdir[p / ENTRIES].frame][p % ENTRIES];
      if v.Some? {
        UnmapKeepsInv(View(), M, p);
        SetState(Put(Drop(View(), v.e.frame), p, None));
        FreedOne(st, M, p, free);
      } else {
        FreedNone(M, free);
        assert M - {p} == M;
      }
      M := M - {p};
    }

    /** page_remove */
    method Remove(p: nat)
      requires Valid() && p < VPAGES
      modifies this
      ensures Valid() && M == old(M) - {p} && Freed(old(M), M, old(free), free)
    {
      hide Frames, Tables, Freed;
      FreedNone(M, free);
      var ok := GetPte(p, false);
      if ok { RemovePte(p); }
      else {
        NotMapped(View(), M, p);
        assert M - {p} == M;
      }
    }

    /** page_insert of frame `f`, which the caller holds: one page is mapped, or nothing has changed. */
    method Insert(f: nat, p: nat, perm: nat) returns (ok: bool)
      requires Valid() && p < VPAGES && f !in free && f !in tables
      modifies this
      ensures Valid() && (ok <==> old(pgdir)[p / ENTRIES].Present? || old(free) != {})
      ensures !ok ==> View() == old(View()) && M == old(M)
      ensures ok ==> M == old(M)[p := Entry(f, perm)]
      ensures ok ==> forall x :: x in free <==> (x in old(free) && x !in tables) || (Used(old(M), x) && !Used(M, x))
      ensures tables.Keys >= old(tables).Keys
    {
      hide Frames, Tables, Inv, Used;
      ok := GetPte(p, true);
      if !ok { return; }
      FreeIsNoTable(View(), M);
      ghost var free1 := free;
      assert forall x :: x in free1 <==> x in old(free) && x !in tables;
      LookIs(View(), M, p);
      var v := tables[pgdir[p / ENTRIES].frame][p % ENTRIES];
      if v.Some? && v.e.frame == f {
        RemapKeepsInv(View(), M, p, perm);
        SameFrames(M, p, Entry(f, perm));
        SetState(Put(View(), p, Some(Entry(f, perm))));
      } else {
        if v.Some? {
          NotFreed(M, p, f);
          RemovePte(p);
          StillThere(View(), M, p);
        }
        assert Freed(old(M), M, free1, free) by { if v.None? { FreedNone(M, free); } }
        OneMoreUser(old(M), M, p, Entry(f, perm));
        assert forall x :: x in free <==> x in free1 || (Used(old(M), x) && !Used(M[p := Entry(f, perm)], x));
        MapKeepsInv(View(), M, p, f, perm);
        SetState(Put(Hold(View(), f), p, Some(Entry(f, perm))));
      }
      M := M[p := Entry(f, perm)];
    }

    /** pgdir_alloc_page: a free frame is mapped, for which a second one may be needed as a table, or nothing has changed. */
    method AllocPage(p: nat, perm: nat) returns (ok: bool, f: nat)
      requires Valid() && p < VPAGES
      modifies this
      ensures Valid() && (ok <==> |old(free)| >= if old(pgdir)[p / ENTRIES].Present? then 1 else 2)
      ensures !ok ==> View() == old(View()) && M == old(M)
      ensures ok ==> f in old(free) && M == old(M)[p := Entry(f, perm)]
      ensures ok ==> forall x :: x in free <==> (x in old(free) && x != f && x !in tables) || (Used(old(M), x) && !Used(M, x))
      ensures tables.Keys >= old(tables).Keys
    {
      hide Inv, Used;
      f := 0;
      ok := free != {};
      if !ok { return; }
      f :| f in free;
      TakeKeepsInv(View(), M, f);
      OneLess(free, f);
      SetState(Take(View(), f));
      ok := Insert(f, p, perm);
      if !ok { SetState(View().(free := free + {f})); }
    }

    /** The end of do_pgfault, for a page that an area allows: a page that is not mapped gets a frame. A failure
        can leave a table behind, but no mapping changes. */
    method Fault(p: nat, perm: nat) returns (ok: bool)
      requires Valid() && p < VPAGES
      modifies this
      ensures Valid() && (ok <==> p in old(M) || |old(free)| >= if old(pgdir)[p / ENTRIES].Present? then 1 else 2)
      ensures p in old(M) ==> View() == old(View()) && M == old(M)
      ensures ok && p !in old(M) ==> p in M && M[p].frame in old(free) && M == old(M)[p := Entry(M[p].frame, perm)]
      ensures ok && p !in old(M) ==> forall x :: x in free <==> x in old(free) && x != M[p].frame && x !in tables
      ensures !ok ==> M == old(M) && if old(free) == {} then View() == old(View())
        else exists t :: old(free) == {t} && View() == NewTable(old(View()), p / ENTRIES, t)
    {
      hide Inv, Used;
      if pgdir[p / ENTRIES].Absent? { NotMapped(View(), M, p); }
      ok := GetPte(p, true);
      if ok {
        LookIs(View(), M, p);
        if tables[pgdir[p / ENTRIES].frame][p % ENTRIES].None? {
          if t :| t in old(free) && View() == NewTable(old(View()), p / ENTRIES, t) { OneLess(old(free), t); }
          var f;
          ok, f := AllocPage(p, perm);
          if ok { UsedStill(old(M), p, Entry(f, perm)); }
        }
      }
    }

    /** unmap_range: exactly the pages in range lose their mapping, although missing tables are skipped as a whole. */
    method UnmapRange(start: nat, end: nat)
      requires Valid() && USER_LOW <= start < end <= USER_HIGH
      modifies this
      ensures Valid() && M == Outside(old(M), start, end) && Freed(old(M), M, old(free), free)
      ensures pgdir == old(pgdir) && tables.Keys == old(tables).Keys
    {
      hide Inv, Freed, Outside;
      var s := start;
      FreedNone(M, free);
      OutsideNothing(M, start);
      while s < end
        invariant start <= s && Valid() && M == Outside(old(M), start, if s < end then s else end) && Freed(old(M), M, old(free), free)
        invariant pgdir == old(pgdir) && tables.Keys == old(tables).Keys
        decreases end - s
      {
        ghost var was, freeWas := M, free;
        var ok := GetPte(s, false);
        if !ok {
          ghost var s' := (s + ENTRIES) / ENTRIES * ENTRIES;
          SkipTable(View(), M, old(M), start, s, end);
          s := (s + ENTRIES) / ENTRIES * ENTRIES;
        } else {
          RemovePte(s);
          OutsideOneMore(old(M), was, start, s);
          OutsideSmaller(old(M), was, M, start, s);
          FreedTwice(old(M), was, M, old(free), freeWas, free);
          s := s + 1;
        }
      }
    }

    /** exit_range: the tables of the directory entries that the range meets are freed; nothing may be mapped there. */
    method ExitRange(start: nat, end: nat)
      requires Valid() && USER_LOW <= start < end <= USER_HIGH
      requires forall p | p in M :: !(start / ENTRIES <= p / ENTRIES && p / ENTRIES * ENTRIES < end)
      modifies this
      ensures Valid() && M == old(M)
      ensures forall d: nat | d < ENTRIES :: pgdir[d] == if start / ENTRIES <= d && d * ENTRIES < end then Absent else old(pgdir)[d]
      ensures forall f :: f in free <==> f in old(free) || (f in old(tables) && f !in tables)
      ensures tables.Keys <= old(tables).Keys
    {
      hide Inv;
      var s := start / ENTRIES * ENTRIES;
      while s < end
        invariant start / ENTRIES * ENTRIES <= s && s % ENTRIES == 0 && s / ENTRIES <= ENTRIES && Valid() && M == old(M)
        invariant s < end + ENTRIES
        invariant forall d: nat | d < ENTRIES :: pgdir[d] == if start / ENTRIES <= d < s / ENTRIES then Absent else old(pgdir)[d]
        invariant forall f :: f in free <==> f in old(free) || (f in old(tables) && f !in tables)
        invariant tables.Keys <= old(tables).Keys
        decreases end - s
      {
        var d := s / ENTRIES;
        if pgdir[d].Present? {
          TableThere(View(), M, d);
          DropTableKeepsInv(View(), M, d);
          SetState(DropTable(View(), d));
        }
        s := s + ENTRIES;
      }
      forall d: nat | d < ENTRIES ensures d < s / ENTRIES <==> d * ENTRIES < end { Multiple(d, s, end); }
    }

    /** The first loop of exit_mmap, over the areas of the process, given in pages. */
    method UnmapAll(areas: seq<Area>)
      requires Valid() && UserAreas(areas) && forall p | p in M :: InAreas(areas, |areas|, p)
      modifies this
      ensures Valid() && M == map[] && Freed(old(M), M, old(free), free) && pgdir == old(pgdir) && tables.Keys == old(tables).Keys
    {
      hide Inv, Freed, InAreas;
      FreedNone(M, free);
      NoAreas(areas, M);
      var k := 0;
      while k < |areas|
        invariant 0 <= k <= |areas| && Valid() && Remains(old(M), M, areas, k) && Freed(old(M), M, old(free), free)
        invariant pgdir == old(pgdir) && tables.Keys == old(tables).Keys
      {
        ghost var was, freeWas := M, free;
        UnmapRange(areas[k].start, areas[k].end);
        OneAreaLess(old(M), was, M, areas, k);
        FreedTwice(old(M), was, M, old(free), freeWas, free);
        k := k + 1;
      }
      assert M == map[];
    }

    /** The second loop of exit_mmap. */
    method ExitAll(areas: seq<Area>)
      requires Valid() && UserAreas(areas) && M == map[]
      modifies this
      ensures Valid() && M == map[]
      ensures forall d: nat | d < ENTRIES :: pgdir[d] == if Meets(areas, |areas|, d) then Absent else old(pgdir)[d]
      ensures forall f :: f in free <==> f in old(free) || (f in old(tables) && f !in tables)
      ensures tables.Keys <= old(tables).Keys
    {
      hide Inv;
      var k := 0;
      while k < |areas|
        invariant 0 <= k <= |areas| && Valid() && M == map[]
        invariant forall d: nat | d < ENTRIES :: pgdir[d] == if Meets(areas, k, d) then Absent else old(pgdir)[d]
        invariant forall f :: f in free <==> f in old(free) || (f in old(tables) && f !in tables)
        invariant tables.Keys <= old(tables).Keys
      {
        ExitRange(areas[k].start, areas[k].end);
        forall d: nat ensures Meets(areas, k + 1, d) <==> Meets(areas, k, d) || MeetsArea(areas[k], d) { }
        k := k + 1;
      }
    }

    /** exit_mmap of a process whose pages all lie in its areas: every data frame, and every table that an area meets,
        is free again. If each table was made for an area, nothing is left. */
    method ExitMmap(areas: seq<Area>)
      requires Valid() && UserAreas(areas) && forall p | p in M :: InAreas(areas, |areas|, p)
      modifies this
      ensures Valid() && M == map[]
      ensures forall f :: f in free <==> f in old(free) || Used(old(M), f) || (f in old(tables) && f !in tables)
      ensures forall d: nat | d < ENTRIES :: pgdir[d] == if Meets(areas, |areas|, d) then Absent else old(pgdir)[d]
      ensures (forall d: nat | d < ENTRIES && old(pgdir)[d].Present? :: Meets(areas, |areas|, d)) ==> tables.Keys == {}
      ensures forall d: nat | d < ENTRIES && Meets(areas, |areas|, d) && old(pgdir)[d].Present? :: old(pgdir)[d].frame in free
    {
      hide Inv;
      ghost var was, map0 := View(), M;
      UnmapAll(areas);
      ExitAll(areas);
      forall d: nat | d < ENTRIES && Meets(areas, |areas|, d) && was.pgdir[d].Present? ensures was.pgdir[d].frame in free {
        TableGone(was, map0, View(), M, d);
      }
      if forall d: nat | d < ENTRIES && old(pgdir)[d].Present? :: Meets(areas, |areas|, d) { NoTablesLeft(View(), M); }
    }
  }

  /** Mapping a page that was not mapped takes no frame out of use. */
  lemma {:induction false} UsedStill(M: Mapping, p: nat, e: Entry)
    requires p !in M
    ensures forall x | Used(M, x) :: Used(M[p := e], x)
  {
    forall x | Used(M, x) ensures Used(M[p := e], x) {
      var q :| q in M && M[q].frame == x;
      assert q in M[p := e] && M[p := e][q].frame == x;
    }
  }

  lemma {:induction false} OneLess(s: set<nat>, x: nat)
    requires x in s
    ensures |s - {x}| == |s| - 1 && s - {x} + {x} == s
  {
  }

  /** The pages of an area. */
  datatype Area = Area(start: nat, end: nat)

  predicate UserAreas(areas: seq<Area>) {
    forall k | 0 <= k < |areas| :: USER_LOW <= areas[k].start < areas[k].end <= USER_HIGH
  }

  /** Page `p` lies in one of the first `k` areas. */
  ghost predicate InAreas(areas: seq<Area>, k: nat, p: nat) {
    exists j: nat :: j < k && j < |areas| && areas[j].start <= p < areas[j].end
  }

  predicate MeetsArea(a: Area, d: nat) { a.start / ENTRIES <= d && d * ENTRIES < a.end }

  /** The pages of directory entry `d` meet one of the first `k` areas. */
  ghost predicate Meets(areas: seq<Area>, k: nat, d: nat) {
    exists j: nat :: j < k && j < |areas| && MeetsArea(areas[j], d)
  }

  ghost predicate Remains(M0: Mapping, M: Mapping, areas: seq<Area>, k: nat) {
    (forall p | p in M :: p in M0 && M[p] == M0[p]) && forall p | p in M0 :: p in M <==> !InAreas(areas, k, p)
  }

  lemma {:induction false} NoAreas(areas: seq<Area>, M: Mapping)
    ensures Remains(M, M, areas, 0)
  {
  }

  lemma {:induction false} OneAreaLess(M0: Mapping, M: Mapping, M1: Mapping, areas: seq<Area>, k: nat)
    requires k < |areas| && Remains(M0, M, areas, k) && M1 == Outside(M, areas[k].start, areas[k].end)
    ensures Remains(M0, M1, areas, k + 1)
    ensures forall p | p in M1 :: p in M && M1[p] == M[p]
  {
    forall p: nat ensures InAreas(areas, k + 1, p) <==> InAreas(areas, k, p) || areas[k].start <= p < areas[k].end { }
  }

  /** The table of a directory entry that has been cleared is no longer one, since it was the table of no other entry. */
  lemma {:induction false} TableGone(st0: State, M0: Mapping, st: State, M: Mapping, d: nat)
    requires Inv(st0, M0) && Inv(st, M) && |st0.pgdir| == |st.pgdir| == ENTRIES && d < ENTRIES && st0.pgdir[d].Present? && st.pgdir[d].Absent?
    requires forall e: nat | e < ENTRIES :: st.pgdir[e].Absent? || st.pgdir[e] == st0.pgdir[e]
    ensures st0.pgdir[d].frame in st0.tables && st0.pgdir[d].frame !in st.tables
  {
    hide Frames, Refines;
    TableThere(st0, M0, d);
    var f := st0.pgdir[d].frame;
    assert f in st.tables ==> UsedAt(st, f);
  }

  lemma {:induction false} NoTablesLeft(st: State, M: Mapping)
    requires Inv(st, M) && |st.pgdir| == ENTRIES && forall d: nat | d < ENTRIES :: st.pgdir[d].Absent?
    ensures st.tables.Keys == {}
  {
    assert forall t | t in st.tables :: UsedAt(st, t);
  }

  lemma {:induction false} Multiple(d: nat, s: nat, end: nat)
    requires s % ENTRIES == 0 && end <= s < end + ENTRIES
    ensures d < s / ENTRIES <==> d * ENTRIES < end
  {
  }

  lemma {:induction false} TableThere(st: State, M: Mapping, d: nat)
    requires Inv(st, M) && |st.pgdir| == ENTRIES && d < ENTRIES && st.pgdir[d].Present?
    ensures st.pgdir[d].frame in st.tables
  {
    assert TableAt(st, d);
  }

  lemma {:induction false} OutsideNothing(M: Mapping, start: nat)
    ensures Outside(M, start, start) == M
  {
  }

  /** Where there is no table, nothing is mapped up to the end of what the table would cover. */
  lemma {:induction false} SkipTable(st: State, M: Mapping, M0: Mapping, start: nat, s: nat, end: nat)
    requires Inv(st, M) && |st.pgdir| == ENTRIES && s < end <= USER_HIGH && start <= s && M == Outside(M0, start, s) && st.pgdir[s / ENTRIES].Absent?
    ensures var s' := (s + ENTRIES) / ENTRIES * ENTRIES;
      M == Outside(M0, start, if s' < end then s' else end)
  {
    forall p: nat | p < VPAGES && p / ENTRIES == s / ENTRIES ensures p !in M { NotMapped(st, M, p); }
  }

  lemma {:induction false} OutsideOneMore(M0: Mapping, M: Mapping, start: nat, s: nat)
    requires M == Outside(M0, start, s) && start <= s
    ensures M - {s} == Outside(M0, start, s + 1)
  {
  }

  lemma {:induction false} OutsideSmaller(M0: Mapping, M: Mapping, M1: Mapping, start: nat, s: nat)
    requires M == Outside(M0, start, s) && M1 == M - {s}
    ensures forall p | p in M :: p in M0 && M[p] == M0[p]
    ensures forall p | p in M1 :: p in M && M1[p] == M[p]
  {
  }

  lemma {:induction false} LookIs(st: State, M: Mapping, p: nat)
    requires Inv(st, M) && HasTable(st, p)
    ensures st.tables[st.pgdir[p / ENTRIES].frame][p % ENTRIES] == if p in M then Some(M[p]) else None
  {
    assert Look(st.pgdir, st.tables, p) == if p in M then Some(M[p]) else None;
  }

  /** Unmapping another frame's page does not free `f`. */
  lemma {:induction false} NotFreed(M: Mapping, p: nat, f: nat)
    requires p in M && M[p].frame != f
    ensures Used(M, f) ==> Used(M - {p}, f)
  {
    if Used(M, f) {
      var q :| q in M && M[q].frame == f;
      assert q in M - {p} && (M - {p})[q].frame == f;
    }
  }

  lemma {:induction false} FreeIsNoTable(st: State, M: Mapping)
    requires Inv(st, M)
    ensures forall t | t in st.tables :: t !in st.free
  {
  }

  /** A new permission frees nothing. */
  lemma {:induction false} SameFrames(M: Mapping, p: nat, e: Entry)
    requires p in M && M[p].frame == e.frame
    ensures forall x :: Used(M[p := e], x) <==> Used(M, x)
  {
    var M' := M[p := e];
    forall x ensures Used(M', x) <==> Used(M, x) {
      if q :| q in M && M[q].frame == x { assert q in M' && M'[q].frame == x; }
      if q :| q in M' && M'[q].frame == x { assert q in M && M[q].frame == x; }
    }
  }

  /** Mapping a frame that is in use if it was before frees nothing. */
  lemma {:induction false} OneMoreUser(M: Mapping, M1: Mapping, p: nat, e: Entry)
    requires p !in M1 && (Used(M, e.frame) ==> Used(M1, e.frame))
    ensures forall x :: Used(M, x) && !Used(M1, x) <==> Used(M, x) && !Used(M1[p := e], x)
  {
    var M' := M1[p := e];
    forall x ensures Used(M', x) <==> Used(M1, x) || x == e.frame {
      assert p in M' && M'[p].frame == e.frame;
      if q :| q in M1 && M1[q].frame == x { assert q in M' && M'[q].frame == x; }
      if q :| q in M' && M'[q].frame == x { assert q != p ==> q in M1 && M1[q].frame == x; }
    }
  }

  lemma {:induction false} StillThere(st: State, M: Mapping, p: nat)
    requires Inv(st, M) && p < VPAGES && |st.pgdir| == ENTRIES && st.pgdir[p / ENTRIES].Present?
    ensures HasTable(st, p)
  {
    assert TableAt(st, p / ENTRIES);
  }

  lemma {:induction false} NotMapped(st: State, M: Mapping, p: nat)
    requires Inv(st, M) && p < VPAGES && |st.pgdir| == ENTRIES && st.pgdir[p / ENTRIES].Absent?
    ensures p !in M
  {
    assert Look(st.pgdir, st.tables, p) == None;
  }
}
