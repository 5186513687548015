/** kmalloc and kfree over the page allocator (mm/kmalloc.c lines 290-484). */
module Slabs {
  import opened SlabShape
  import opened SlabState
  import opened FirstFit
  import SlabInit

  /** The page and the index that kmem_cache_free works out lead back to the object. */
  lemma {:induction false} Located(st: State, g: Shadow, o: Obj)
    requires Inv(st, g, {}) && Allocated(st, g, o)
    ensures var k := Geometry(st.slabs[o.base].cache);
      && Address(st, o) / PGSIZE in st.home && st.home[Address(st, o) / PGSIZE] == o.base
      && Address(st, o) >= o.base * PGSIZE + k.offset && k.objsize > 0
      && (Address(st, o) - o.base * PGSIZE - k.offset) / k.objsize == o.i
  {
    hide Geometry, Chain, Inv, MgmtSize;
    ObjectInSlab(st, g, {}, o);
    var k := Geometry(st.slabs[o.base].cache);
    CacheOf(st, g, o.base);
    GeometryFits(st.slabs[o.base].cache);
    PageOfSlab(st, g, o.base, Address(st, o) / PGSIZE);
    Quotient(o.i, k.objsize);
  }

  lemma {:induction false} CacheOf(st: State, g: Shadow, b: nat)
    requires Inv(st, g, {}) && b in st.slabs
    ensures st.slabs[b].cache < CACHES
  {
    hide Geometry, Chain;
    assert SlabInv(st, g, b);
  }

  /** list_init for `n` caches. */
  function NoLists(n: nat): (r: map<nat, seq<nat>>)
    ensures forall c: nat :: c in r <==> c < n
    ensures forall c: nat | c in r :: r[c] == []
  {
    if n == 0 then map[] else NoLists(n - 1)[n - 1 := []]
  }

  lemma {:induction false} Quotient(i: nat, n: nat)
    requires n > 0
    ensures i * n / n == i
  {
    var q := i * n / n;
    assert i * n == q * n + i * n % n;
    if i < q { Steps(i, q, n); }
    if q < i { Steps(q, i, n); }
  }

  lemma {:induction false} PageOfSlab(st: State, g: Shadow, b: nat, p: nat)
    requires Inv(st, g, {}) && b in st.slabs && b <= p < b + Geometry(st.slabs[b].cache).pages
    ensures p in st.home && st.home[p] == b
  {
    hide Geometry, Chain;
    assert SlabInv(st, g, b);
  }

  // ---------- When there is an object ----------

  ghost predicate HasRun(free: set<nat>, n: nat) { exists b: nat :: Range(b, n) <= free }

  /** Cache `c` can have a new slab: there are pages for it in a row, and, if its control block goes elsewhere, the cache for
      that has an object or can have a page of those that are left. */
  ghost predicate CanGrow(st: State, free: set<nat>, c: nat)
    requires c in st.notfull && Geometry(c).ctl in st.notfull
  {
    HasRun(free, Geometry(c).pages) && (Geometry(c).off ==> st.notfull[Geometry(c).ctl] != [] || |free| > Geometry(c).pages)
  }

  ghost predicate CanAlloc(st: State, free: set<nat>, c: nat)
    requires c in st.notfull && Geometry(c).ctl in st.notfull
  {
    st.notfull[c] != [] || CanGrow(st, free, c)
  }

  /** Cache `c` has the smallest objects that are large enough. */
  predicate IsFor(c: nat, size: nat) {
    c < CACHES && size <= Geometry(c).objsize && forall d | 0 <= d < c :: Geometry(d).objsize < size
  }

  lemma {:induction false} CachesThere(st: State, g: Shadow, c: nat)
    requires Inv(st, g, {}) && c < CACHES
    ensures c in st.notfull && Geometry(c).ctl in st.notfull
  {
    hide Chain;
    ListsThere(st, g, c);
    ListsThere(st, g, Geometry(c).ctl);
  }

  lemma {:induction false} CtlThere(st: State, g: Shadow, c: nat)
    requires Inv(st, g, {}) && c < CACHES
    ensures Geometry(c).ctl < CACHES && Geometry(Geometry(c).ctl).ctl in st.notfull
  {
    CachesThere(st, g, Geometry(c).ctl);
  }

  lemma {:induction false} OnePage(free: set<nat>)
    ensures HasRun(free, 1) <==> free != {}
  {
    if p :| p in free { assert Range(p, 1) <= free; }
    if HasRun(free, 1) {
      var b: nat :| Range(b, 1) <= free;
      assert b in Range(b, 1);
    }
  }

  /** Once the pages `r` for the slab are taken, the control block can be had exactly if that was said before. */
  lemma {:induction false} ControlLater(st: State, g: Shadow, free: set<nat>, page: nat, c: nat)
    requires Inv(st, g, {}) && c < CACHES && Range(page, Geometry(c).pages) <= free && Geometry(c).off
    ensures c in st.notfull && Geometry(c).ctl < CACHES && Geometry(c).ctl in st.notfull && Geometry(Geometry(c).ctl).ctl in st.notfull
    ensures CanGrow(st, free, c) <==> CanAlloc(st, free - Range(page, Geometry(c).pages), Geometry(c).ctl)
  {
    CachesThere(st, g, c);
    GeometryFits(c);
    CachesThere(st, g, Geometry(c).ctl);
    InsideIsOnePage(Geometry(c).ctl);
    hide Geometry, Inv;
    var r := Range(page, Geometry(c).pages);
    RangeSize(page, Geometry(c).pages);
    OnePage(free - r);
    Rest(free, r);
  }

  /** A slab that holds its own control block is one page. */
  lemma {:induction false} InsideIsOnePage(c: nat)
    requires c < CACHES && !Geometry(c).off
    ensures Geometry(c).pages == 1
  {
  }

  lemma {:induction false} Rest(free: set<nat>, r: set<nat>)
    requires r <= free
    ensures |free| > |r| <==> free - r != {}
  {
    assert |free - r| == |free| - |r|;
  }

  /** An allocator without slabs. */
  lemma {:induction false} NothingYet()
    ensures var st, g := State(map[], NoLists(CACHES), NoLists(CACHES), map[]), Shadow(map[], map[]);
      Inv(st, g, {}) && forall o :: !Held(st, g, o)
  {
    var st := State(map[], NoLists(CACHES), NoLists(CACHES), map[]);
    forall c | 0 <= c < CACHES ensures ListInv(st, c) { assert st.full[c] == [] && st.notfull[c] == []; }
  }

  class SlabAllocator {
    const pages: PageAllocator
    var slabs: map<nat, Slab>
    var full: map<nat, seq<nat>>
    var notfull: map<nat, seq<nat>>
    var home: map<nat, nat>
    ghost var shadow: Shadow

    function View(): State
      reads this
    {
      State(slabs, full, notfull, home)
    }

    /** The free pages and the pages of slabs. */
    ghost function Pool(): set<nat>
      reads this, pages
    {
      pages.free + home.Keys
    }

    ghost predicate ValidBut(idle: set<nat>)
      reads this, pages
    {
      pages.Valid() && Inv(View(), shadow, idle) && home.Keys !! pages.free
    }

    ghost predicate Valid()
      reads this, pages
    {
      ValidBut({})
    }

    /** slab_init over a page allocator. */
    constructor (pages: PageAllocator)
      requires pages.Valid()
      ensures Valid() && this.pages == pages && (forall o :: !Held(View(), shadow, o)) && Pool() == pages.free
    {
      this.pages := pages;
      slabs, home := map[], map[];
      full, notfull := NoLists(CACHES), NoLists(CACHES);
      shadow := Shadow(map[], map[]);
      new;
      hide Held, Inv;
      NothingYet();
    }

    /** Nothing at all has changed since a state with these parts. */
    ghost predicate Same(st: State, g: Shadow, list: seq<Run>, nrFree: nat, free: set<nat>)
      reads this, pages
    {
      View() == st && shadow == g && pages.list == list && pages.nrFree == nrFree && pages.free == free
    }

    /** The loop of kmem_cache_grow and the list update; the slab is `idle` until its first object is taken. */
    method InstallSlab(c: nat, page: nat, at: nat, ghost o: Obj)
      requires Valid() && MayInstall(View(), shadow, c, page, at, o) && Range(page, Geometry(c).pages) !! pages.free
      modifies this
      ensures ValidBut({page}) && c in notfull && notfull[c] != [] && notfull[c][0] == page && Pool() == old(Pool()) + Range(page, Geometry(c).pages)
      ensures if Geometry(c).off then HeldLess(old(View()), old(shadow), View(), shadow, o) else SameHeld(old(View()), old(shadow), View(), shadow)
    {
      hide Geometry, Chain, Inv, MayInstall, SameHeld, HeldLess, Install, InstallShadow, Lists, Counts, SlabInv, ListInv;
      InstallKeeps(View(), shadow, c, page, at, o);
      InstalledAt(View(), c, page, at);
      SetState(Install(View(), c, page, at));
      shadow := InstallShadow(shadow, c, page, o);
    }

    method SetState(st: State)
      modifies `slabs, `full, `notfull, `home
      ensures View() == st
    {
      slabs, full, notfull, home := st.slabs, st.full, st.notfull, st.home;
    }

    /** kmem_cache_slabmgmt: the place of the control block of a new slab. */
    method SlabMgmt(c: nat, page: nat) returns (ok: bool, ghost o: Obj, at: nat)
      requires Valid() && c < CACHES && Range(page, Geometry(c).pages) !! Pool()
      modifies this, pages
      ensures Valid() && Pool() == old(Pool())
      ensures !ok ==> Same(old(View()), old(shadow), old(pages.list), old(pages.nrFree), old(pages.free))
      ensures ok ==> MayInstall(View(), shadow, c, page, at, o)
      ensures c in old(notfull) && Geometry(c).ctl in old(notfull) && Geometry(Geometry(c).ctl).ctl in old(notfull)
      ensures ok <==> !Geometry(c).off || CanAlloc(old(View()), old(pages.free), Geometry(c).ctl)
      ensures ok ==> if Geometry(c).off then HeldPlus(old(View()), old(shadow), View(), shadow, o) else SameHeld(old(View()), old(shadow), View(), shadow)
      decreases if Geometry(c).off then 1 else 0, 0
    {
      hide Geometry, Chain, Inv, Held, Lists, Counts, Address, CanAlloc;
      GeometryFits(c);
      CachesThere(View(), shadow, c);
      CtlThere(View(), shadow, c);
      if Geometry(c).off {
        ok, o, at := CacheAlloc(Geometry(c).ctl);
      } else {
        ok, o, at := true, Obj(0, 0), page * PGSIZE;
      }
      assert forall p | p in home :: p !in Range(page, Geometry(c).pages);
    }

    /** kmem_cache_grow once it has pages for the slab. */
    method GrowOn(c: nat, page: nat) returns (ok: bool)
      requires Valid() && c < CACHES && Range(page, Geometry(c).pages) !! Pool()
      modifies this, pages
      ensures ok ==> c in notfull && notfull[c] != [] && ValidBut({notfull[c][0]}) && Pool() == old(Pool()) + Range(page, Geometry(c).pages)
      ensures ok ==> SameHeld(old(View()), old(shadow), View(), shadow)
      ensures !ok ==> Valid() && Same(old(View()), old(shadow), old(pages.list), old(pages.nrFree), old(pages.free))
      ensures c in old(notfull) && Geometry(c).ctl in old(notfull) && Geometry(Geometry(c).ctl).ctl in old(notfull)
      ensures ok <==> !Geometry(c).off || CanAlloc(old(View()), old(pages.free), Geometry(c).ctl)
      decreases if Geometry(c).off then 1 else 0, 1
    {
      hide Geometry, Chain, Inv, SameHeld, HeldPlus, HeldLess, Lists, Counts, Address, MayInstall, CanAlloc;
      var at;
      ghost var o;
      ok, o, at := SlabMgmt(c, page);
      if ok {
        ghost var st, g := View(), shadow;
        InstallSlab(c, page, at, o);
        HeldThere(old(View()), old(shadow), st, g, View(), shadow, o, Geometry(c).off);
      }
    }

    /** kmem_cache_grow: a new slab at the head of the list, or nothing has happened at all. */
    method Grow(c: nat) returns (ok: bool)
      requires Valid() && c < CACHES
      modifies this, pages
      ensures ok ==> c in notfull && notfull[c] != [] && ValidBut({notfull[c][0]})
      ensures ok ==> Pool() == old(Pool()) && SameHeld(old(View()), old(shadow), View(), shadow)
      ensures !ok ==> Valid() && Same(old(View()), old(shadow), old(pages.list), old(pages.nrFree), old(pages.free))
      ensures c in old(notfull) && Geometry(c).ctl in old(notfull) && (ok <==> CanGrow(old(View()), old(pages.free), c))
      decreases if Geometry(c).off then 1 else 0, 2
    {
      hide Geometry, Chain, Inv, SameHeld, Lists, Counts, CanAlloc;
      GeometryFits(c);
      CachesThere(View(), shadow, c);
      var n := Geometry(c).pages;
      var page;
      ok, page := pages.Alloc(n);
      if ok {
        assert pages.free == old(pages.free) - Range(page, n) && Range(page, n) <= old(pages.free);
        if Geometry(c).off { ControlLater(View(), shadow, old(pages.free), page, c); }
        ok := GrowOn(c, page);
        if ok {
          assert old(pages.free) - Range(page, n) + old(home.Keys) + Range(page, n) == old(Pool());
        } else {
          GiveUp(page, n, old(pages.list), old(pages.nrFree), old(pages.free));
        }
      }
    }

    /** The `oops` of kmem_cache_grow: the free list is the very list it was. */
    method GiveUp(page: nat, n: nat, ghost list: seq<Run>, ghost nr: nat, ghost free: set<nat>)
      requires pages.Valid() && n > 0 && Lists(list, free) && Counts(nr, free) && Range(page, n) <= free && pages.free == free - Range(page, n)
      modifies pages
      ensures pages.Valid() && pages.list == list && pages.free == free && pages.nrFree == nr
    {
      hide Lists, Counts;
      pages.Free(page, n);
      assert pages.free == free;
      ListIsUnique(pages.list, list, free);
      CountsOnce(pages.nrFree, nr, free);
    }

    /** kmem_cache_alloc: an object that nobody holds, or nothing has happened at all. */
    method CacheAlloc(c: nat) returns (ok: bool, ghost o: Obj, addr: nat)
      requires Valid() && c < CACHES
      modifies this, pages
      ensures Valid() && Pool() == old(Pool())
      ensures ok ==> o.base in slabs && addr == Address(View(), o) && slabs[o.base].cache == c
      ensures ok ==> HeldPlus(old(View()), old(shadow), View(), shadow, o)
      ensures !ok ==> Same(old(View()), old(shadow), old(pages.list), old(pages.nrFree), old(pages.free))
      ensures c in old(notfull) && Geometry(c).ctl in old(notfull) && (ok <==> CanAlloc(old(View()), old(pages.free), c))
      decreases if Geometry(c).off then 1 else 0, 3
    {
      hide Geometry, Chain, Inv, SameHeld, HeldPlus, Lists, Counts, Address, CanGrow;
      CachesThere(View(), shadow, c);
      if notfull[c] == [] {
        ok := Grow(c);
        if !ok { o, addr := Obj(0, 0), 0; return; }
        ghost var st, g := View(), shadow;
        o, addr := TakeFirst(c, {notfull[c][0]});
        SameThenPlus(old(View()), old(shadow), st, g, View(), shadow, o);
      } else {
        o, addr := TakeFirst(c, {});
      }
      ok := true;
    }

    /** kmem_slab_destroy, but for the control block; `o` is the last object of the slab. */
    method DestroySlab(ghost o: Obj, base: nat)
      requires Valid() && MayGive(View(), shadow, o) && base == o.base && slabs[base].inuse == 1
      modifies this, pages
      ensures Valid() && View() == Destroyed(old(View()), base) && shadow == DestroyedShadow(old(shadow), base) && Pool() == old(Pool())
      ensures HeldSwapped(old(View()), old(shadow), View(), shadow, o)
    {
      hide Geometry, Chain, Inv, HeldSwapped, Held, Destroyed, Lists, Counts;
      ghost var was := View();
      SlabPages(was, shadow, o);
      DestroyKeeps(was, shadow, o);
      HeldFacts(was, shadow, o);
      DestroyedHome(was, base);
      var n := Geometry(slabs[base].cache).pages;
      SetState(Destroyed(View(), base));
      shadow := DestroyedShadow(shadow, base);
      pages.Free(base, n);
    }

    /** kmem_cache_free: exactly this object is free again, and pages and control blocks that are no longer needed. */
    method CacheFree(addr: nat, ghost o: Obj)
      requires Valid() && Held(View(), shadow, o) && addr == Address(View(), o)
      modifies this, pages
      ensures Valid() && Pool() == old(Pool()) && HeldLess(old(View()), old(shadow), View(), shadow, o)
      decreases if Geometry(slabs[o.base].cache).off then 1 else 0
    {
      hide Geometry, Chain, Inv, HeldLess, HeldSwapped, Address, Destroyed, GiveBack, Lists, Counts;
      ghost var was, g := View(), shadow;
      Located(was, g, o);
      HeldFacts(was, g, o);
      var base := home[addr / PGSIZE];
      var k := Geometry(slabs[base].cache);
      var objnr := (addr - base * PGSIZE - k.offset) / k.objsize;
      if slabs[base].inuse > 1 {
        GiveKeeps(was, g, o);
        SetState(GiveBack(View(), Obj(base, objnr)));
        shadow := GiveShadow(g, o);
      } else {
        var at := slabs[base].at;
        if k.off { ControlLeft(was, g, o); }
        DestroySlab(o, base);
        ghost var mid, mg := View(), shadow;
        if k.off { CacheFree(at, g.ctl[base]); }
        SwapThenLess(was, g, mid, mg, View(), shadow, o);
      }
    }

    /** kmalloc: from the cache of the smallest objects that are large enough, which nobody holds; or nothing
        has happened at all. */
    method Kmalloc(size: nat) returns (ok: bool, ghost o: Obj, addr: nat)
      requires Valid() && 0 < size <= 131072
      modifies this, pages
      ensures Valid() && Pool() == old(Pool())
      ensures ok ==> o.base in slabs && addr == Address(View(), o) && HeldPlus(old(View()), old(shadow), View(), shadow, o)
      ensures ok ==> IsFor(slabs[o.base].cache, size)
      ensures !ok ==> Same(old(View()), old(shadow), old(pages.list), old(pages.nrFree), old(pages.free))
      ensures forall c {:trigger IsFor(c, size)} | IsFor(c, size) ::
        c in old(notfull) && Geometry(c).ctl in old(notfull) && (ok <==> CanAlloc(old(View()), old(pages.free), c))
      ensures exists c :: IsFor(c, size)
    {
      hide Geometry, Chain, Inv, HeldPlus, Address, Lists, Counts, CanAlloc;
      var c := SlabInit.GetOrder(size);
      assert IsFor(c, size) && forall d | IsFor(d, size) :: d == c by {
        forall d | IsFor(d, size) ensures d == c { assert d < c || c < d || d == c; }
      }
      ok, o, addr := CacheAlloc(c);
    }

    /** kfree. */
    method Kfree(addr: nat, ghost o: Obj)
      requires Valid() && Held(View(), shadow, o) && addr == Address(View(), o)
      modifies this, pages
      ensures Valid() && Pool() == old(Pool()) && HeldLess(old(View()), old(shadow), View(), shadow, o)
    {
      CacheFree(addr, o);
    }

    /** kmem_cache_alloc_one on the first slab of the list. */
    method TakeFirst(c: nat, ghost idle: set<nat>) returns (ghost o: Obj, addr: nat)
      requires c < CACHES && ValidBut(idle) && c in notfull && notfull[c] != [] && idle <= {notfull[c][0]}
      modifies this
      ensures Valid() && home == old(home) && o.base in slabs && addr == Address(View(), o) && slabs[o.base].cache == c
      ensures HeldPlus(old(View()), old(shadow), View(), shadow, o)
    {
      hide Geometry, Chain, Inv, HeldPlus, Lists, Counts;
      FirstFacts(View(), shadow, idle, c);
      TakeKeeps(View(), shadow, idle, c);
      var b := notfull[c][0];
      o := Obj(b, slabs[b].free);
      addr := b * PGSIZE + Geometry(c).offset + slabs[b].free * Geometry(c).objsize;
      assert idle - {b} == {};
      shadow := TakeShadow(shadow, b);
      SetState(TakeFrom(View(), c));
    }
  }

  lemma {:induction false} SlabPages(st: State, g: Shadow, o: Obj)
    requires MayGive(st, g, o)
    ensures Geometry(st.slabs[o.base].cache).pages > 0 && Range(o.base, Geometry(st.slabs[o.base].cache).pages) <= st.home.Keys
  {
    hide Geometry, Chain;
    HeldFacts(st, g, o);
    GeometryFits(st.slabs[o.base].cache);
    forall p | p in Range(o.base, Geometry(st.slabs[o.base].cache).pages) ensures p in st.home { PageOfSlab(st, g, o.base, p); }
  }

  lemma {:induction false} DestroyedHome(st: State, b: nat)
    requires b in st.slabs && st.slabs[b].cache in st.full && st.slabs[b].cache in st.notfull
    ensures Destroyed(st, b).home.Keys == st.home.Keys - Range(b, Geometry(st.slabs[b].cache).pages)
  {
    hide Geometry, WithoutPages;
  }

  lemma {:induction false} ListsThere(st: State, g: Shadow, c: nat)
    requires Inv(st, g, {}) && c < CACHES
    ensures c in st.notfull && c in st.full
  {
    hide Geometry, Chain;
    assert ListInv(st, c);
  }

  lemma {:induction false} InstalledAt(st: State, c: nat, base: nat, at: nat)
    requires c in st.notfull && Geometry(c).num > 0
    ensures var st' := Install(st, c, base, at);
      c in st'.notfull && st'.notfull[c] != [] && st'.notfull[c][0] == base && st'.home == WithPages(st.home, base, Geometry(c).pages)
  {
  }
}
