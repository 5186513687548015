/** All slabs of the allocator, and what each step does to them (mm/kmalloc.c), as values. */
module SlabState {
  import opened SlabShape

  /** Slabs by their first page; the page numbers in the two lists of each cache; and for each slab page the
      first page of its slab. */
  datatype State = State(slabs: map<nat, Slab>, full: map<nat, seq<nat>>, notfull: map<nat, seq<nat>>, home: map<nat, nat>)

  /** An object: the slab it is in, and its index. */
  datatype Obj = Obj(base: nat, i: nat)

  /** What is not stored anywhere: the chain of free indices of each slab, and the object that holds the
      control block of a slab whose cache keeps it elsewhere. */
  datatype Shadow = Shadow(chain: map<nat, seq<nat>>, ctl: map<nat, Obj>)

  function Address(st: State, o: Obj): nat
    requires o.base in st.slabs
  {
    o.base * PGSIZE + Geometry(st.slabs[o.base].cache).offset + o.i * Geometry(st.slabs[o.base].cache).objsize
  }

  predicate Allocated(st: State, g: Shadow, o: Obj) {
    o.base in st.slabs && o.base in g.chain && o.i < |st.slabs[o.base].bufctl| && o.i !in g.chain[o.base]
  }

  /** The objects that callers of kmalloc hold: all that are allocated and hold no control block. */
  ghost predicate Held(st: State, g: Shadow, o: Obj) {
    Allocated(st, g, o) && forall b | b in g.ctl :: g.ctl[b] != o
  }

  /** Callers hold the same objects, or one more, or one less. */
  ghost predicate SameHeld(st: State, g: Shadow, st': State, g': Shadow) {
    forall x :: Held(st', g', x) <==> Held(st, g, x)
  }

  ghost predicate HeldPlus(st: State, g: Shadow, st': State, g': Shadow, o: Obj) {
    !Held(st, g, o) && forall x :: Held(st', g', x) <==> Held(st, g, x) || x == o
  }

  ghost predicate HeldLess(st: State, g: Shadow, st': State, g': Shadow, o: Obj) {
    HeldPlus(st', g', st, g, o)
  }

  lemma {:induction false} HeldThere(a: State, ag: Shadow, b: State, bg: Shadow, c: State, cg: Shadow, o: Obj, moved: bool)
    requires if moved then HeldPlus(a, ag, b, bg, o) && HeldLess(b, bg, c, cg, o) else SameHeld(a, ag, b, bg) && SameHeld(b, bg, c, cg)
    ensures SameHeld(a, ag, c, cg)
  {
    hide Held;
  }

  lemma {:induction false} SameThenPlus(a: State, ag: Shadow, b: State, bg: Shadow, c: State, cg: Shadow, o: Obj)
    requires SameHeld(a, ag, b, bg) && HeldPlus(b, bg, c, cg, o)
    ensures HeldPlus(a, ag, c, cg, o)
  {
    hide Held;
  }

  /** The pages of slab `b` lead to it. */
  ghost predicate PagesOk(st: State, b: nat)
    requires b in st.slabs
  {
    forall p: nat | b <= p < b + Geometry(st.slabs[b].cache).pages :: p in st.home && st.home[p] == b
  }

  /** The control block of slab `b` is at its beginning or in an object of another cache. */
  ghost predicate ControlOk(st: State, g: Shadow, b: nat)
    requires b in st.slabs
  {
    if Geometry(st.slabs[b].cache).off then
      b in g.ctl && Allocated(st, g, g.ctl[b]) && st.slabs[g.ctl[b].base].cache == Geometry(st.slabs[b].cache).ctl
      && st.slabs[b].at == Address(st, g.ctl[b])
    else b !in g.ctl && st.slabs[b].at == b * PGSIZE
  }

  ghost predicate SlabInv(st: State, g: Shadow, b: nat)
    requires b in st.slabs
  {
    b in g.chain && SlabOk(st.slabs[b], g.chain[b]) && PagesOk(st, b) && ControlOk(st, g, b)
  }

  predicate PageInv(st: State, p: nat)
    requires p in st.home
  {
    st.home[p] in st.slabs && st.home[p] <= p < st.home[p] + Geometry(st.slabs[st.home[p]].cache).pages
  }

  ghost predicate ListInv(st: State, c: nat) {
    && c in st.full && c in st.notfull && Distinct(st.full[c]) && Distinct(st.notfull[c])
    && (forall b :: b in st.full[c] <==> b in st.slabs && st.slabs[b].cache == c && st.slabs[b].inuse == Geometry(c).num)
    && (forall b :: b in st.notfull[c] <==> b in st.slabs && st.slabs[b].cache == c && st.slabs[b].inuse < Geometry(c).num)
  }

  /** Every state between two calls, but that slab `idle` may have no object in use. */
  ghost predicate Inv(st: State, g: Shadow, idle: set<nat>) {
    && g.chain.Keys == st.slabs.Keys && g.ctl.Keys <= st.slabs.Keys
    && (forall b | b in st.slabs :: SlabInv(st, g, b) && (b in idle || st.slabs[b].inuse > 0))
    && (forall p | p in st.home :: PageInv(st, p))
    && (forall c | 0 <= c < CACHES :: ListInv(st, c))
    && forall a, b | a in g.ctl && b in g.ctl && a != b :: g.ctl[a] != g.ctl[b]
  }

  // ---------- Objects do not overlap ----------

  lemma {:induction false} SpanFits(base: nat, offset: nat, num: nat, size: nat, pages: nat, i: nat)
    requires i < num && offset + num * size <= pages * PGSIZE
    ensures base * PGSIZE + offset <= base * PGSIZE + offset + i * size
    ensures base * PGSIZE + offset + i * size + size <= (base + pages) * PGSIZE
  {
    Steps(i, num, size);
  }

  lemma {:induction false} Steps(i: nat, j: nat, size: nat)
    requires i < j
    ensures i * size + size <= j * size
  {
    var k := j - i - 1;
    assert k * size >= 0 && (i + 1 + k) * size == i * size + size + k * size;
  }

  /** An object lies in the pages of its slab, behind the control block if that is there. */
  lemma {:induction false} ObjectInSlab(st: State, g: Shadow, idle: set<nat>, o: Obj)
    requires Inv(st, g, idle) && Allocated(st, g, o)
    ensures var k := Geometry(st.slabs[o.base].cache);
      && o.base * PGSIZE + (if k.off then 0 else MgmtSize(k.num)) <= Address(st, o)
      && Address(st, o) + k.objsize <= (o.base + k.pages) * PGSIZE
  {
    hide Geometry, Chain, Inv, MgmtSize;
    AllocatedFacts(st, g, idle, o);
    var k := Geometry(st.slabs[o.base].cache);
    SpanFits(o.base, k.offset, k.num, k.objsize, k.pages, o.i);
  }

  lemma {:induction false} AllocatedFacts(st: State, g: Shadow, idle: set<nat>, o: Obj)
    requires Inv(st, g, idle) && Allocated(st, g, o)
    ensures var k := Geometry(st.slabs[o.base].cache);
      o.i < k.num && k.offset + k.num * k.objsize <= k.pages * PGSIZE && (!k.off ==> MgmtSize(k.num) <= k.offset)
  {
    hide Geometry, Chain;
    assert SlabInv(st, g, o.base);
    GeometryFits(st.slabs[o.base].cache);
  }

  /** Two allocated objects never share a byte. */
  lemma {:induction false} ObjectsApart(st: State, g: Shadow, idle: set<nat>, a: Obj, b: Obj)
    requires Inv(st, g, idle) && Allocated(st, g, a) && Allocated(st, g, b) && a != b
    ensures var x, y := Address(st, a), Address(st, b);
      x + Geometry(st.slabs[a.base].cache).objsize <= y || y + Geometry(st.slabs[b.base].cache).objsize <= x
  {
    hide Geometry, Chain, Inv, MgmtSize;
    if a.base == b.base {
      if a.i < b.i { Steps(a.i, b.i, Geometry(st.slabs[a.base].cache).objsize); }
      else { Steps(b.i, a.i, Geometry(st.slabs[a.base].cache).objsize); }
    } else {
      SlabsApart(st, g, idle, a.base, b.base);
      ObjectInSlab(st, g, idle, a);
      ObjectInSlab(st, g, idle, b);
    }
  }

  lemma {:induction false} SlabsApart(st: State, g: Shadow, idle: set<nat>, a: nat, b: nat)
    requires Inv(st, g, idle) && a in st.slabs && b in st.slabs && a != b
    ensures var x, y := Geometry(st.slabs[a].cache).pages, Geometry(st.slabs[b].cache).pages;
      a + x <= b || b + y <= a
  {
    hide Geometry, Chain;
    assert SlabInv(st, g, a) && SlabInv(st, g, b);
    GeometryFits(st.slabs[a].cache);
    GeometryFits(st.slabs[b].cache);
    assert a in st.home && st.home[a] == a && b in st.home && st.home[b] == b;
  }

  /** A control block shares no byte with an object that a caller holds. */
  lemma {:induction false} ControlApart(st: State, g: Shadow, idle: set<nat>, b: nat, o: Obj)
    requires Inv(st, g, idle) && b in st.slabs && Held(st, g, o)
    ensures var x, n := st.slabs[b].at, MgmtSize(Geometry(st.slabs[b].cache).num);
      x + n <= Address(st, o) || Address(st, o) + Geometry(st.slabs[o.base].cache).objsize <= x
  {
    hide Chain, Geometry, MgmtSize, Address;
    assert SlabInv(st, g, b);
    GeometryFits(st.slabs[b].cache);
    ObjectInSlab(st, g, idle, o);
    if Geometry(st.slabs[b].cache).off { ObjectsApart(st, g, idle, g.ctl[b], o); }
    else if o.base != b {
      SlabsApart(st, g, idle, b, o.base);
      HeadFits(b, Geometry(st.slabs[b].cache));
    }
  }

  /** So the slab_t, and each word of `bufctl` behind it, lies outside every object that a caller holds. */
  lemma {:induction false} WordsApart(st: State, g: Shadow, idle: set<nat>, b: nat, i: nat, o: Obj)
    requires Inv(st, g, idle) && b in st.slabs && i < |st.slabs[b].bufctl| && Held(st, g, o)
    ensures var word, x, n := st.slabs[b].at + SLAB_T + 4 * i, Address(st, o), Geometry(st.slabs[o.base].cache).objsize;
      (word + 4 <= x || x + n <= word) && (st.slabs[b].at + SLAB_T <= x || x + n <= st.slabs[b].at)
  {
    hide Chain, Geometry, MgmtSize, Address;
    assert SlabInv(st, g, b);
    ControlApart(st, g, idle, b, o);
    MgmtHolds(Geometry(st.slabs[b].cache).num);
  }

  lemma {:induction false} HeadFits(b: nat, k: Cache)
    requires MgmtSize(k.num) <= k.offset && k.offset + k.num * k.objsize <= k.pages * PGSIZE
    ensures b * PGSIZE + MgmtSize(k.num) <= (b + k.pages) * PGSIZE
  {
    assert k.num * k.objsize >= 0;
  }

  /** While there is a slab, some caller holds an object. */
  lemma {:induction false} SomebodyHolds(st: State, g: Shadow, b: nat) returns (o: Obj)
    requires Inv(st, g, {}) && b in st.slabs
    ensures Held(st, g, o)
  {
    hide Chain, Geometry;
    o := InUse(st, g, b);
    if Geometry(st.slabs[b].cache).off { OffNotControl(st, g, b, o); }
    else if c :| c in g.ctl && g.ctl[c] == o {
      assert SlabInv(st, g, c);
      o := InUse(st, g, c);
      OffNotControl(st, g, c, o);
    }
  }

  /** So when every object has been freed no page is kept, not even for control blocks. */
  lemma {:induction false} NothingIsKept(st: State, g: Shadow)
    requires Inv(st, g, {}) && forall o :: !Held(st, g, o)
    ensures st.slabs.Keys == {} && st.home.Keys == {}
  {
    hide Chain, Geometry;
    if st.slabs.Keys != {} {
      var b :| b in st.slabs;
      var o := SomebodyHolds(st, g, b);
    }
    assert forall p | p in st.home :: PageInv(st, p);
  }

  lemma {:induction false} InUse(st: State, g: Shadow, b: nat) returns (o: Obj)
    requires Inv(st, g, {}) && b in st.slabs
    ensures o.base == b && Allocated(st, g, o)
  {
    hide Chain, Geometry;
    assert SlabInv(st, g, b);
    var ch, n := g.chain[b], |st.slabs[b].bufctl|;
    if forall i: nat | i < n :: i in ch { AllInChain(ch, n); }
    var i: nat :| i < n && i !in ch;
    o := Obj(b, i);
  }

  lemma {:induction false} AllInChain(ch: seq<nat>, n: nat)
    requires forall i: nat | i < n :: i in ch
    ensures |ch| >= n
  {
    if n > 0 {
      assert n - 1 in ch;
      var k :| 0 <= k < |ch| && ch[k] == n - 1;
      var rest := ch[..k] + ch[k + 1..];
      forall i: nat | i < n - 1 ensures i in rest {
        assert i in ch;
        var j :| 0 <= j < |ch| && ch[j] == i;
        assert rest[if j < k then j else j - 1] == i;
      }
      AllInChain(rest, n - 1);
    }
  }

  /** Control blocks lie in slabs whose own control block is at home. */
  lemma {:induction false} OffNotControl(st: State, g: Shadow, b: nat, o: Obj)
    requires Inv(st, g, {}) && b in st.slabs && Geometry(st.slabs[b].cache).off && o.base == b && Allocated(st, g, o)
    ensures Held(st, g, o)
  {
    hide Chain, Geometry;
    forall c | c in g.ctl ensures g.ctl[c] != o {
      assert SlabInv(st, g, c);
      GeometryFits(st.slabs[c].cache);
    }
  }

  // ---------- Steps ----------

  /** list_del of the entry of slab `b`. */
  function Without(s: seq<nat>, b: nat): seq<nat> {
    if s == [] then [] else if s[0] == b then s[1..] else [s[0]] + Without(s[1..], b)
  }

  lemma {:induction false} WithoutOne(s: seq<nat>, b: nat)
    requires Distinct(s)
    ensures Distinct(Without(s, b)) && forall x :: x in Without(s, b) <==> x in s && x != b
  {
    if s != [] {
      assert s == [s[0]] + s[1..];
      forall j | 0 <= j < |s[1..]| ensures s[1..][j] != s[0] { assert s[1..][j] == s[j + 1]; }
      WithoutOne(s[1..], b);
      PrependOne(Without(s[1..], b), s[0]);
    }
  }

  lemma {:induction false} PrependOne(s: seq<nat>, b: nat)
    requires Distinct(s)
    ensures b !in s ==> Distinct([b] + s)
    ensures forall x :: x in [b] + s <==> x == b || x in s
  {
  }

  /** SET_PAGE_SLAB on `n` pages from `base` on. */
  function WithPages(home: map<nat, nat>, base: nat, n: nat): (r: map<nat, nat>)
    ensures forall p :: p in r <==> p in home || base <= p < base + n
    ensures forall p | p in r :: r[p] == if base <= p < base + n then base else home[p]
  {
    if n == 0 then home else WithPages(home, base, n - 1)[base + n - 1 := base]
  }

  /** kmem_cache_grow once it has its pages and its control block. */
  function Install(st: State, c: nat, base: nat, at: nat): State
    requires c in st.notfull && Geometry(c).num > 0
  {
    st.(slabs := st.slabs[base := Slab(c, at, 0, 0, FreshBufctl(Geometry(c).num))],
        notfull := st.notfull[c := [base] + st.notfull[c]], home := WithPages(st.home, base, Geometry(c).pages))
  }

  function InstallShadow(g: Shadow, c: nat, base: nat, o: Obj): Shadow {
    Shadow(g.chain[base := From(0, Geometry(c).num)], if Geometry(c).off then g.ctl[base := o] else g.ctl)
  }

  /** When a slab may be installed: its pages are in no slab, and somebody holds the object for its control block. */
  ghost predicate MayInstall(st: State, g: Shadow, c: nat, base: nat, at: nat, o: Obj) {
    && c < CACHES && (forall p: nat | base <= p < base + Geometry(c).pages :: p !in st.home)
    && if Geometry(c).off then Held(st, g, o) && st.slabs[o.base].cache == Geometry(c).ctl && at == Address(st, o) else at == base * PGSIZE
  }

  lemma {:induction false} FirstPage(st: State, g: Shadow, b: nat)
    requires b in st.slabs && SlabInv(st, g, b)
    ensures b in st.home
  {
    hide Geometry, Chain, ControlOk;
    GeometryFits(st.slabs[b].cache);
  }

  lemma {:induction false} FreshBase(st: State, g: Shadow, c: nat, base: nat, at: nat, o: Obj)
    requires Inv(st, g, {}) && MayInstall(st, g, c, base, at, o)
    ensures Geometry(c).num > 0 && c in st.notfull && base !in st.slabs && base !in g.chain && base !in g.ctl
  {
    hide Geometry, Chain, SlabInv, PageInv, Address, Allocated;
    GeometryFits(c);
    assert ListInv(st, c);
    if base in st.slabs { FirstPage(st, g, base); }
  }

  lemma {:induction false} NoneAllocated(c: nat, i: nat)
    requires Geometry(c).num > 0
    ensures i < |FreshBufctl(Geometry(c).num)| ==> i in From(0, Geometry(c).num)
  {
    if i < Geometry(c).num { assert From(0, Geometry(c).num)[i] == i; }
  }

  lemma {:induction false} SameAddress(st: State, st': State, o: Obj)
    requires o.base in st.slabs && o.base in st'.slabs && st'.slabs[o.base].cache == st.slabs[o.base].cache
    ensures Address(st', o) == Address(st, o)
  {
  }

  lemma {:induction false} InstallKeepsControl(st: State, g: Shadow, c: nat, base: nat, at: nat, o: Obj, b: nat)
    requires Inv(st, g, {}) && MayInstall(st, g, c, base, at, o) && Geometry(c).num > 0 && c in st.notfull
    requires b in Install(st, c, base, at).slabs
    ensures ControlOk(Install(st, c, base, at), InstallShadow(g, c, base, o), b)
  {
    hide Geometry, Chain, WithPages, SlabOk, FreshBufctl, Address, From, PagesOk;
    FreshBase(st, g, c, base, at, o);
    var st' := Install(st, c, base, at);
    if b == base {
      if Geometry(c).off { SameAddress(st, st', o); }
    } else {
      assert SlabInv(st, g, b);
      if Geometry(st.slabs[b].cache).off { SameAddress(st, st', g.ctl[b]); }
    }
  }

  lemma {:induction false} InstallKeepsSlab(st: State, g: Shadow, c: nat, base: nat, at: nat, o: Obj, b: nat)
    requires Inv(st, g, {}) && MayInstall(st, g, c, base, at, o) && Geometry(c).num > 0 && c in st.notfull
    requires b in Install(st, c, base, at).slabs
    ensures SlabInv(Install(st, c, base, at), InstallShadow(g, c, base, o), b)
  {
    hide Geometry, Chain, WithPages, SlabOk, FreshBufctl, ControlOk, From;
    FreshBase(st, g, c, base, at, o);
    InstallKeepsControl(st, g, c, base, at, o, b);
    if b == base { FreshSlabOk(c, at); }
    else {
      assert SlabInv(st, g, b);
      forall p: nat | b <= p < b + Geometry(st.slabs[b].cache).pages
        ensures p in Install(st, c, base, at).home && Install(st, c, base, at).home[p] == b
      {
        assert p in st.home && st.home[p] == b;
      }
    }
  }

  lemma {:induction false} InstallKeepsLists(st: State, g: Shadow, c: nat, base: nat, at: nat, o: Obj, d: nat)
    requires Inv(st, g, {}) && MayInstall(st, g, c, base, at, o) && Geometry(c).num > 0 && c in st.notfull && d < CACHES
    ensures ListInv(Install(st, c, base, at), d)
  {
    hide Geometry, Chain;
    FreshBase(st, g, c, base, at, o);
    assert ListInv(st, d) && ListInv(st, c);
    PrependOne(st.notfull[c], base);
  }

  lemma {:induction false} InstallKeeps(st: State, g: Shadow, c: nat, base: nat, at: nat, o: Obj)
    requires Inv(st, g, {}) && MayInstall(st, g, c, base, at, o)
    ensures Geometry(c).num > 0 && c in st.notfull
    ensures Inv(Install(st, c, base, at), InstallShadow(g, c, base, o), {base})
    ensures if Geometry(c).off then HeldLess(st, g, Install(st, c, base, at), InstallShadow(g, c, base, o), o)
            else SameHeld(st, g, Install(st, c, base, at), InstallShadow(g, c, base, o))
  {
    hide Geometry, Chain, WithPages, SlabOk, FreshBufctl, SlabInv, ListInv;
    FreshBase(st, g, c, base, at, o);
    var st', g' := Install(st, c, base, at), InstallShadow(g, c, base, o);
    forall b | b in st'.slabs ensures SlabInv(st', g', b) { InstallKeepsSlab(st, g, c, base, at, o, b); }
    forall d | 0 <= d < CACHES ensures ListInv(st', d) { InstallKeepsLists(st, g, c, base, at, o, d); }
    forall p | p in st'.home ensures PageInv(st', p) { if p in st.home { assert PageInv(st, p); } }
    assert forall b | b in g.ctl :: b in g'.ctl && g'.ctl[b] == g.ctl[b];
    assert Geometry(c).off ==> base in g'.ctl && g'.ctl[base] == o;
    forall x ensures Held(st', g', x) <==> Held(st, g, x) && !(Geometry(c).off && x == o) {
      if x.base == base { NoneAllocated(c, x.i); }
    }
  }

  /** kmem_cache_alloc_one on the first slab of the list; a slab that is full now changes lists. */
  function TakeFrom(st: State, c: nat): State
    requires c in st.notfull && c in st.full && st.notfull[c] != [] && st.notfull[c][0] in st.slabs
    requires st.slabs[st.notfull[c][0]].free < |st.slabs[st.notfull[c][0]].bufctl|
  {
    var b := st.notfull[c][0];
    var s := TakeOne(st.slabs[b]);
    if s.free == BUFCTL_END then
      st.(slabs := st.slabs[b := s], notfull := st.notfull[c := Without(st.notfull[c], b)], full := st.full[c := [b] + st.full[c]])
    else st.(slabs := st.slabs[b := s])
  }

  function TakeShadow(g: Shadow, b: nat): Shadow
    requires b in g.chain && g.chain[b] != []
  {
    g.(chain := g.chain[b := g.chain[b][1..]])
  }

  lemma {:induction false} FirstFacts(st: State, g: Shadow, idle: set<nat>, c: nat)
    requires Inv(st, g, idle) && c < CACHES
    ensures c in st.notfull && c in st.full && Distinct(st.notfull[c]) && Distinct(st.full[c])
    ensures st.notfull[c] != [] ==>
      var b := st.notfull[c][0];
      && b in st.slabs && b in g.chain && SlabOk(st.slabs[b], g.chain[b]) && st.slabs[b].cache == c
      && st.slabs[b].inuse < |st.slabs[b].bufctl| && g.chain[b] != [] && st.slabs[b].free == g.chain[b][0] < |st.slabs[b].bufctl|
      && Obj(b, st.slabs[b].free).i in g.chain[b]
  {
    hide Geometry, Chain;
    assert ListInv(st, c);
    if st.notfull[c] != [] {
      assert st.notfull[c][0] in st.notfull[c];
      assert SlabInv(st, g, st.notfull[c][0]);
      TakeOneOk(st.slabs[st.notfull[c][0]], g.chain[st.notfull[c][0]]);
    }
  }

  ghost predicate MayTake(st: State, g: Shadow, idle: set<nat>, c: nat) {
    Inv(st, g, idle) && c < CACHES && c in st.notfull && c in st.full && st.notfull[c] != [] && st.notfull[c][0] in st.slabs && st.notfull[c][0] in g.chain
    && g.chain[st.notfull[c][0]] != [] && st.slabs[st.notfull[c][0]].free < |st.slabs[st.notfull[c][0]].bufctl|
  }

  /** After a step that only changes which indices of one slab are allocated, everything a slab says about its
      control block stays true. */
  lemma {:induction false} ControlKept(st: State, g: Shadow, st': State, g': Shadow, b: nat)
    requires b in st.slabs && b in st'.slabs && ControlOk(st, g, b)
    requires st'.slabs[b].cache == st.slabs[b].cache && st'.slabs[b].at == st.slabs[b].at
    requires (b in g'.ctl <==> b in g.ctl) && (b in g.ctl ==> g'.ctl[b] == g.ctl[b])
    requires Geometry(st.slabs[b].cache).off && b in g.ctl && g.ctl[b].base in st.slabs ==>
      g.ctl[b].base in st'.slabs && st'.slabs[g.ctl[b].base].cache == st.slabs[g.ctl[b].base].cache && Allocated(st', g', g.ctl[b])
    ensures ControlOk(st', g', b)
  {
    hide Geometry, Address;
    if Geometry(st.slabs[b].cache).off { SameAddress(st, st', g.ctl[b]); }
  }

  lemma {:induction false} TakeKeepsSlab(st: State, g: Shadow, idle: set<nat>, c: nat, x: nat)
    requires MayTake(st, g, idle, c) && x in st.slabs
    ensures SlabInv(TakeFrom(st, c), TakeShadow(g, st.notfull[c][0]), x)
  {
    hide Geometry, Chain, ControlOk, SlabOk;
    FirstFacts(st, g, idle, c);
    var b := st.notfull[c][0];
    var st', g' := TakeFrom(st, c), TakeShadow(g, b);
    TakeOneOk(st.slabs[b], g.chain[b]);
    assert SlabInv(st, g, x);
    assert Geometry(st.slabs[x].cache).off ==> x in g.ctl && Allocated(st, g, g.ctl[x]) by { hide *; ControlFacts(st, g, x); }
    ControlKept(st, g, st', g', x);
  }

  lemma {:induction false} ControlFacts(st: State, g: Shadow, x: nat)
    requires x in st.slabs && ControlOk(st, g, x)
    ensures Geometry(st.slabs[x].cache).off ==> x in g.ctl && Allocated(st, g, g.ctl[x])
  {
  }

  lemma {:induction false} TakeKeepsLists(st: State, g: Shadow, idle: set<nat>, c: nat, d: nat)
    requires MayTake(st, g, idle, c) && d < CACHES
    ensures ListInv(TakeFrom(st, c), d)
  {
    hide Geometry, Chain;
    FirstFacts(st, g, idle, c);
    var b := st.notfull[c][0];
    TakeOneOk(st.slabs[b], g.chain[b]);
    assert ListInv(st, d) && ListInv(st, c);
    WithoutOne(st.notfull[c], b);
    PrependOne(st.full[c], b);
  }

  lemma {:induction false} TakeKeeps(st: State, g: Shadow, idle: set<nat>, c: nat)
    requires MayTake(st, g, idle, c)
    ensures var b := st.notfull[c][0];
      var o := Obj(b, st.slabs[b].free);
      var st', g' := TakeFrom(st, c), TakeShadow(g, b);
      Inv(st', g', idle - {b}) && st'.home == st.home && st'.slabs[b].cache == c && HeldPlus(st, g, st', g', o)
  {
    hide Geometry, Chain, SlabInv, ListInv, SlabOk;
    FirstFacts(st, g, idle, c);
    var b := st.notfull[c][0];
    var st', g' := TakeFrom(st, c), TakeShadow(g, b);
    TakeOneOk(st.slabs[b], g.chain[b]);
    forall x | x in st'.slabs ensures SlabInv(st', g', x) && (x in idle - {b} || st'.slabs[x].inuse > 0) { TakeKeepsSlab(st, g, idle, c, x); }
    forall d | 0 <= d < CACHES ensures ListInv(st', d) { TakeKeepsLists(st, g, idle, c, d); }
    forall p | p in st'.home ensures PageInv(st', p) { assert PageInv(st, p); }
    var o := Obj(b, st.slabs[b].free);
    forall y | y in g.ctl ensures g.ctl[y] != o { ControlAllocated(st, g, idle, y); }
  }

  lemma {:induction false} ControlAllocated(st: State, g: Shadow, idle: set<nat>, y: nat)
    requires Inv(st, g, idle) && y in g.ctl
    ensures Allocated(st, g, g.ctl[y])
  {
    hide Geometry, Chain;
    assert SlabInv(st, g, y);
  }

  /** kmem_cache_free_one of an object that is not the last one in use: a slab that was full changes lists. */
  function GiveBack(st: State, o: Obj): State
    requires o.base in st.slabs && o.i < |st.slabs[o.base].bufctl| && st.slabs[o.base].inuse > 0
    requires st.slabs[o.base].cache in st.full && st.slabs[o.base].cache in st.notfull
  {
    var s := GiveOne(st.slabs[o.base], o.i);
    var c := s.cache;
    if s.inuse == Geometry(c).num - 1 then
      st.(slabs := st.slabs[o.base := s], full := st.full[c := Without(st.full[c], o.base)], notfull := st.notfull[c := [o.base] + st.notfull[c]])
    else st.(slabs := st.slabs[o.base := s])
  }

  function GiveShadow(g: Shadow, o: Obj): Shadow
    requires o.base in g.chain
  {
    g.(chain := g.chain[o.base := [o.i] + g.chain[o.base]])
  }

  ghost predicate MayGive(st: State, g: Shadow, o: Obj) {
    Inv(st, g, {}) && Held(st, g, o) && st.slabs[o.base].inuse > 0 && st.slabs[o.base].cache in st.full && st.slabs[o.base].cache in st.notfull
  }

  lemma {:induction false} HeldFacts(st: State, g: Shadow, o: Obj)
    requires Inv(st, g, {}) && Held(st, g, o)
    ensures o.base in st.slabs && MayGive(st, g, o) && SlabOk(st.slabs[o.base], g.chain[o.base]) && st.slabs[o.base].cache < CACHES
    ensures |st.slabs[o.base].bufctl| == Geometry(st.slabs[o.base].cache).num >= st.slabs[o.base].inuse
  {
    hide Geometry, Chain;
    assert SlabInv(st, g, o.base);
    assert ListInv(st, st.slabs[o.base].cache);
  }

  lemma {:induction false} GiveKeepsSlab(st: State, g: Shadow, o: Obj, x: nat)
    requires MayGive(st, g, o) && x in st.slabs
    ensures SlabInv(GiveBack(st, o), GiveShadow(g, o), x)
  {
    hide Geometry, Chain, ControlOk, SlabOk;
    HeldFacts(st, g, o);
    var st', g' := GiveBack(st, o), GiveShadow(g, o);
    GiveOneOk(st.slabs[o.base], g.chain[o.base], o.i);
    assert SlabInv(st, g, x);
    assert Geometry(st.slabs[x].cache).off ==> x in g.ctl && Allocated(st, g, g.ctl[x]) by { hide *; ControlFacts(st, g, x); }
    ControlKept(st, g, st', g', x);
  }

  lemma {:induction false} GiveKeepsLists(st: State, g: Shadow, o: Obj, d: nat)
    requires MayGive(st, g, o) && d < CACHES
    ensures ListInv(GiveBack(st, o), d)
  {
    hide Geometry, Chain, SlabOk, SlabInv, Without;
    HeldFacts(st, g, o);
    var c := st.slabs[o.base].cache;
    assert ListInv(st, d) && ListInv(st, c);
    hide Inv;
    WithoutOne(st.full[c], o.base);
    PrependOne(st.notfull[c], o.base);
    assert o.base in (if st.slabs[o.base].inuse == Geometry(c).num then st.full[c] else st.notfull[c]);
  }

  lemma {:induction false} GiveKeeps(st: State, g: Shadow, o: Obj)
    requires MayGive(st, g, o) && st.slabs[o.base].inuse > 1
    ensures Inv(GiveBack(st, o), GiveShadow(g, o), {}) && GiveBack(st, o).home == st.home
    ensures HeldLess(st, g, GiveBack(st, o), GiveShadow(g, o), o)
  {
    hide Geometry, Chain, SlabInv, ListInv, SlabOk;
    HeldFacts(st, g, o);
    var st', g' := GiveBack(st, o), GiveShadow(g, o);
    forall x | x in st'.slabs ensures SlabInv(st', g', x) && st'.slabs[x].inuse > 0 { GiveKeepsSlab(st, g, o, x); }
    forall d | 0 <= d < CACHES ensures ListInv(st', d) { GiveKeepsLists(st, g, o, d); }
    forall p | p in st'.home ensures PageInv(st', p) { assert PageInv(st, p); }
  }

  /** kmem_slab_destroy of a slab whose last object has been freed, but for its pages and its control block. */
  function Destroyed(st: State, b: nat): State
    requires b in st.slabs && st.slabs[b].cache in st.full && st.slabs[b].cache in st.notfull
  {
    var c := st.slabs[b].cache;
    State(st.slabs - {b}, st.full[c := Without(st.full[c], b)], st.notfull[c := Without(st.notfull[c], b)], WithoutPages(st.home, b, Geometry(c).pages))
  }

  /** ClearPageSlab on `n` pages from `base` on. */
  function WithoutPages(home: map<nat, nat>, base: nat, n: nat): (r: map<nat, nat>)
    ensures forall p :: p in r <==> p in home && !(base <= p < base + n)
    ensures forall p | p in r :: r[p] == home[p]
  {
    if n == 0 then home else WithoutPages(home, base, n - 1) - {base + n - 1}
  }

  function DestroyedShadow(g: Shadow, b: nat): Shadow { Shadow(g.chain - {b}, g.ctl - {b}) }

  /** Slab `b` is in use by object `o` alone, which a caller holds. So it holds no control block. */
  lemma {:induction false} OnlyOne(st: State, g: Shadow, o: Obj, x: Obj)
    requires MayGive(st, g, o) && st.slabs[o.base].inuse == 1 && Allocated(st, g, x) && x.base == o.base
    ensures x == o
  {
    hide Geometry, Chain;
    HeldFacts(st, g, o);
    if x.i != o.i {
      assert Distinct([o.i] + g.chain[o.base]);
      Pigeons([o.i] + g.chain[o.base], x.i, |st.slabs[o.base].bufctl|);
    }
  }

  lemma {:induction false} DestroyKeepsSlab(st: State, g: Shadow, o: Obj, x: nat)
    requires MayGive(st, g, o) && st.slabs[o.base].inuse == 1 && x in st.slabs && x != o.base
    ensures SlabInv(Destroyed(st, o.base), DestroyedShadow(g, o.base), x)
  {
    hide Geometry, Chain, ControlOk, SlabOk, WithoutPages, Without;
    var st', g' := Destroyed(st, o.base), DestroyedShadow(g, o.base);
    assert SlabInv(st, g, x);
    assert Geometry(st.slabs[x].cache).off ==> x in g.ctl && Allocated(st, g, g.ctl[x]) by { hide *; ControlFacts(st, g, x); }
    if Geometry(st.slabs[x].cache).off && g.ctl[x].base == o.base { OnlyOne(st, g, o, g.ctl[x]); }
    ControlKept(st, g, st', g', x);
    SlabsApart(st, g, {}, x, o.base);
  }

  lemma {:induction false} DestroyKeepsLists(st: State, g: Shadow, o: Obj, d: nat)
    requires MayGive(st, g, o) && d < CACHES
    ensures ListInv(Destroyed(st, o.base), d)
  {
    hide Geometry, Chain, WithoutPages;
    var c := st.slabs[o.base].cache;
    HeldFacts(st, g, o);
    assert ListInv(st, d) && ListInv(st, c);
    WithoutOne(st.full[c], o.base);
    WithoutOne(st.notfull[c], o.base);
  }

  /** What is held when slab `o.base` is gone: its last object is not, and the object of its control block is. */
  ghost predicate HeldSwapped(st: State, g: Shadow, st': State, g': Shadow, o: Obj) {
    Held(st, g, o) && forall x :: Held(st', g', x) <==>
      (Held(st, g, x) && x != o) || (Geometry(st.slabs[o.base].cache).off && o.base in g.ctl && x == g.ctl[o.base])
  }

  lemma {:induction false} DestroyKeeps(st: State, g: Shadow, o: Obj)
    requires MayGive(st, g, o) && st.slabs[o.base].inuse == 1
    ensures Inv(Destroyed(st, o.base), DestroyedShadow(g, o.base), {})
    ensures HeldSwapped(st, g, Destroyed(st, o.base), DestroyedShadow(g, o.base), o)
  {
    hide Geometry, Chain, SlabInv, ListInv, SlabOk, WithoutPages, Without;
    HeldFacts(st, g, o);
    var b := o.base;
    var st', g' := Destroyed(st, b), DestroyedShadow(g, b);
    forall x | x in st'.slabs ensures SlabInv(st', g', x) && st'.slabs[x].inuse > 0 { DestroyKeepsSlab(st, g, o, x); }
    forall d | 0 <= d < CACHES ensures ListInv(st', d) { DestroyKeepsLists(st, g, o, d); }
    forall p | p in st'.home ensures PageInv(st', p) { DestroyKeepsPage(st, g, o, p); }
    forall x ensures Held(st', g', x) <==> (Held(st, g, x) && x != o) || (Geometry(st.slabs[b].cache).off && b in g.ctl && x == g.ctl[b]) {
      DestroyHeld(st, g, o, x);
    }
  }

  /** The control block of a slab that is gone can be freed like any other object. */
  lemma {:induction false} ControlLeft(st: State, g: Shadow, o: Obj)
    requires MayGive(st, g, o) && st.slabs[o.base].inuse == 1 && Geometry(st.slabs[o.base].cache).off
    ensures o.base in g.ctl && Held(Destroyed(st, o.base), DestroyedShadow(g, o.base), g.ctl[o.base])
    ensures var st', y := Destroyed(st, o.base), g.ctl[o.base];
      y.base in st'.slabs && st.slabs[o.base].at == Address(st', y) && !Geometry(st'.slabs[y.base].cache).off
  {
    hide Geometry, Chain, SlabOk, WithoutPages, Without, ListInv, PagesOk;
    HeldFacts(st, g, o);
    assert SlabInv(st, g, o.base);
    GeometryFits(st.slabs[o.base].cache);
    DestroyHeld(st, g, o, g.ctl[o.base]);
    SameAddress(st, Destroyed(st, o.base), g.ctl[o.base]);
  }

  lemma {:induction false} SwapThenLess(st: State, g: Shadow, mid: State, mg: Shadow, st': State, g': Shadow, o: Obj)
    requires HeldSwapped(st, g, mid, mg, o) && if Geometry(st.slabs[o.base].cache).off then o.base in g.ctl && HeldLess(mid, mg, st', g', g.ctl[o.base]) else mid == st' && mg == g'
    ensures HeldLess(st, g, st', g', o)
  {
    hide Geometry;
  }

  lemma {:induction false} DestroyKeepsPage(st: State, g: Shadow, o: Obj, p: nat)
    requires MayGive(st, g, o) && p in Destroyed(st, o.base).home
    ensures PageInv(Destroyed(st, o.base), p)
  {
    hide Geometry, Chain, SlabInv, ListInv, SlabOk, WithoutPages, Without;
    assert PageInv(st, p);
  }

  lemma {:induction false} DestroyHeld(st: State, g: Shadow, o: Obj, x: Obj)
    requires MayGive(st, g, o) && st.slabs[o.base].inuse == 1
    ensures Held(Destroyed(st, o.base), DestroyedShadow(g, o.base), x) <==>
      (Held(st, g, x) && x != o) || (Geometry(st.slabs[o.base].cache).off && o.base in g.ctl && x == g.ctl[o.base])
  {
    hide Geometry, Chain, SlabOk, WithoutPages, Without, PagesOk;
    var b := o.base;
    var g' := DestroyedShadow(g, b);
    if x.base == b && Allocated(st, g, x) { OnlyOne(st, g, o, x); }
    assert SlabInv(st, g, b);
    assert forall y | y in g'.ctl :: y in g.ctl && g'.ctl[y] == g.ctl[y];
    assert forall y | y in g.ctl && y != b :: y in g'.ctl && g'.ctl[y] == g.ctl[y];
  }
}
