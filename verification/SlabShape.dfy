/** What the slab allocator keeps, as values (mm/kmalloc.c). */
module SlabShape {
  const PGSIZE: nat := 4096
  const CACHES: nat := 13
  const BUFCTL_END: nat := 0xFFFF_FFFF
  const SLAB_T: nat := 24     // sizeof(slab_t)

  // ---------- Caches ----------

  /** A kmem_cache_t: `pages` is 1 << page_order; `ctl` is the cache of the control blocks if `off`. */
  datatype Cache = Cache(objsize: nat, num: nat, pages: nat, offset: nat, off: bool, ctl: nat)

  /** What init_kmem_cache works out for the cache of objects of 32 << c bytes. */
  function Geometry(c: nat): Cache {
    if c == 0 then Cache(32, 113, 1, 480, false, 0)
    else if c == 1 then Cache(64, 59, 1, 272, false, 0)
    else if c == 2 then Cache(128, 30, 1, 144, false, 0)
    else if c == 3 then Cache(256, 15, 1, 96, false, 0)
    else if c == 4 then Cache(512, 8, 1, 0, true, 1)
    else if c == 5 then Cache(1024, 4, 1, 0, true, 1)
    else if c == 6 then Cache(2048, 2, 1, 0, true, 0)
    else if c == 7 then Cache(4096, 1, 1, 0, true, 0)
    else if c == 8 then Cache(8192, 1, 2, 0, true, 0)
    else if c == 9 then Cache(16384, 1, 4, 0, true, 0)
    else if c == 10 then Cache(32768, 1, 8, 0, true, 0)
    else if c == 11 then Cache(65536, 1, 16, 0, true, 0)
    else Cache(131072, 1, 32, 0, true, 0)
  }

  /** slab_mgmt_size: a slab_t of 24 bytes and `num` words, in units of 16. */
  function MgmtSize(num: nat): nat { (SLAB_T + 4 * num + 15) / 16 * 16 }

  /** That is room for them, and no more than to the next unit. */
  lemma {:induction false} MgmtHolds(num: nat)
    ensures SLAB_T + 4 * num <= MgmtSize(num) < SLAB_T + 4 * num + 16 && MgmtSize(num) % 16 == 0
  {
  }

  /** The objects fit into the pages, beside the control block or with the control block in an object of
      another cache, which keeps its own control blocks at home. */
  lemma {:induction false} GeometryFits(c: nat)
    requires c < CACHES
    ensures var g := Geometry(c);
      && g.num > 0 && g.pages > 0 && g.objsize > 0 && g.num < BUFCTL_END && g.offset + g.num * g.objsize <= g.pages * PGSIZE
      && (!g.off ==> MgmtSize(g.num) <= g.offset)
      && (g.off ==> g.ctl < CACHES && !Geometry(g.ctl).off && MgmtSize(g.num) <= Geometry(g.ctl).objsize)
  {
  }

  // ---------- One slab ----------

  /** A slab: its cache, the address of its slab_t, and what the slab_t and the words behind it say. */
  datatype Slab = Slab(cache: nat, at: nat, inuse: nat, free: nat, bufctl: seq<nat>)

  /** Following `bufctl` from `free` visits exactly the indices `ch`, in this order. */
  ghost predicate Chain(free: nat, bufctl: seq<nat>, ch: seq<nat>)
    decreases |ch|
  {
    if ch == [] then free == BUFCTL_END else free == ch[0] && free < |bufctl| && Chain(bufctl[free], bufctl, ch[1..])
  }

  ghost predicate Distinct(s: seq<nat>) { forall i, j | 0 <= i < j < |s| :: s[i] != s[j] }

  /** The chain visits every index that is not allocated once, and no other. */
  ghost predicate SlabOk(s: Slab, ch: seq<nat>) {
    && s.cache < CACHES && |s.bufctl| == Geometry(s.cache).num
    && Chain(s.free, s.bufctl, ch) && Distinct(ch) && (forall i | i in ch :: i < |s.bufctl|)
    && s.inuse + |ch| == |s.bufctl|
  }

  lemma {:induction false} ChainKept(free: nat, bufctl: seq<nat>, ch: seq<nat>, k: nat, v: nat)
    requires Chain(free, bufctl, ch) && k < |bufctl| && k !in ch
    ensures Chain(free, bufctl[k := v], ch)
    decreases |ch|
  {
    if ch != [] { ChainKept(bufctl[free], bufctl, ch[1..], k, v); }
  }

  /** kmem_cache_alloc_one: the first index of the chain is taken. */
  function TakeOne(s: Slab): Slab
    requires s.free < |s.bufctl|
  {
    s.(inuse := s.inuse + 1, free := s.bufctl[s.free])
  }

  lemma {:induction false} TakeOneOk(s: Slab, ch: seq<nat>)
    requires SlabOk(s, ch) && s.inuse < |s.bufctl|
    ensures ch != [] && s.free == ch[0] < |s.bufctl| && SlabOk(TakeOne(s), ch[1..])
    ensures s.free !in ch[1..] && forall i :: i in ch <==> i == s.free || i in ch[1..]
    ensures TakeOne(s).free == BUFCTL_END <==> TakeOne(s).inuse == |s.bufctl|
  {
    GeometryFits(s.cache);
    assert ch == [ch[0]] + ch[1..];
    forall i | 0 <= i < |ch[1..]| ensures ch[1..][i] != ch[0] { assert ch[1..][i] == ch[i + 1]; }
    forall i | i in ch[1..] ensures i in ch { }
  }

  /** kmem_cache_free_one: the index goes to the front of the chain. */
  function GiveOne(s: Slab, i: nat): Slab
    requires i < |s.bufctl| && s.inuse > 0
  {
    s.(inuse := s.inuse - 1, free := i, bufctl := s.bufctl[i := s.free])
  }

  lemma {:induction false} GiveOneOk(s: Slab, ch: seq<nat>, i: nat)
    requires SlabOk(s, ch) && i < |s.bufctl| && i !in ch
    ensures s.inuse > 0 && SlabOk(GiveOne(s, i), [i] + ch)
  {
    Pigeons(ch, i, |s.bufctl|);
    ChainKept(s.free, s.bufctl, ch, i, s.free);
    assert ([i] + ch)[1..] == ch;
  }

  /** An index that is not in the chain is one of those in use, so there are some. */
  lemma {:induction false} Pigeons(ch: seq<nat>, i: nat, n: nat)
    requires Distinct(ch) && i !in ch && i < n && forall j | j in ch :: j < n
    ensures |ch| < n
  {
    var s := set j | j in ch;
    SetOfDistinct(ch, s);
    Upto(s + {i}, n);
  }

  lemma {:induction false} SetOfDistinct(ch: seq<nat>, s: set<nat>)
    requires Distinct(ch) && forall j :: j in s <==> j in ch
    ensures |s| == |ch|
  {
    if ch != [] {
      assert ch == [ch[0]] + ch[1..];
      forall j | 0 <= j < |ch[1..]| ensures ch[1..][j] != ch[0] { assert ch[1..][j] == ch[j + 1]; }
      SetOfDistinct(ch[1..], s - {ch[0]});
    }
  }

  lemma {:induction false} Upto(s: set<nat>, n: nat)
    requires forall j | j in s :: j < n
    ensures |s| <= n
  {
    if n > 0 { Upto(s - {n - 1}, n - 1); }
  }

  /** The words of a new slab: each index leads to the next one. */
  function FreshBufctl(num: nat): (r: seq<nat>)
    requires num > 0
    ensures |r| == num
  {
    seq(num, i => i + 1)[num - 1 := BUFCTL_END]
  }

  function From(k: nat, num: nat): (r: seq<nat>)
    requires k <= num
    ensures |r| == num - k && forall i | 0 <= i < |r| :: r[i] == k + i
  {
    seq(num - k, i requires 0 <= i => k + i)
  }

  lemma {:induction false} FreshChain(num: nat, k: nat)
    requires k < num
    ensures Chain(k, FreshBufctl(num), From(k, num))
    decreases num - k
  {
    if k + 1 < num {
      FreshChain(num, k + 1);
      assert From(k, num)[1..] == From(k + 1, num);
    } else { assert From(k, num)[1..] == []; }
  }

  lemma {:induction false} FreshSlabOk(c: nat, at: nat)
    requires c < CACHES
    ensures Geometry(c).num > 0 && SlabOk(Slab(c, at, 0, 0, FreshBufctl(Geometry(c).num)), From(0, Geometry(c).num))
  {
    GeometryFits(c);
    FreshChain(Geometry(c).num, 0);
  }
}
