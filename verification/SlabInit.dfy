/** How the caches are laid out when the kernel starts (mm/kmalloc.c lines 170-288). */
module SlabInit {
  import opened Powers
  import opened SlabShape

  /** The precomputed quotients for slabs of one page. */
  const DIV_TABLE: seq<nat> := [113, 59, 30, 15]

  /** For one page and objects below 512 bytes the table holds how many fit and no fewer, so it needs no correction. */
  lemma {:induction false} TableFits(c: nat)
    requires c < 4
    ensures var t := DIV_TABLE[c];
      MgmtSize(t) + t * Geometry(c).objsize <= PGSIZE < MgmtSize(t + 1) + (t + 1) * Geometry(c).objsize
      && t == Geometry(c).num && (PGSIZE - MgmtSize(t) - t * Geometry(c).objsize) * 8 <= PGSIZE
  {
  }

  /** The part of cache_estimate that starts from the table. */
  method FitOnPage(c: nat, objsize: nat) returns (num: nat)
    requires c < 4 && objsize == Geometry(c).objsize
    ensures num == DIV_TABLE[c]
  {
    hide Geometry;
    num := DIV_TABLE[c];
    while MgmtSize(num) + num * objsize > PGSIZE
      invariant num <= DIV_TABLE[c]
      invariant num < DIV_TABLE[c] ==> MgmtSize(DIV_TABLE[c]) + DIV_TABLE[c] * objsize > PGSIZE
      decreases num
    {
      num := num - 1;
    }
    TableFits(c);
  }

  lemma {:induction false} Remainder(a: nat, b: nat)
    requires b > 0
    ensures a - a / b * b == a % b
  {
  }

  lemma {:induction false} SomeSize(c: nat)
    requires c < CACHES
    ensures Geometry(c).objsize > 0
  {
    GeometryFits(c);
  }

  lemma {:induction false} TableLeaves(c: nat)
    requires c < 4
    ensures PGSIZE - DIV_TABLE[c] * Geometry(c).objsize - MgmtSize(DIV_TABLE[c]) >= 0
  {
    TableFits(c);
  }

  /** cache_estimate for a slab of `slabSize` bytes. */
  method CacheEstimate(slabSize: nat, c: nat, offSlab: bool) returns (remainder: nat, num: nat)
    requires c < CACHES && (!offSlab ==> slabSize == PGSIZE && c < 4)
    ensures Geometry(c).objsize > 0
    ensures offSlab ==> num == slabSize / Geometry(c).objsize && remainder == slabSize % Geometry(c).objsize
    ensures !offSlab ==> num == DIV_TABLE[c] && remainder == PGSIZE - MgmtSize(num) - num * Geometry(c).objsize
  {
    hide Geometry;
    SomeSize(c);
    var objsize := Geometry(c).objsize;
    if offSlab {
      num := slabSize / objsize;
      Remainder(slabSize, objsize);
      remainder := slabSize - num * objsize;
    } else {
      num := FitOnPage(c, objsize);
      TableLeaves(c);
      remainder := slabSize - num * objsize - MgmtSize(num);
    }
  }

  /** What a slab of large objects comes to: nothing below the right size, and no remainder at it. */
  lemma {:induction false} LargeSlabs(c: nat, order: nat)
    requires 4 <= c < CACHES && order <= LastOrder(c)
    ensures var g := Geometry(c);
      && (order < LastOrder(c) ==> PGSIZE * Pow2(order) / g.objsize == 0)
      && (order == LastOrder(c) ==> Pow2(order) == g.pages && PGSIZE * g.pages / g.objsize == g.num && PGSIZE * g.pages % g.objsize == 0)
  {
    assert Pow2(1) == 2 && Pow2(2) == 4 && Pow2(3) == 8 && Pow2(4) == 16 && Pow2(5) == 32;
    if order < LastOrder(c) {
      PowGrows(order, LastOrder(c));
      assert PGSIZE * Pow2(LastOrder(c)) == Geometry(c).objsize;
    }
  }

  function LastOrder(c: nat): nat { if c <= 7 then 0 else c - 7 }

  /** calculate_slab_order: neither of its panics is reached. */
  method CalculateSlabOrder(c: nat, offSlab: bool) returns (num: nat, pages: nat, leftOver: nat)
    requires c < CACHES && (offSlab <==> Geometry(c).objsize >= PGSIZE / 8)
    ensures num == Geometry(c).num && pages == Geometry(c).pages
    ensures leftOver == if offSlab then 0 else PGSIZE - MgmtSize(num) - num * Geometry(c).objsize
  {
    var order := 0;
    pages := 1;
    while true
      invariant order <= LastOrder(c) && pages == Pow2(order) && (!offSlab ==> order == 0)
      decreases LastOrder(c) - order
    {
      var remainder;
      remainder, num := CacheEstimate(PGSIZE * pages, c, offSlab);
      if offSlab { LargeSlabs(c, order); } else { TableFits(c); }
      if num != 0 {
        assert offSlab ==> num <= (Geometry(c).objsize - 24) / 4;
        if remainder * 8 <= PGSIZE * pages { return num, pages, remainder; }
      }
      order, pages := order + 1, 2 * pages;
    }
  }

  /** getorder, as the number of the cache: the smallest one whose objects are large enough. */
  method GetOrder(n: nat) returns (c: nat)
    requires n <= 131072
    ensures c < CACHES && n <= Geometry(c).objsize && forall d | 0 <= d < c :: Geometry(d).objsize < n
  {
    var size := 32;
    c := 0;
    while n > size
      invariant c < CACHES && size == Geometry(c).objsize && forall d | 0 <= d < c :: Geometry(d).objsize < n
      decreases CACHES - c
    {
      c, size := c + 1, 2 * size;
    }
  }

  /** init_kmem_cache makes the layout of `Geometry`. */
  method InitKmemCache(c: nat) returns (k: Cache)
    requires c < CACHES
    ensures k == Geometry(c)
  {
    var objsize := (Geometry(c).objsize + 15) / 16 * 16;
    var offSlab := objsize >= PGSIZE / 8;
    var num, pages, leftOver := CalculateSlabOrder(c, offSlab);
    var mgmt := MgmtSize(num);
    if offSlab && leftOver >= mgmt { offSlab := false; }
    if offSlab {
      var ctl := GetOrder(mgmt);
      CtlIs(c, ctl);
      k := Cache(objsize, num, pages, 0, true, ctl);
    } else {
      k := Cache(objsize, num, pages, mgmt, false, 0);
    }
  }

  lemma {:induction false} CtlIs(c: nat, ctl: nat)
    requires 4 <= c < CACHES && ctl < CACHES && MgmtSize(Geometry(c).num) <= Geometry(ctl).objsize
    requires forall d | 0 <= d < ctl :: Geometry(d).objsize < MgmtSize(Geometry(c).num)
    ensures ctl == Geometry(c).ctl
  {
    assert Geometry(0).objsize == 32 && Geometry(1).objsize == 64;
  }
}
