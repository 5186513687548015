/** The first-fit page allocator (mm/default_pmm.c). */
module FirstFit {
  /** A free block: its first page and its `property`, the number of pages. */
  datatype Run = Run(base: nat, n: nat)

  function Range(base: nat, n: nat): (r: set<nat>)
    ensures forall p: nat :: p in r <==> base <= p < base + n
  {
    set p: nat | p < base + n && AtLeast(p, base)
  }

  predicate AtLeast(p: nat, base: nat) { base <= p }

  lemma {:induction false} RangeSize(base: nat, n: nat)
    ensures |Range(base, n)| == n
  {
    if n > 0 {
      RangeSize(base, n - 1);
      assert Range(base, n) == Range(base, n - 1) + {base + n - 1};
    }
  }

  predicate Within(r: Run, p: nat) { r.base <= p < r.base + r.n }

  /** Blocks in the order of their addresses, none empty, and no two of them touch. */
  ghost predicate Canonical(list: seq<Run>) {
    && (forall i | 0 <= i < |list| :: list[i].n > 0)
    && forall i, j | 0 <= i < j < |list| :: list[i].base + list[i].n < list[j].base
  }

  ghost predicate In(list: seq<Run>, p: nat) {
    exists i: nat :: i < |list| && Within(list[i], p)
  }

  /** The list stands for the set of free pages. */
  ghost predicate Lists(list: seq<Run>, free: set<nat>) {
    Canonical(list) && forall p: nat :: p in free <==> In(list, p)
  }

  lemma {:induction false} InParts(a: seq<Run>, b: seq<Run>, p: nat)
    ensures In(a + b, p) <==> In(a, p) || In(b, p)
  {
    if In(a, p) {
      var i: nat :| i < |a| && Within(a[i], p);
      assert Within((a + b)[i], p);
    }
    if In(b, p) {
      var i: nat :| i < |b| && Within(b[i], p);
      assert Within((a + b)[|a| + i], p);
    }
  }

  lemma {:induction false} InOne(r: Run, p: nat)
    ensures In([r], p) <==> Within(r, p)
  {
    if Within(r, p) { assert Within([r][0], p); }
  }

  /** A block of a canonical list is a maximal range of free pages. */
  lemma {:induction false} RunIsMaximal(list: seq<Run>, free: set<nat>, i: nat)
    requires Lists(list, free) && i < |list|
    ensures Range(list[i].base, list[i].n) <= free
    ensures list[i].base + list[i].n !in free && (list[i].base > 0 ==> list[i].base - 1 !in free)
  {
    forall p | p in Range(list[i].base, list[i].n) ensures p in free { assert Within(list[i], p) && In(list, p); }
    NotIn(list, i, list[i].base + list[i].n);
    if list[i].base > 0 { NotIn(list, i, list[i].base - 1); }
  }

  lemma {:induction false} NotIn(list: seq<Run>, i: nat, p: nat)
    requires Canonical(list) && i < |list| && (p == list[i].base + list[i].n || p + 1 == list[i].base)
    ensures !In(list, p)
  {
    forall j: nat | j < |list| ensures !Within(list[j], p) {
      if j < i { assert list[j].base + list[j].n < list[i].base; }
      if i < j { assert list[i].base + list[i].n < list[j].base; }
    }
  }

  /** Consecutive free pages lie in one block. */
  lemma {:induction false} RangeInRun(list: seq<Run>, free: set<nat>, base: nat, n: nat) returns (i: nat)
    requires Lists(list, free) && n > 0 && Range(base, n) <= free
    ensures i < |list| && list[i].base <= base && base + n <= list[i].base + list[i].n
  {
    assert base in free && In(list, base);
    i :| i < |list| && Within(list[i], base);
    RunIsMaximal(list, free, i);
    assert list[i].base + list[i].n !in Range(base, n);
  }

  lemma {:induction false} EmptyList(list: seq<Run>, free: set<nat>)
    requires Lists(list, free)
    ensures list == [] <==> free == {}
  {
    if list != [] { assert Within(list[0], list[0].base) && In(list, list[0].base); }
  }

  /** A set of pages has one list only. */
  lemma {:induction false} ListIsUnique(a: seq<Run>, b: seq<Run>, free: set<nat>)
    requires Lists(a, free) && Lists(b, free)
    ensures a == b
  {
    EmptyList(a, free);
    EmptyList(b, free);
    if a != [] {
      SameFirst(a, b, free);
      TailLists(a, free);
      TailLists(b, free);
      ListIsUnique(a[1..], b[1..], free - Range(a[0].base, a[0].n));
    }
  }

  lemma {:induction false} SameFirst(a: seq<Run>, b: seq<Run>, free: set<nat>)
    requires Lists(a, free) && Lists(b, free) && a != [] && b != []
    ensures a[0] == b[0]
  {
    RunIsMaximal(a, free, 0);
    RunIsMaximal(b, free, 0);
    var i := RangeInRun(b, free, a[0].base, a[0].n);
    var j := RangeInRun(a, free, b[0].base, b[0].n);
    assert a[0].base == b[0].base;
  }

  lemma {:induction false} TailLists(a: seq<Run>, free: set<nat>)
    requires Lists(a, free) && a != []
    ensures Lists(a[1..], free - Range(a[0].base, a[0].n))
  {
    assert a == [] + [a[0]] + a[1..] && [] + a[1..] == a[1..];
    RemoveLists([], a[0], a[1..], free);
  }

  /** Without one block the list stands for the other pages. */
  lemma {:induction false} RemoveLists(a: seq<Run>, r: Run, b: seq<Run>, free: set<nat>)
    requires Lists(a + [r] + b, free)
    ensures Lists(a + b, free - Range(r.base, r.n))
  {
    RemoveCanonical(a, r, b);
    forall p: nat ensures p in free - Range(r.base, r.n) <==> In(a + b, p) {
      InParts(a + [r], b, p);
      InParts(a, [r], p);
      InOne(r, p);
      InParts(a, b, p);
      if Within(r, p) { InOneRun(a, r, b, p); }
    }
  }

  lemma {:induction false} RemoveCanonical(a: seq<Run>, r: Run, b: seq<Run>)
    requires Canonical(a + [r] + b)
    ensures Canonical(a + b)
  {
    var c, d := a + [r] + b, a + b;
    forall i | 0 <= i < |d| ensures d[i] == c[if i < |a| then i else i + 1] { }
  }

  lemma {:induction false} InOneRun(a: seq<Run>, r: Run, b: seq<Run>, p: nat)
    requires Canonical(a + [r] + b) && Within(r, p)
    ensures !In(a, p) && !In(b, p)
  {
    var c := a + [r] + b;
    assert c[|a|] == r;
    forall i: nat | i < |a| ensures !Within(a[i], p) { assert c[i] == a[i]; }
    forall i: nat | i < |b| ensures !Within(b[i], p) { assert c[|a| + 1 + i] == b[i]; }
  }

  /** A block that touches no block of the list. */
  predicate Apart(r: Run, s: Run) { r.base + r.n < s.base || s.base + s.n < r.base }

  predicate Disjoint(r: Run, s: Run) { r.base + r.n <= s.base || s.base + s.n <= r.base }

  /** With a new block at its place the list stands for more pages. */
  lemma {:induction false} InsertLists(a: seq<Run>, r: Run, b: seq<Run>, free: set<nat>)
    requires Lists(a + b, free) && r.n > 0
    requires forall j | 0 <= j < |a| :: a[j].base + a[j].n < r.base
    requires forall j | 0 <= j < |b| :: r.base + r.n < b[j].base
    ensures Lists(a + [r] + b, free + Range(r.base, r.n))
  {
    InsertCanonical(a, r, b);
    forall p: nat ensures p in free + Range(r.base, r.n) <==> In(a + [r] + b, p) {
      InParts(a + [r], b, p);
      InParts(a, [r], p);
      InOne(r, p);
      InParts(a, b, p);
    }
  }

  lemma {:induction false} InsertCanonical(a: seq<Run>, r: Run, b: seq<Run>)
    requires Canonical(a + b) && r.n > 0
    requires forall j | 0 <= j < |a| :: a[j].base + a[j].n < r.base
    requires forall j | 0 <= j < |b| :: r.base + r.n < b[j].base
    ensures Canonical(a + [r] + b)
  {
    var c, d := a + [r] + b, a + b;
    forall i: nat | i < |c| && i != |a| ensures c[i] == d[if i < |a| then i else i - 1] { }
    forall i: nat | i < |c| ensures c[i].n > 0 {
      if i != |a| { assert c[i] == d[if i < |a| then i else i - 1]; }
    }
    forall i, j | 0 <= i < j < |c| ensures c[i].base + c[i].n < c[j].base {
      if i == |a| { assert c[j] == b[j - |a| - 1]; }
      else if j == |a| { assert c[i] == a[i]; }
      else { assert c[i] == d[if i < |a| then i else i - 1] && c[j] == d[if j < |a| then j else j - 1]; }
    }
  }

  /** The list after the first `n` pages of block `i` are taken. */
  function Carve(list: seq<Run>, i: nat, n: nat): seq<Run>
    requires i < |list| && n <= list[i].n
  {
    if list[i].n > n then list[..i] + [Run(list[i].base + n, list[i].n - n)] + list[i + 1..] else list[..i] + list[i + 1..]
  }

  lemma {:induction false} Around(a: seq<Run>, r: Run, b: seq<Run>)
    requires Canonical(a + [r] + b)
    ensures forall j | 0 <= j < |a| :: a[j].base + a[j].n < r.base
    ensures forall j | 0 <= j < |b| :: r.base + r.n < b[j].base
  {
    var c := a + [r] + b;
    assert c[|a|] == r;
    forall j | 0 <= j < |a| ensures a[j].base + a[j].n < r.base { assert c[j] == a[j]; }
    forall j | 0 <= j < |b| ensures r.base + r.n < b[j].base { assert c[|a| + 1 + j] == b[j]; }
  }

  lemma {:induction false} RangeSplit(free: set<nat>, base: nat, n: nat, m: nat)
    requires Range(base, m) <= free && n <= m
    ensures free - Range(base, m) + Range(base + n, m - n) == free - Range(base, n)
  {
  }

  lemma {:induction false} CarveLists(list: seq<Run>, free: set<nat>, i: nat, n: nat)
    requires Lists(list, free) && i < |list| && 0 < n <= list[i].n
    ensures Lists(Carve(list, i, n), free - Range(list[i].base, n))
  {
    hide Canonical, In;
    var a, r, b := list[..i], list[i], list[i + 1..];
    assert list == a + [r] + b;
    RemoveLists(a, r, b, free);
    RunIsMaximal(list, free, i);
    Around(a, r, b);
    hide Lists;
    if r.n > n {
      InsertLists(a, Run(r.base + n, r.n - n), b, free - Range(r.base, r.n));
      RangeSplit(free, r.base, n, r.n);
    }
  }

  /** At the end of the list new pages are right exactly if they lie above all free ones and touch none. */
  lemma {:induction false} AppendLists(list: seq<Run>, free: set<nat>, base: nat, n: nat)
    requires Lists(list, free) && n > 0
    ensures Lists(list + [Run(base, n)], free + Range(base, n)) <==> forall p | p in free :: p + 1 < base
  {
    var r := Run(base, n);
    if forall p | p in free :: p + 1 < base {
      forall j | 0 <= j < |list| ensures list[j].base + list[j].n < base { LastPage(list, free, j); }
      assert list + [] == list && list + [r] + [] == list + [r];
      InsertLists(list, r, [], free);
    } else {
      var p :| p in free && p + 1 >= base;
      assert In(list, p);
      var j: nat :| j < |list| && Within(list[j], p);
      assert (list + [r])[j] == list[j] && (list + [r])[|list|] == r;
    }
  }

  lemma {:induction false} LastPage(list: seq<Run>, free: set<nat>, j: nat)
    requires Lists(list, free) && j < |list|
    ensures list[j].n > 0 && list[j].base + list[j].n - 1 in free
  {
    assert Within(list[j], list[j].base + list[j].n - 1) && In(list, list[j].base + list[j].n - 1);
  }

  ghost predicate Counts(nr: nat, free: set<nat>) { nr == |free| }

  lemma {:induction false} CountsUp(nr: nat, free: set<nat>, base: nat, n: nat)
    requires Counts(nr, free) && Range(base, n) !! free
    ensures Counts(nr + n, free + Range(base, n))
  {
    RangeSize(base, n);
    assert |free + Range(base, n)| == |free| + |Range(base, n)|;
  }

  lemma {:induction false} CountsDown(nr: nat, free: set<nat>, base: nat, n: nat)
    requires Counts(nr, free) && Range(base, n) <= free
    ensures nr >= n && Counts(nr - n, free - Range(base, n))
  {
    RangeSize(base, n);
    SubsetSize(Range(base, n), free);
    assert |free - Range(base, n)| == |free| - |Range(base, n)|;
  }

  lemma {:induction false} CountsOnce(a: nat, b: nat, free: set<nat>)
    requires Counts(a, free) && Counts(b, free)
    ensures a == b
  {
  }

  class PageAllocator {
    var list: seq<Run>
    var nrFree: nat
    ghost var free: set<nat>

    ghost predicate Valid()
      reads this
    {
      Lists(list, free) && Counts(nrFree, free)
    }

    /** default_init. */
    constructor ()
      ensures Valid() && free == {}
    {
      list, nrFree, free := [], 0, {};
    }

    /** default_init_memmap puts the pages at the end of the list, wherever they lie. */
    method InitMemmap(base: nat, n: nat)
      requires Valid() && n > 0 && Range(base, n) !! free
      modifies this
      ensures list == old(list) + [Run(base, n)] && nrFree == old(nrFree) + n && free == old(free) + Range(base, n)
      ensures Valid() <==> forall p | p in old(free) :: p + 1 < base
    {
      hide Counts, In, Canonical;
      CountsUp(nrFree, free, base, n);
      AppendLists(list, free, base, n);
      nrFree := nrFree + n;
      list := list + [Run(base, n)];
      free := free + Range(base, n);
    }

    /** default_alloc_pages: the lowest `n` consecutive free pages, or nothing if there are none. */
    method Alloc(n: nat) returns (ok: bool, page: nat)
      requires Valid() && n > 0
      modifies this
      ensures Valid()
      ensures ok <==> exists b: nat :: Range(b, n) <= old(free)
      ensures !ok ==> list == old(list) && nrFree == old(nrFree) && free == old(free)
      ensures ok ==> Range(page, n) <= old(free) && free == old(free) - Range(page, n)
      ensures ok ==> forall b: nat | Range(b, n) <= old(free) :: page <= b
    {
      hide In, Counts;
      forall b: nat | Range(b, n) <= free ensures n <= nrFree { CountsDown(nrFree, free, b, n); }
      if n > nrFree { return false, 0; }
      var i := 0;
      while i < |list| && list[i].n < n
        invariant 0 <= i <= |list| && forall j | 0 <= j < i :: list[j].n < n
      {
        i := i + 1;
      }
      forall b: nat | Range(b, n) <= free ensures i < |list| && list[i].base <= b {
        var j := RangeInRun(list, free, b, n);
      }
      if i == |list| { return false, 0; }
      ok, page := true, list[i].base;
      RunIsMaximal(list, free, i);
      assert Range(page, n) <= Range(page, list[i].n);
      CarveLists(list, free, i, n);
      CountsDown(nrFree, free, page, n);
      list := Carve(list, i, n);
      nrFree := nrFree - n;
      free := free - Range(page, n);
    }

    /** The first loop of default_free_pages: a block that touches `r` is taken out of the list and joined with it. */
    method Join(base: nat, n: nat) returns (r: Run)
      requires Lists(list, free) && n > 0 && Range(base, n) !! free
      modifies `list
      ensures r.n > 0 && Range(base, n) <= Range(r.base, r.n) <= free + Range(base, n)
      ensures Lists(list, free - Range(r.base, r.n)) && forall j | 0 <= j < |list| :: Apart(r, list[j])
    {
      hide In;
      r := Run(base, n);
      assert free - Range(base, n) == free;
      forall j | 0 <= j < |list| ensures Disjoint(r, list[j]) { RunIsMaximal(list, free, j); DisjointRuns(r, list[j]); }
      var i := 0;
      while i < |list|
        invariant 0 <= i <= |list| && r.n > 0 && Range(base, n) <= Range(r.base, r.n) <= free + Range(base, n)
        invariant Lists(list, free - Range(r.base, r.n))
        invariant forall j | 0 <= j < |list| :: Disjoint(r, list[j])
        invariant forall j | 0 <= j < i :: Apart(r, list[j])
        decreases |list| - i
      {
        var p := list[i];
        if r.base + r.n == p.base || p.base + p.n == r.base {
          r := Absorb(i, r);
        } else {
          i := i + 1;
        }
      }
    }

    /** One block is taken out of the list and joined with `r`, which it touches. */
    method Absorb(i: nat, r: Run) returns (r': Run)
      requires i < |list| && r.n > 0 && Lists(list, free - Range(r.base, r.n))
      requires (forall j | 0 <= j < |list| :: Disjoint(r, list[j])) && forall j | 0 <= j < i :: Apart(r, list[j])
      requires r.base + r.n == list[i].base || list[i].base + list[i].n == r.base
      modifies `list
      ensures list == old(list[..i] + list[i + 1..]) && r'.n > 0 && Lists(list, free - Range(r'.base, r'.n))
      ensures Range(r.base, r.n) <= Range(r'.base, r'.n) <= free + Range(r.base, r.n)
      ensures (forall j | 0 <= j < |list| :: Disjoint(r', list[j])) && forall j | 0 <= j < i :: Apart(r', list[j])
    {
      hide In;
      ghost var rest := free - Range(r.base, r.n);
      var p := list[i];
      RunIsMaximal(list, rest, i);
      CarveLists(list, rest, i, p.n);
      r' := if r.base + r.n == p.base then Run(r.base, r.n + p.n) else Run(p.base, p.n + r.n);
      assert free - Range(r'.base, r'.n) == rest - Range(p.base, p.n);
      forall j | 0 <= j < |list| && j != i ensures Disjoint(r', list[j]) && (j < i ==> Apart(r', list[j])) { assert Apart(p, list[j]); }
      list := list[..i] + list[i + 1..];
    }

    /** default_free_pages: the pages are free again, and the list is the list of the larger set. */
    method Free(base: nat, n: nat)
      requires Valid() && n > 0 && Range(base, n) !! free
      modifies this
      ensures Valid() && free == old(free) + Range(base, n)
    {
      hide In, Counts;
      CountsUp(nrFree, free, base, n);
      var r := Join(base, n);
      nrFree := nrFree + n;
      var k := 0;
      while k < |list| && !(r.base + r.n <= list[k].base)
        invariant 0 <= k <= |list| && forall j | 0 <= j < k :: list[j].base < r.base + r.n
      {
        k := k + 1;
      }
      Place(r, k, base, n);
    }

    /** list_add_before: the assertion that the block does not touch the next one holds. */
    method Place(r: Run, k: nat, ghost base: nat, ghost n: nat)
      requires r.n > 0 && Lists(list, free - Range(r.base, r.n)) && (forall j | 0 <= j < |list| :: Apart(r, list[j]))
      requires Range(base, n) <= Range(r.base, r.n) <= free + Range(base, n)
      requires k <= |list| && (forall j | 0 <= j < k :: list[j].base < r.base + r.n) && (k < |list| ==> r.base + r.n <= list[k].base)
      modifies this
      ensures Lists(list, free) && free == old(free) + Range(base, n) && nrFree == old(nrFree)
    {
      hide In;
      assert k < |list| ==> r.base + r.n != list[k].base;
      ghost var a, b := list[..k], list[k..];
      assert list == a + b;
      forall j | 0 <= j < |a| ensures a[j].base + a[j].n < r.base { assert a[j] == list[j] && Apart(r, list[j]); }
      forall j | 0 <= j < |b| ensures r.base + r.n < b[j].base { assert b[j] == list[k + j] && Apart(r, list[k + j]); }
      InsertLists(a, r, b, free - Range(r.base, r.n));
      assert free - Range(r.base, r.n) + Range(r.base, r.n) == free + Range(base, n);
      list := list[..k] + [r] + list[k..];
      free := free + Range(base, n);
    }

    /** What is allocated and freed again leaves the very same list. */
    method AllocThenFree(n: nat) returns (ok: bool, page: nat)
      requires Valid() && n > 0
      modifies this
      ensures Valid() && list == old(list) && nrFree == old(nrFree) && free == old(free)
    {
      hide Lists, Counts;
      ok, page := Alloc(n);
      if ok {
        Free(page, n);
        assert free == old(free);
        ListIsUnique(list, old(list), free);
        CountsOnce(nrFree, old(nrFree), free);
      }
    }
  }

  lemma {:induction false} SubsetSize(a: set<nat>, b: set<nat>)
    requires a <= b
    ensures |a| <= |b|
  {
    assert b == a + (b - a);
  }

  lemma {:induction false} DisjointRuns(r: Run, s: Run)
    requires Range(r.base, r.n) !! Range(s.base, s.n) && r.n > 0 && s.n > 0
    ensures Disjoint(r, s)
  {
    assert r.base in Range(r.base, r.n) && s.base in Range(s.base, s.n);
  }
}
