/** The memory areas of a process (mm/vmm.c lines 73-185 and 448-473). */
module Vmas {
  const PGSIZE: nat := 4096
  const USERBASE: nat := 0x1000_0000
  const USERTOP: nat := 0x8000_0000
  const WORD: nat := 0x1_0000_0000

  /** An area [start, end). */
  datatype Vma = Vma(start: nat, end: nat, read: bool, write: bool, stack: bool)
  datatype Found = Nothing | Area(vma: Vma)

  predicate UserAccess(start: nat, end: nat) { USERBASE <= start < end <= USERTOP }

  predicate Contains(v: Vma, addr: nat) { v.start <= addr < v.end }

  /** Areas are not empty, lie in order, and do not overlap. */
  ghost predicate Ordered(list: seq<Vma>) {
    && (forall i | 0 <= i < |list| :: list[i].start < list[i].end)
    && forall i, j | 0 <= i < j < |list| :: list[i].end <= list[j].start
  }

  /** find_vma without the cache: the first area that ends above `addr`. */
  function Scan(list: seq<Vma>, addr: nat): Found {
    if list == [] then Nothing else if addr < list[0].end then Area(list[0]) else Scan(list[1..], addr)
  }

  lemma {:induction false} ScanIs(list: seq<Vma>, addr: nat) returns (k: nat)
    ensures k <= |list| && Scan(list, addr) == (if k < |list| then Area(list[k]) else Nothing)
    ensures (forall i | 0 <= i < k :: list[i].end <= addr) && (k < |list| ==> addr < list[k].end)
  {
    if list == [] || addr < list[0].end { k := 0; }
    else {
      k := ScanIs(list[1..], addr);
      forall i | 0 <= i < k + 1 ensures list[i].end <= addr { if i > 0 { assert list[1..][i - 1].end <= addr; } }
      k := k + 1;
    }
  }

  /** An area that contains `addr` is what the scan finds. */
  lemma {:induction false} ScanFindsIt(list: seq<Vma>, addr: nat, v: Vma)
    requires Ordered(list) && v in list && Contains(v, addr)
    ensures Scan(list, addr) == Area(v)
  {
    var k := ScanIs(list, addr);
    var j :| 0 <= j < |list| && list[j] == v;
    forall i | 0 <= i < j ensures list[i].end <= addr { assert list[i].end <= list[j].start; }
  }

  /** No area meets [start, end) exactly if the one the scan finds for `start` begins at or above `end`. */
  lemma {:induction false} FreeExactly(list: seq<Vma>, start: nat, end: nat)
    requires Ordered(list) && start < end
    ensures (Scan(list, start).Area? && end > Scan(list, start).vma.start) <==> exists v :: v in list && v.start < end && start < v.end
  {
    var k := ScanIs(list, start);
    if v :| v in list && v.start < end && start < v.end {
      var j :| 0 <= j < |list| && list[j] == v;
      if k < j { assert list[k].end <= list[j].start; }
    }
    if k < |list| { assert list[k] in list; }
  }

  class Mm {
    var list: seq<Vma>
    var cache: Found

    ghost predicate Valid()
      reads this
    {
      Ordered(list) && (cache.Area? ==> cache.vma in list)
    }

    constructor ()
      ensures Valid() && list == []
    {
      list, cache := [], Nothing;
    }

    /** find_vma: the cache never changes the answer. */
    method FindVma(addr: nat) returns (r: Found)
      requires Valid()
      modifies `cache
      ensures Valid() && r == Scan(list, addr)
    {
      r := cache;
      if !(r.Area? && r.vma.start <= addr && r.vma.end > addr) {
        var i := 0;
        while i < |list| && !(addr < list[i].end)
          invariant 0 <= i <= |list| && Scan(list, addr) == Scan(list[i..], addr)
        {
          i := i + 1;
        }
        r := if i < |list| then Area(list[i]) else Nothing;
      } else {
        ScanFindsIt(list, addr, r.vma);
      }
      if r.Area? { cache := r; }
    }

    /** insert_vma_struct of an area that meets no other: its assertions hold. */
    method Insert(v: Vma)
      requires Valid() && v.start < v.end && forall u | u in list :: u.end <= v.start || v.end <= u.start
      modifies `list
      ensures Valid() && exists k: nat :: k <= |old(list)| && list == old(list)[..k] + [v] + old(list)[k..]
    {
      var k := 0;
      while k < |list| && !(list[k].start > v.start)
        invariant 0 <= k <= |list| && forall i | 0 <= i < k :: list[i].start <= v.start
      {
        k := k + 1;
      }
      assert forall i | 0 <= i < |list| :: list[i] in list;
      if k > 0 { assert list[k - 1].start < list[k - 1].end && list[k - 1].end <= v.start && v.start < v.end; }
      if k < |list| { assert v.start < v.end && v.end <= list[k].start && list[k].start < list[k].end; }
      Between(list, k, v);
      if cache.Area? { Among(list, k, v, cache.vma); }
      list := list[..k] + [v] + list[k..];
    }

    /** mm_map, with memory for the new area (`memory`) or without. */
    method Map(addr: nat, len: nat, read: bool, write: bool, stack: bool, memory: bool) returns (r: MapResult)
      requires Valid() && addr < WORD && len < WORD
      modifies this
      ensures Valid()
      ensures var start, end := RoundDown(addr), RoundUp((addr + len) % WORD);
        && (r.Inval? <==> !UserAccess(start, end) || exists v :: v in old(list) && v.start < end && start < v.end)
        && (r.NoMem? <==> !memory && !r.Inval?)
        && (!r.Mapped? ==> list == old(list))
        && (r.Mapped? ==> exists k: nat :: k <= |old(list)| && list == old(list)[..k] + [Vma(start, end, read, write, stack)] + old(list)[k..])
        && (!r.Inval? ==> PageAligned(start) && PageAligned(end) && start <= addr < start + PGSIZE)
        && (!r.Inval? && addr + len < WORD ==> addr + len <= end < addr + len + PGSIZE)
    {
      var start, end := RoundDown(addr), RoundUp((addr + len) % WORD);
      RoundDownIs(addr);
      RoundUpIs((addr + len) % WORD);
      if !UserAccess(start, end) { return Inval; }
      var v := FindVma(start);
      FreeExactly(list, start, end);
      if v.Area? && end > v.vma.start { return Inval; }
      if !memory { return NoMem; }
      Insert(Vma(start, end, read, write, stack));
      r := Mapped;
    }

    /** user_mem_check for a process with memory areas: true exactly if the range is in user space and every byte of it may be
        used. An empty range is refused. */
    method UserMemCheck(addr: nat, len: nat, write: bool) returns (ok: bool)
      requires Valid() && addr < WORD && len < WORD
      modifies `cache
      ensures Valid()
      ensures ok <==> USERBASE <= addr && len > 0 && addr + len <= USERTOP && forall b: nat | addr <= b < addr + len :: Usable(list, b, write)
    {
      var start, end := addr, (addr + len) % WORD;
      if !UserAccess(start, end) { return false; }
      assert end == addr + len;
      while start < end
        invariant Valid() && addr <= start && forall b: nat | addr <= b < start && b < end :: Usable(list, b, write)
        decreases end - start
      {
        var v := FindVma(start);
        ghost var k := ScanIs(list, start);
        OnlyThatOne(list, start, write);
        if v.Nothing? || start < v.vma.start { return false; }
        assert v.vma in list;
        if !(if write then v.vma.write else v.vma.read) { return false; }
        if write && v.vma.stack {
          if start < v.vma.start + PGSIZE { return false; }
        }
        forall b: nat | start <= b < v.vma.end ensures Usable(list, b, write) { assert Contains(v.vma, b) && Grants(v.vma, b, write); }
        start := v.vma.end;
      }
      ok := true;
    }
  }

  datatype MapResult = Mapped | Inval | NoMem

  function RoundDown(a: nat): nat { a / PGSIZE * PGSIZE }
  function RoundUp(a: nat): nat { (a + PGSIZE - 1) % WORD / PGSIZE * PGSIZE }

  predicate PageAligned(a: nat) { a % PGSIZE == 0 }

  lemma {:induction false} RoundDownIs(a: nat)
    ensures PageAligned(RoundDown(a)) && RoundDown(a) <= a < RoundDown(a) + PGSIZE
  {
    assert RoundDown(a) == a - a % PGSIZE;
  }

  /** Rounding up ends at the next page, and at zero where there is none. */
  lemma {:induction false} RoundUpIs(a: nat)
    requires a < WORD
    ensures PageAligned(RoundUp(a))
    ensures if a + PGSIZE - 1 < WORD then a <= RoundUp(a) < a + PGSIZE else RoundUp(a) == 0
  {
    RoundDownIs((a + PGSIZE - 1) % WORD);
    assert RoundUp(a) == RoundDown((a + PGSIZE - 1) % WORD);
  }

  /** Which requests pass the first test of mm_map: those inside user space, unless they meet no page. If the end of the
      request is not a word, its rest is taken, and the request passes if that lies in the page of `addr`. */
  lemma {:induction false} PassesExactly(addr: nat, len: nat)
    requires addr < WORD && len < WORD
    ensures addr + len < WORD ==>
      (UserAccess(RoundDown(addr), RoundUp((addr + len) % WORD)) <==> USERBASE <= addr && addr + len <= USERTOP && (len > 0 || !PageAligned(addr)))
    ensures addr + len >= WORD ==>
      (UserAccess(RoundDown(addr), RoundUp((addr + len) % WORD)) <==> USERBASE <= addr < USERTOP && RoundDown(addr) < addr + len - WORD)
  {
    RoundDownIs(addr);
    RoundUpIs((addr + len) % WORD);
  }

  /** So an area that mm_map accepts holds every byte of the request if and only if its end is a word. */
  lemma {:induction false} CoversExactly(addr: nat, len: nat, v: Vma)
    requires addr < WORD && len < WORD && UserAccess(v.start, v.end) && v.start == RoundDown(addr) && v.end == RoundUp((addr + len) % WORD)
    ensures (forall b | addr <= b < addr + len :: Contains(v, b)) <==> addr + len < WORD
  {
    RoundDownIs(addr);
    RoundUpIs((addr + len) % WORD);
    if addr + len >= WORD {
      var b := addr + len - 1;
      assert addr <= b < addr + len && !Contains(v, b);
    }
  }

  /** 2^32 - 1 bytes from the last byte of the first user page on are accepted, and get that page. */
  lemma {:induction false} ShorterThanAsked()
    ensures UserAccess(RoundDown(0x1000_0FFF), RoundUp((0x1000_0FFF + 0xFFFF_FFFF) % WORD)) && RoundUp((0x1000_0FFF + 0xFFFF_FFFF) % WORD) == 0x1000_1000
  {
    RoundUpIs((0x1000_0FFF + 0xFFFF_FFFF) % WORD);
    RoundDownIs(0x1000_0FFF);
  }

  /** What area `v` grants at byte `b`: the right asked for, and no writing in the lowest page of a stack. */
  predicate Grants(v: Vma, b: nat, write: bool) {
    (if write then v.write else v.read) && (write && v.stack ==> b >= v.start + PGSIZE)
  }

  ghost predicate Usable(list: seq<Vma>, b: nat, write: bool) {
    exists v :: v in list && Contains(v, b) && Grants(v, b, write)
  }

  /** Whether byte `b` may be used is decided by what the scan finds. */
  lemma {:induction false} OnlyThatOne(list: seq<Vma>, b: nat, write: bool)
    requires Ordered(list)
    ensures Usable(list, b, write) ==> Scan(list, b).Area? && Contains(Scan(list, b).vma, b) && Grants(Scan(list, b).vma, b, write)
  {
    if Usable(list, b, write) {
      var v :| v in list && Contains(v, b) && Grants(v, b, write);
      ScanFindsIt(list, b, v);
    }
  }

  lemma {:induction false} Between(list: seq<Vma>, k: nat, v: Vma)
    requires Ordered(list) && k <= |list| && v.start < v.end && (k > 0 ==> list[k - 1].end <= v.start) && (k < |list| ==> v.end <= list[k].start)
    ensures Ordered(list[..k] + [v] + list[k..])
  {
    hide Ordered, AllBelow, AllAbove;
    Around(list, k, v);
    assert list == list[..k] + list[k..];
    Placed(list[..k], v, list[k..]);
  }

  lemma {:induction false} Among(list: seq<Vma>, k: nat, v: Vma, u: Vma)
    requires k <= |list| && u in list
    ensures u in list[..k] + [v] + list[k..]
  {
    var i :| 0 <= i < |list| && list[i] == u;
    assert (list[..k] + [v] + list[k..])[if i < k then i else i + 1] == u;
  }

  ghost predicate AllBelow(a: seq<Vma>, v: Vma) { forall i | 0 <= i < |a| :: a[i].end <= v.start }
  ghost predicate AllAbove(v: Vma, b: seq<Vma>) { forall i | 0 <= i < |b| :: v.end <= b[i].start }

  lemma {:induction false} Around(list: seq<Vma>, k: nat, v: Vma)
    requires Ordered(list) && k <= |list| && v.start < v.end && (k > 0 ==> list[k - 1].end <= v.start) && (k < |list| ==> v.end <= list[k].start)
    ensures AllBelow(list[..k], v) && AllAbove(v, list[k..])
  {
    forall i | 0 <= i < k ensures list[i].end <= v.start {
      if i < k - 1 { assert list[i].end <= list[k - 1].start && list[k - 1].start < list[k - 1].end; }
    }
    forall i | k <= i < |list| ensures v.end <= list[i].start {
      if i > k { assert list[k].end <= list[i].start && list[k].start < list[k].end; }
    }
  }

  lemma {:induction false} Placed(a: seq<Vma>, v: Vma, b: seq<Vma>)
    requires Ordered(a + b) && v.start < v.end && AllBelow(a, v) && AllAbove(v, b)
    ensures Ordered(a + [v] + b)
  {
    var c, d := a + [v] + b, a + b;
    forall i: nat | i < |c| && i != |a| ensures c[i] == d[if i < |a| then i else i - 1] { }
    forall i: nat | i < |c| ensures c[i].start < c[i].end {
      if i != |a| { assert c[i] == d[if i < |a| then i else i - 1]; }
    }
    forall i, j | 0 <= i < j < |c| ensures c[i].end <= c[j].start {
      if i == |a| { assert c[j] == b[j - |a| - 1]; }
      else if j == |a| { assert c[i] == a[i]; }
      else { assert c[i] == d[if i < |a| then i else i - 1] && c[j] == d[if j < |a| then j else j - 1]; }
    }
  }
}
