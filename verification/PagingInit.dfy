/** The kernel's address space: what `paging_init` builds from the boot information, and what the
    MMIO helpers add to it. */
module PagingInit {
  import opened Bits
  import opened Options
  import opened PageEntries
  import opened PageTables
  import opened PageMapping
  import opened PageRefinement
  import opened PageRegions
  import opened BootInfo

  const POOL_BYTES: nat := POOL_TABLES * TABLE_BYTES

  /** Iterations of a region loop over `bytes` bytes. */
  function Pages(bytes: nat, size: nat): (n: nat)
  {
    (bytes + (Span(size) - 1)) / Span(size)
  }

  /** `(x + 0x1FFFFF) & ~0x1FFFFF` in 64 bits. */
  function RoundUp2M(x: nat): (r: nat) { AlignDown((x + 0x1F_FFFF) % U64, SIZE_2M) }

  function RoundUp4K(x: nat): (r: nat) { AlignDown((x + 0xFFF) % U64, SIZE_4K) }

  function KernelMapSize(kernelStart: nat, kernelEnd: nat): (r: nat)
    requires kernelStart <= kernelEnd
  {
    RoundUp2M((RoundUp2M(kernelEnd - kernelStart) + POOL_BYTES) % U64)
  }

  /** One memory-map entry: usable RAM is mapped onto itself in 2 MiB pages. */
  function MapEntry(s: Tables, e: MmapEntry): (r: Option<Tables>)
    requires Wf(s)
    ensures r.Some? ==> Wf(r.value)
  {
    if e.kind != USABLE_RAM then Some(s)
    else
      var lo := AlignDown(e.base, SIZE_2M);
      var hi := RoundUp2M((e.base + e.length) % U64);
      MapRegion(s, 2, lo, lo, Pages((hi - lo) % U64, 2), PAGE_WRITABLE)
  }

  function MapEntries(s: Tables, es: seq<MmapEntry>): (r: Option<Tables>)
    requires Wf(s)
    ensures r.Some? ==> Wf(r.value)
  {
    if es == [] then Some(s)
    else
      match MapEntries(s, es[..|es| - 1])
      case None => None
      case Some(s1) => MapEntry(s1, es[|es| - 1])
  }

  /** `paging_init` on an untouched pool. */
  function Init(s: Tables, kernelStart: nat, kernelEnd: nat, es: seq<MmapEntry>): (r: Option<Tables>)
    requires Wf(s) && kernelStart <= kernelEnd
    ensures r.Some? ==> Wf(r.value)
  {
    match AllocTable(s)
    case None => None
    case Some(s1) =>
      match MapRegion(s1, 2, 0, 0, Pages(0x20_0000, 2), PAGE_WRITABLE)
      case None => None
      case Some(s2) =>
        match MapRegion(s2, 2, kernelStart, kernelStart, Pages(KernelMapSize(kernelStart, kernelEnd), 2), PAGE_WRITABLE)
        case None => None
        case Some(s3) => MapEntries(s3, es)
  }

  // ----- what is mapped ----------------------------------------------------

  /** Mapped onto itself, writable, by a 2 MiB page. */
  predicate Identity(s: Tables, a: nat)
    requires Wf(s)
  {
    Walk(s, a) == Page(a, SIZE_2M, 0x83, 0, true)
  }

  lemma FreshRoot(s: Tables)
    requires Wf(s) && s.used == 0
    ensures AllocTable(s).Some? && IsTree(AllocTable(s).value)
    ensures AllocTable(s).value.base == s.base && AllocTable(s).value.stray == s.stray && AllocTable(s).value.used == 1
    ensures forall va: nat :: Walk(AllocTable(s).value, va) == Fault
  {
    var s' := AllocTable(s).value;
    var sh := Shape([4], [(0, 0)]);
    ZeroIsAbsent();
    assert forall i :: 0 <= i < ENTRIES ==> !Present(s'.mem[0][i]);
    assert Shaped(s', sh);
    forall va: nat
      ensures Walk(s', va) == Fault
    {
      assert TableAddr(s', 0) == s'.base;
      AbsentStep(s', 0, 4, va, true);
    }
  }

  lemma WritableFlagWord()
    ensures FlagsOnly(PAGE_WRITABLE) && Writable(PAGE_WRITABLE)
    ensures Or(Or(LowFlags(PAGE_WRITABLE), PAGE_PRESENT), PAGE_HUGE) == 0x83
    ensures HighFlags(PAGE_WRITABLE) == 0
  {
    assert Or(2, 1) == 3;
    assert Or(3, 128) == 131 by { OrDouble(3, 128); OrDouble(1, 64); }
  }

  /** An identity region of 2 MiB pages makes its addresses `Identity` and leaves the rest alone. */
  lemma IdentityRegion(s: Tables, va: nat, n: nat)
    requires IsTree(s) && Fits(2, va, va, n)
    requires MapRegion(s, 2, va, va, n, PAGE_WRITABLE).Some?
    ensures var s' := MapRegion(s, 2, va, va, n, PAGE_WRITABLE).value;
            && IsTree(s') && s'.stray == s.stray && s'.base == s.base
            && (forall a: nat :: a < VIRT_LIMIT && InRegion(2, va, n, a) ==> Identity(s', a))
            && (forall a: nat :: a < VIRT_LIMIT && Identity(s, a) ==> Identity(s', a))
            && (forall a: nat :: a < VIRT_LIMIT && !InRegion(2, va, n, a) ==> Walk(s', a) == Walk(s, a))
  {
    hide WalkFrom, MapRegion, LowFlags, HighFlags, Writable, AlignDown;
    WritableFlagWord();
    RegionExact(s, 2, va, va, n, PAGE_WRITABLE);
    var s' := MapRegion(s, 2, va, va, n, PAGE_WRITABLE).value;
    forall a: nat | a < VIRT_LIMIT
      ensures InRegion(2, va, n, a) ==> Identity(s', a)
      ensures Identity(s, a) ==> Identity(s', a)
      ensures !InRegion(2, va, n, a) ==> Walk(s', a) == Walk(s, a)
    {
      assert a % VIRT_LIMIT == a;
      assert Walk(s', a) == if InRegion(2, va, n, a) then Placed(2, va, va, PAGE_WRITABLE, a) else Walk(s, a);
    }
  }

  // ----- rounding ----------------------------------------------------------

  lemma RoundUpFacts(x: nat)
    requires x <= VIRT_LIMIT
    ensures RoundUp2M(x) % SIZE_2M == 0 && x <= RoundUp2M(x) <= VIRT_LIMIT && RoundUp2M(x) < x + SIZE_2M
    ensures AlignDown(x, SIZE_2M) % SIZE_2M == 0 && AlignDown(x, SIZE_2M) <= x < AlignDown(x, SIZE_2M) + SIZE_2M
  {
  }

  lemma PagesOfMultiple(bytes: nat)
    requires bytes % SIZE_2M == 0
    ensures Offset(2, Pages(bytes, 2)) == bytes
  {
    var q := bytes / SIZE_2M;
    ModShift(0x1F_FFFF, SIZE_2M, q);
  }

  /** Adding the pool size forces one extra 2 MiB page. */
  lemma ExtraPage(k: nat)
    requires k % SIZE_2M == 0 && k + 2 * SIZE_2M < U64
    ensures RoundUp2M((k + POOL_BYTES) % U64) == k + SIZE_2M
  {
    var q := k / SIZE_2M;
    assert (k + POOL_BYTES) % U64 == k + POOL_BYTES;
    assert (k + POOL_BYTES + 0x1F_FFFF) % U64 == k + POOL_BYTES + 0x1F_FFFF;
    assert k + POOL_BYTES + 0x1F_FFFF == POOL_BYTES + 0x1F_FFFF + SIZE_2M * q;
    ModShift(POOL_BYTES + 0x1F_FFFF, SIZE_2M, q);
  }

  /** Within 2 MiB below the image, or 4 MiB above it. */
  predicate NearKernel(kernelStart: nat, kernelEnd: nat, a: nat) {
    kernelStart < a + 0x20_0000 && a < kernelEnd + 0x40_0000
  }

  /** Within 2 MiB of an entry. */
  predicate NearEntry(e: MmapEntry, a: nat) { e.base < a + 0x20_0000 && a < e.base + e.length + 0x20_0000 }

  /** That extra page is what covers the tail of a kernel whose start is not 2 MiB aligned. */
  lemma KernelCovered(kernelStart: nat, kernelEnd: nat)
    requires kernelStart <= kernelEnd <= VIRT_LIMIT - 2 * SIZE_2M
    ensures var n := Pages(KernelMapSize(kernelStart, kernelEnd), 2);
            && Fits(2, kernelStart, kernelStart, n)
            && (forall a: nat :: kernelStart <= a < kernelEnd ==> InRegion(2, kernelStart, n, a))
            && (forall a: nat :: a < VIRT_LIMIT && InRegion(2, kernelStart, n, a) ==> NearKernel(kernelStart, kernelEnd, a))
  {
    hide AlignDown, RoundUp2M, Pages, Offset;
    var k := RoundUp2M(kernelEnd - kernelStart);
    RoundUpFacts(kernelEnd - kernelStart);
    RoundUpFacts(kernelStart);
    ExtraPage(k);
    PagesAligned(k);
    PagesOfMultiple(k + SIZE_2M);
    var n := Pages(k + SIZE_2M, 2);
    forall a: nat | a < VIRT_LIMIT
      ensures kernelStart <= a < kernelEnd ==> InRegion(2, kernelStart, n, a)
      ensures InRegion(2, kernelStart, n, a) ==> NearKernel(kernelStart, kernelEnd, a)
    {
      assert a % VIRT_LIMIT == a;
    }
  }

  lemma PagesAligned(k: nat)
    requires k % SIZE_2M == 0
    ensures (k + SIZE_2M) % SIZE_2M == 0
  {
    ModShift(k, SIZE_2M, 1);
  }

  /** A usable entry that ends inside the address space is covered by the pages mapped for it. */
  lemma EntryCovered(e: MmapEntry)
    requires e.base + e.length <= VIRT_LIMIT
    ensures var lo := AlignDown(e.base, SIZE_2M);
            var n := Pages((RoundUp2M((e.base + e.length) % U64) - lo) % U64, 2);
            && Fits(2, lo, lo, n)
            && (forall a: nat :: e.base <= a < e.base + e.length ==> InRegion(2, lo, n, a))
            && (forall a: nat :: a < VIRT_LIMIT && InRegion(2, lo, n, a) ==> NearEntry(e, a))
  {
    hide AlignDown, RoundUp2M, Pages, Offset;
    var end := e.base + e.length;
    RoundUpFacts(end);
    RoundUpFacts(e.base);
    var lo, hi := AlignDown(e.base, SIZE_2M), RoundUp2M(end);
    assert end % U64 == end && (hi - lo) % U64 == hi - lo;
    MultipleDifference(hi, lo);
    PagesOfMultiple(hi - lo);
    AlignedFixed(lo);
    var n := Pages(hi - lo, 2);
    forall a: nat | a < VIRT_LIMIT
      ensures e.base <= a < end ==> InRegion(2, lo, n, a)
      ensures InRegion(2, lo, n, a) ==> NearEntry(e, a)
    {
      assert a % VIRT_LIMIT == a;
    }
  }

  lemma MultipleDifference(hi: nat, lo: nat)
    requires lo <= hi && hi % SIZE_2M == 0 && lo % SIZE_2M == 0
    ensures (hi - lo) % SIZE_2M == 0
  {
  }

  lemma AlignedFixed(lo: nat)
    requires lo % SIZE_2M == 0
    ensures AlignDown(lo, SIZE_2M) == lo
  {
  }

  // ----- the theorem -------------------------------------------------------

  predicate UsableByte(es: seq<MmapEntry>, a: nat)
  {
    exists i :: 0 <= i < |es| && es[i].kind == USABLE_RAM && es[i].base <= a < es[i].base + es[i].length
  }

  /** Usable entries end inside the 48-bit address space. */
  predicate EntriesFit(es: seq<MmapEntry>)
  {
    forall i :: 0 <= i < |es| && es[i].kind == USABLE_RAM ==> es[i].base + es[i].length <= VIRT_LIMIT
  }

  lemma {:induction false} EntriesMapped(s: Tables, es: seq<MmapEntry>)
    requires IsTree(s) && EntriesFit(es) && MapEntries(s, es).Some?
    ensures var s' := MapEntries(s, es).value;
            && IsTree(s') && s'.stray == s.stray && s'.base == s.base
            && (forall a: nat :: a < VIRT_LIMIT && Identity(s, a) ==> Identity(s', a))
            && (forall a: nat :: a < VIRT_LIMIT && UsableByte(es, a) ==> Identity(s', a))
            && (forall a: nat :: a < VIRT_LIMIT && !NearUsable(es, a) ==> Walk(s', a) == Walk(s, a))
            && (forall a: nat :: a < VIRT_LIMIT && Walk(s', a) != Walk(s, a) ==> Identity(s', a))
  {
    hide WalkFrom, MapRegion, AlignDown, RoundUp2M, Pages, Identity, InRegion, Fits, NearEntry;
    if es != [] {
      var init, e := es[..|es| - 1], es[|es| - 1];
      EntriesMapped(s, init);
      var s1 := MapEntries(s, init).value;
      var s' := MapEntries(s, es).value;
      if e.kind == USABLE_RAM {
        EntryCovered(e);
        var lo := AlignDown(e.base, SIZE_2M);
        var n := Pages((RoundUp2M((e.base + e.length) % U64) - lo) % U64, 2);
        IdentityRegion(s1, lo, n);
      }
      forall a: nat | a < VIRT_LIMIT && UsableByte(es, a)
        ensures Identity(s', a)
      {
        var i :| 0 <= i < |es| && es[i].kind == USABLE_RAM && es[i].base <= a < es[i].base + es[i].length;
        if i < |es| - 1 {
          assert init[i] == es[i];
          assert UsableByte(init, a);
        }
      }
      forall a: nat | a < VIRT_LIMIT && !NearUsable(es, a)
        ensures Walk(s', a) == Walk(s, a)
      {
        NearLast(es, a);
      }
    }
  }

  /** Within 2 MiB of a usable entry. */
  predicate NearUsable(es: seq<MmapEntry>, a: nat)
  {
    exists i :: 0 <= i < |es| && es[i].kind == 1 && NearEntry(es[i], a)
  }

  lemma NearLast(es: seq<MmapEntry>, a: nat)
    requires es != [] && !NearUsable(es, a)
    ensures !NearUsable(es[..|es| - 1], a)
    ensures es[|es| - 1].kind == 1 ==> !NearEntry(es[|es| - 1], a)
  {
  }

  /** And nothing else is mapped, apart from the rest of the 2 MiB pages these lie in. */
  lemma InitMapsOnly(s: Tables, kernelStart: nat, kernelEnd: nat, es: seq<MmapEntry>, a: nat)
    requires Wf(s) && s.used == 0
    requires kernelStart <= kernelEnd <= VIRT_LIMIT - 2 * SIZE_2M && EntriesFit(es)
    requires Init(s, kernelStart, kernelEnd, es).Some? && a < VIRT_LIMIT
    ensures var s' := Init(s, kernelStart, kernelEnd, es).value;
            Walk(s', a) == Fault ||
            (Identity(s', a) && (a < 0x20_0000 || NearKernel(kernelStart, kernelEnd, a) || NearUsable(es, a)))
  {
    hide WalkFrom, MapRegion, RoundUp2M, Pages, Identity, MapEntries, AllocTable, InRegion, Fits, KernelMapSize, NearUsable, NearKernel;
    FreshRoot(s);
    var s1 := AllocTable(s).value;
    LowMemory();
    IdentityRegion(s1, 0, Pages(0x20_0000, 2));
    var s2 := MapRegion(s1, 2, 0, 0, Pages(0x20_0000, 2), PAGE_WRITABLE).value;
    KernelCovered(kernelStart, kernelEnd);
    var n := Pages(KernelMapSize(kernelStart, kernelEnd), 2);
    IdentityRegion(s2, kernelStart, n);
    var s3 := MapRegion(s2, 2, kernelStart, kernelStart, n, PAGE_WRITABLE).value;
    EntriesMapped(s3, es);
  }

  /** If `paging_init` does not panic, low memory, the kernel image and every usable byte are mapped
      onto themselves and writable, whatever the order or overlap of the entries. */
  lemma InitMapsEverything(s: Tables, kernelStart: nat, kernelEnd: nat, es: seq<MmapEntry>)
    requires Wf(s) && s.used == 0
    requires kernelStart <= kernelEnd <= VIRT_LIMIT - 2 * SIZE_2M && EntriesFit(es)
    requires Init(s, kernelStart, kernelEnd, es).Some?
    ensures var s' := Init(s, kernelStart, kernelEnd, es).value;
            && IsTree(s') && s'.stray == s.stray && s'.base == s.base
            && forall a: nat :: a < VIRT_LIMIT && (a < SIZE_2M || kernelStart <= a < kernelEnd || UsableByte(es, a)) ==>
                 Identity(s', a)
  {
    hide WalkFrom, MapRegion, RoundUp2M, Pages, Identity, MapEntries, AllocTable, InRegion, Fits, KernelMapSize, UsableByte;
    FreshRoot(s);
    var s1 := AllocTable(s).value;
    LowMemory();
    IdentityRegion(s1, 0, Pages(0x20_0000, 2));
    var s2 := MapRegion(s1, 2, 0, 0, Pages(0x20_0000, 2), PAGE_WRITABLE).value;
    KernelCovered(kernelStart, kernelEnd);
    var n := Pages(KernelMapSize(kernelStart, kernelEnd), 2);
    IdentityRegion(s2, kernelStart, n);
    var s3 := MapRegion(s2, 2, kernelStart, kernelStart, n, PAGE_WRITABLE).value;
    EntriesMapped(s3, es);
  }

  lemma LowMemory()
    ensures Fits(2, 0, 0, Pages(0x20_0000, 2))
    ensures forall a: nat :: a < VIRT_LIMIT ==> (a < SIZE_2M <==> InRegion(2, 0, Pages(0x20_0000, 2), a))
  {
    assert Pages(0x20_0000, 2) == 1;
    assert Offset(2, 1) == SIZE_2M;
  }

  /** The page-table pool lies in the kernel image, so the tables stay reachable after the switch. */
  lemma InitMapsPool(s: Tables, kernelStart: nat, kernelEnd: nat, es: seq<MmapEntry>, a: nat)
    requires Wf(s) && s.used == 0
    requires kernelStart <= s.base && s.base + POOL_BYTES <= kernelEnd <= VIRT_LIMIT - 2 * SIZE_2M && EntriesFit(es)
    requires Init(s, kernelStart, kernelEnd, es).Some?
    requires s.base <= a < s.base + POOL_BYTES
    ensures Identity(Init(s, kernelStart, kernelEnd, es).value, a)
  {
    InitMapsEverything(s, kernelStart, kernelEnd, es);
  }

  // ----- device memory -----------------------------------------------------

  /** `paging_map_mmio_region`, and `paging_map_mmio` with `PAGE_WRITABLE` alone. */
  function MapMmio(s: Tables, phys: nat, bytes: nat, flags: nat): (r: Option<Tables>)
    requires Wf(s)
    ensures r.Some? ==> Wf(r.value)
  {
    var lo := AlignDown(phys, SIZE_4K);
    var hi := RoundUp4K((phys + bytes) % U64);
    MapRegion(s, 1, lo, lo, Pages((hi - lo) % U64, 1), flags)
  }

  const UNCACHED: nat := 0x12 // PAGE_WRITABLE | PAGE_CACHE_DISABLE

  lemma UncachedFlagWord()
    ensures UNCACHED == Or(PAGE_WRITABLE, PAGE_CACHE_DISABLE)
    ensures FlagsOnly(UNCACHED) && Writable(UNCACHED)
    ensures Or(LowFlags(UNCACHED), PAGE_PRESENT) == 0x13 && CacheDisabled(0x13)
    ensures HighFlags(UNCACHED) == 0
  {
    OrDouble(2, 16);
    OrDouble(1, 8);
    OrDouble(0x12, 1);
  }

  lemma RoundUp4KFacts(x: nat)
    requires x <= VIRT_LIMIT
    ensures RoundUp4K(x) % SIZE_4K == 0 && x <= RoundUp4K(x) <= VIRT_LIMIT && RoundUp4K(x) < x + SIZE_4K
    ensures AlignDown(x, SIZE_4K) % SIZE_4K == 0 && AlignDown(x, SIZE_4K) <= x
    ensures AlignDown(AlignDown(x, SIZE_4K), SIZE_4K) == AlignDown(x, SIZE_4K)
  {
  }

  lemma PagesOfMultiple4K(hi: nat, lo: nat)
    requires lo <= hi && hi % SIZE_4K == 0 && lo % SIZE_4K == 0
    ensures Offset(1, Pages(hi - lo, 1)) == hi - lo
  {
    var q := (hi - lo) / SIZE_4K;
    assert hi - lo == SIZE_4K * q;
    ModShift(0xFFF, SIZE_4K, q);
  }

  lemma MmioPages(phys: nat, bytes: nat)
    requires phys + bytes <= VIRT_LIMIT
    ensures var lo, hi := AlignDown(phys, SIZE_4K), RoundUp4K((phys + bytes) % U64);
            && lo <= phys && phys + bytes <= hi < phys + bytes + SIZE_4K && hi <= VIRT_LIMIT
            && (hi - lo) % U64 == hi - lo
            && AlignDown(lo, SIZE_4K) == lo
            && Offset(1, Pages(hi - lo, 1)) == hi - lo
  {
    hide AlignDown, RoundUp4K, Pages, Offset;
    var end := phys + bytes;
    assert end % U64 == end;
    RoundUp4KFacts(phys);
    RoundUp4KFacts(end);
    PagesOfMultiple4K(RoundUp4K(end), AlignDown(phys, SIZE_4K));
  }

  /** Every byte of a device region becomes an uncached identity mapping, and nothing outside its
      pages changes, provided no part of it was under a 2 MiB page. */
  lemma MmioMapped(s: Tables, phys: nat, bytes: nat)
    requires IsTree(s) && phys + bytes <= VIRT_LIMIT
    requires MapMmio(s, phys, bytes, UNCACHED).Some?
    requires forall a: nat :: AlignDown(phys, SIZE_4K) <= a < RoundUp4K((phys + bytes) % U64) ==> !UnderHugePage(s, a)
    ensures var s' := MapMmio(s, phys, bytes, UNCACHED).value;
            && IsTree(s') && s'.stray == s.stray
            && (forall a: nat :: phys <= a < phys + bytes ==> Walk(s', a) == Page(a, SIZE_4K, 0x13, 0, true))
            && (forall a: nat :: a < VIRT_LIMIT && !(AlignDown(phys, SIZE_4K) <= a < RoundUp4K((phys + bytes) % U64)) ==>
                  Walk(s', a) == Walk(s, a))
  {
    hide WalkFrom, MapRegion, LowFlags, HighFlags, Writable, AlignDown, RoundUp4K, Pages, Offset, CacheDisabled;
    UncachedFlagWord();
    MmioPages(phys, bytes);
    var lo, hi := AlignDown(phys, SIZE_4K), RoundUp4K((phys + bytes) % U64);
    var n := Pages(hi - lo, 1);
    forall va: nat | InRegion(1, lo, n, va)
      ensures !UnderHugePage(s, va)
    {
      WalkLow(s, va);
      assert lo <= va % VIRT_LIMIT < hi;
    }
    RegionExact(s, 1, lo, lo, n, UNCACHED);
    var s' := MapMmio(s, phys, bytes, UNCACHED).value;
    forall a: nat | a < VIRT_LIMIT
      ensures phys <= a < phys + bytes ==> Walk(s', a) == Page(a, SIZE_4K, 0x13, 0, true)
      ensures !(lo <= a < hi) ==> Walk(s', a) == Walk(s, a)
    {
      assert a % VIRT_LIMIT == a;
      assert Walk(s', a) == if InRegion(1, lo, n, a) then Placed(1, lo, lo, UNCACHED, a) else Walk(s, a);
    }
  }

  /** The walk depends on the low 48 bits of the address only, as far as the page size goes. */
  lemma WalkLow(s: Tables, va: nat)
    requires Wf(s)
    ensures UnderHugePage(s, va) == UnderHugePage(s, va % VIRT_LIMIT)
  {
    WalkLowFrom(s, s.base, 4, va, true);
  }

  lemma {:induction false} WalkLowFrom(s: Tables, table: nat, level: nat, va: nat, w: bool)
    requires Wf(s) && level <= 4
    ensures WalkFrom(s, table, level, va, w).Page? == WalkFrom(s, table, level, va % VIRT_LIMIT, w).Page?
    ensures WalkFrom(s, table, level, va, w).Page? ==>
            WalkFrom(s, table, level, va, w).pageSize == WalkFrom(s, table, level, va % VIRT_LIMIT, w).pageSize
    decreases level
  {
    if level > 0 && InPool(s, table) {
      SameIndexLow(va, level);
      hide LowFlags, HighFlags, AddressField, AlignDown, Index;
      var e := s.mem[TableAt(s, table)][Index(va, level)];
      WalkLowFrom(s, AddressField(e), level - 1, va, w && Writable(e));
    }
  }

  lemma SameIndexLow(va: nat, level: nat)
    requires 1 <= level <= 4
    ensures Index(va, level) == Index(va % VIRT_LIMIT, level)
  {
    IndexIgnoresHigh(va, level);
    assert va % VIRT_LIMIT % VIRT_LIMIT == va % VIRT_LIMIT;
    IndexIgnoresHigh(va % VIRT_LIMIT, level);
  }

  /** The failing case met in practice: once low memory has been mapped with a 2 MiB page, as
      `paging_init` does first, a 4 KiB mapping of address 0 changes no translation at all; address 0
      keeps its identity mapping. */
  lemma Map4KIgnoredExample()
    ensures var s0 := Tables(SIZE_2M, seq(POOL_TABLES, _ => ZeroTable()), 0, []);
            && Wf(s0) && AllocTable(s0).Some?
            && var low := MapRegion(AllocTable(s0).value, 2, 0, 0, Pages(0x20_0000, 2), PAGE_WRITABLE);
            && low.Some? && IsTree(low.value)
            && var r := MapPage4K(low.value, 0, 0x5000, PAGE_WRITABLE);
            && r.Some? && (forall va: nat :: Walk(r.value, va) == Walk(low.value, va))
            && Walk(r.value, 0) == Mapped2M(0, PAGE_WRITABLE, 0) && Walk(r.value, 0) != Mapped4K(0x5000, PAGE_WRITABLE, 0)
  {
    hide WalkFrom, MapPage4K, MapPage2M, AllocTable, Directory, Ensure, AlignDown, LowFlags, HighFlags, Writable, Or, Index;
    var zero: seq<seq<nat>> := seq(POOL_TABLES, _ => ZeroTable());
    var s0 := Tables(SIZE_2M, zero, 0, []);
    FreshRoot(s0);
    var s1 := AllocTable(s0).value;
    WritableFlagWord();
    LowMemory();
    OneLowPage();
    RegionBudget(s1, 2, 0, 0, 1, PAGE_WRITABLE);
    RegionExact(s1, 2, 0, 0, 1, PAGE_WRITABLE);
    var s2 := MapRegion(s1, 2, 0, 0, 1, PAGE_WRITABLE).value;
    assert Walk(s2, 0) == Placed(2, 0, 0, PAGE_WRITABLE, 0);
    Map4KUnderHugePage(s2, 0, 0x5000, PAGE_WRITABLE);
    PointerInFrame(s2, 0);
    assert MapPage4K(s2, 0, 0x5000, PAGE_WRITABLE).Some?;
    Map4KTakesEffectIff(s2, 0, 0x5000, PAGE_WRITABLE);
    var s3 := MapPage4K(s2, 0, 0x5000, PAGE_WRITABLE).value;
    forall va: nat
      ensures Walk(s3, va) == Walk(s2, va)
    {
      WalkIgnoresStray(s2, s3.stray, s2.base, 4, va, true);
    }
  }

  lemma OneLowPage()
    ensures Pages(0x20_0000, 2) == 1 && InRegion(2, 0, 1, 0) && AlignDown(0, SIZE_2M) == 0
    ensures Budget(0, 2, 1) == 2
  {
    hide Slots;
    assert Offset(2, 1) == SIZE_2M;
    FirstSlot(0, 2, 4);
    FirstSlot(0, 2, 3);
  }

  // ----- when `paging_init` cannot panic -----------------------------------

  /** Tables that mapping an entry may take. */
  function EntryBudget(e: MmapEntry): (n: nat)
  {
    if e.kind != USABLE_RAM then 0
    else
      var lo := AlignDown(e.base, SIZE_2M);
      Budget(lo, 2, Pages((RoundUp2M((e.base + e.length) % U64) - lo) % U64, 2))
  }

  function EntriesBudget(es: seq<MmapEntry>): (n: nat)
  {
    if es == [] then 0 else EntriesBudget(es[..|es| - 1]) + EntryBudget(es[|es| - 1])
  }

  lemma {:induction false} EntriesWithinBudget(s: Tables, es: seq<MmapEntry>)
    requires IsTree(s) && EntriesFit(es) && s.used + EntriesBudget(es) <= POOL_TABLES
    ensures MapEntries(s, es).Some? && MapEntries(s, es).value.used <= s.used + EntriesBudget(es)
  {
    hide WalkFrom, MapRegion, AlignDown, RoundUp2M, Pages, Fits, Budget;
    if es != [] {
      var init, e := es[..|es| - 1], es[|es| - 1];
      EntriesWithinBudget(s, init);
      EntriesMapped(s, init);
      var s1 := MapEntries(s, init).value;
      if e.kind == USABLE_RAM {
        EntryCovered(e);
        WritableFlagWord();
        var lo := AlignDown(e.base, SIZE_2M);
        RegionBudget(s1, 2, lo, lo, Pages((RoundUp2M((e.base + e.length) % U64) - lo) % U64, 2), PAGE_WRITABLE);
      }
    }
  }

  /** One root, two tables for low memory, and the budgets of kernel and entries: if these fit the pool,
      `paging_init` does not panic. */
  lemma InitWithinBudget(s: Tables, kernelStart: nat, kernelEnd: nat, es: seq<MmapEntry>)
    requires Wf(s) && s.used == 0
    requires kernelStart <= kernelEnd <= VIRT_LIMIT - 2 * SIZE_2M && EntriesFit(es)
    requires 3 + Budget(kernelStart, 2, Pages(KernelMapSize(kernelStart, kernelEnd), 2)) + EntriesBudget(es) <= POOL_TABLES
    ensures Init(s, kernelStart, kernelEnd, es).Some?
  {
    hide WalkFrom, MapRegion, RoundUp2M, Pages, MapEntries, AllocTable, Fits, KernelMapSize, Budget, AlignDown, EntriesBudget, Or;
    FreshRoot(s);
    var s1 := AllocTable(s).value;
    LowMemory();
    OneLowPage();
    WritableFlagWord();
    RegionBudget(s1, 2, 0, 0, Pages(0x20_0000, 2), PAGE_WRITABLE);
    IdentityRegion(s1, 0, Pages(0x20_0000, 2));
    var s2 := MapRegion(s1, 2, 0, 0, Pages(0x20_0000, 2), PAGE_WRITABLE).value;
    KernelCovered(kernelStart, kernelEnd);
    var n := Pages(KernelMapSize(kernelStart, kernelEnd), 2);
    RegionBudget(s2, 2, kernelStart, kernelStart, n, PAGE_WRITABLE);
    IdentityRegion(s2, kernelStart, n);
    EntriesWithinBudget(MapRegion(s2, 2, kernelStart, kernelStart, n, PAGE_WRITABLE).value, es);
  }
}
