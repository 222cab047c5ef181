/** The region loops: which addresses they map, how many tables they consume, and when they cannot
    run out.  `size` selects the page size: level 1 for 4 KiB pages, level 2 for 2 MiB pages. */
module PageRegions {
  import opened Bits
  import opened Options
  import opened PageEntries
  import opened PageTables
  import opened PageMapping
  import opened PageRefinement

  /** Bytes in `n` pages. */
  function Offset(size: nat, n: nat): (r: nat) { Span(size) * n }

  function MapPage(s: Tables, size: nat, va: nat, pa: nat, flags: nat): (r: Option<Tables>)
    requires Wf(s)
    ensures r.Some? ==> Wf(r.value)
  {
    if size == 2 then MapPage2M(s, va, pa, flags) else MapPage4K(s, va, pa, flags)
  }

  /** `n` iterations of the region loop; addresses wrap at 64 bits as in the source. */
  function MapRegion(s: Tables, size: nat, va: nat, pa: nat, n: nat, flags: nat): (r: Option<Tables>)
    requires Wf(s)
    ensures r.Some? ==> Wf(r.value)
  {
    if n == 0 then Some(s)
    else
      match MapRegion(s, size, va, pa, n - 1, flags)
      case None => None
      case Some(s1) =>
        MapPage(s1, size, (va + Offset(size, n - 1)) % U64, (pa + Offset(size, n - 1)) % U64, flags)
  }

  function Mapped(size: nat, pa: nat, flags: nat, va: nat): (r: Walked)
    ensures r.Page?
  {
    if size == 2 then Mapped2M(pa, flags, va) else Mapped4K(pa, flags, va)
  }

  /** The first `n` pages from the page of `va`. */
  predicate InRegion(size: nat, va: nat, n: nat, va': nat)
  {
    AlignDown(va, Span(size)) <= va' % VIRT_LIMIT < AlignDown(va, Span(size)) + Offset(size, n)
  }

  /** The translation a region mapping gives: the frame of `pa`, displaced as `va'` is from the page of `va`. */
  function Placed(size: nat, va: nat, pa: nat, flags: nat, va': nat): (r: Walked)
  {
    var d := va' % VIRT_LIMIT - AlignDown(va, Span(size));
    if d < 0 then Fault
    else
      var low := Or(LowFlags(flags), PAGE_PRESENT);
      Page(AlignDown(pa, Span(size)) + d, Span(size), if size == 2 then Or(low, PAGE_HUGE) else low,
           HighFlags(flags), Writable(flags))
  }

  ghost function Need(s: Tables, sh: Shape, size: nat, va: nat): (n: nat)
    requires Shaped(s, sh) && 1 <= size <= 2
  {
    Missing(s, sh, va, 3) + Missing(s, sh, va, 2) + (if size == 1 then Missing(s, sh, va, 1) else 0)
  }

  ghost predicate Clear(s: Tables, size: nat, va: nat)
    requires Wf(s)
  {
    size == 1 ==> !UnderHugePage(s, va)
  }

  lemma MapStep(s: Tables, sh: Shape, size: nat, va: nat, pa: nat, flags: nat) returns (s': Tables, sh': Shape)
    requires Shaped(s, sh) && 1 <= size <= 2 && pa < PHYS_LIMIT && FlagsOnly(flags) && Clear(s, size, va)
    requires s.used + Need(s, sh, size, va) <= POOL_TABLES
    ensures MapPage(s, size, va, pa, flags) == Some(s')
    ensures Shaped(s', sh') && KeepsUpper(s, sh, s', sh', size)
    ensures forall va': nat :: Walk(s', va') == if SamePage(va, va', Span(size)) then Mapped(size, pa, flags, va') else Walk(s, va')
    ensures PathTable(s', sh', va, size).Some?
    ensures s'.used == s.used + Need(s, sh, size, va)
    ensures s'.base == s.base && s'.stray == s.stray
  {
    if size == 2 {
      s', sh' := Map2MStep(s, sh, va, pa, flags);
    } else {
      HugeLeafIsWalk(s, sh, va);
      s', sh' := Map4KStep(s, sh, va, pa, flags);
    }
  }

  lemma MapPanics(s: Tables, sh: Shape, size: nat, va: nat, pa: nat, flags: nat)
    requires Shaped(s, sh) && 1 <= size <= 2 && Clear(s, size, va)
    requires s.used + Need(s, sh, size, va) > POOL_TABLES
    ensures MapPage(s, size, va, pa, flags) == None
  {
    if s.used + Missing(s, sh, va, 3) + Missing(s, sh, va, 2) > POOL_TABLES {
      DirectoryPanics(s, sh, va);
    } else {
      HugeLeafIsWalk(s, sh, va);
      Map4KPanics(s, sh, va, pa, flags);
    }
  }

  // ----- arithmetic of pages -----------------------------------------------

  lemma NthPage2M(va: nat, n: nat, va': nat)
    requires va + SIZE_2M * n < VIRT_LIMIT
    ensures SamePage(va + SIZE_2M * n, va', SIZE_2M) <==>
            AlignDown(va, SIZE_2M) + SIZE_2M * n <= va' % VIRT_LIMIT < AlignDown(va, SIZE_2M) + SIZE_2M * n + SIZE_2M
  {
    var q := va / SIZE_2M;
    ModShift(va, SIZE_2M, n);
    assert AlignDown(va, SIZE_2M) == SIZE_2M * q;
  }

  lemma NthPage4K(va: nat, n: nat, va': nat)
    requires va + SIZE_4K * n < VIRT_LIMIT
    ensures SamePage(va + SIZE_4K * n, va', SIZE_4K) <==>
            AlignDown(va, SIZE_4K) + SIZE_4K * n <= va' % VIRT_LIMIT < AlignDown(va, SIZE_4K) + SIZE_4K * n + SIZE_4K
  {
    var q := va / SIZE_4K;
    ModShift(va, SIZE_4K, n);
    assert AlignDown(va, SIZE_4K) == SIZE_4K * q;
  }

  lemma OffsetStep(size: nat, n: nat)
    ensures Offset(size, n + 1) == Offset(size, n) + Span(size)
    ensures Offset(size, 0) == 0
  {
  }

  /** The addresses of `n + 1` pages are those of the first `n` and of the next one. */
  lemma RegionNext(size: nat, va: nat, n: nat, va': nat)
    requires 1 <= size <= 2 && va + Offset(size, n) < VIRT_LIMIT
    ensures InRegion(size, va, n + 1, va') <==>
            InRegion(size, va, n, va') || SamePage(va + Offset(size, n), va', Span(size))
  {
    OffsetStep(size, n);
    if size == 2 {
      NthPage2M(va, n, va');
    } else {
      NthPage4K(va, n, va');
    }
  }

  lemma NthFrame(size: nat, va: nat, pa: nat, n: nat, flags: nat, va': nat)
    requires 1 <= size <= 2 && va + Offset(size, n) < VIRT_LIMIT
    requires SamePage(va + Offset(size, n), va', Span(size))
    ensures Mapped(size, pa + Offset(size, n), flags, va') == Placed(size, va, pa, flags, va')
  {
    hide LowFlags, HighFlags, Writable;
    if size == 2 {
      FrameArith2M(va, pa, n, va');
    } else {
      FrameArith4K(va, pa, n, va');
    }
  }

  lemma AlignShift(pa: nat, n: nat)
    ensures AlignDown(pa + SIZE_2M * n, SIZE_2M) == AlignDown(pa, SIZE_2M) + SIZE_2M * n
    ensures AlignDown(pa + SIZE_4K * n, SIZE_4K) == AlignDown(pa, SIZE_4K) + SIZE_4K * n
  {
    ModShift(pa, SIZE_2M, n);
    ModShift(pa, SIZE_4K, n);
  }

  lemma LowOffset(va: nat)
    ensures va % VIRT_LIMIT % SIZE_2M == va % SIZE_2M
    ensures va % VIRT_LIMIT % SIZE_4K == va % SIZE_4K
  {
    var h, low := va / VIRT_LIMIT, va % VIRT_LIMIT;
    assert va == low + SIZE_2M * (0x800_0000 * h);
    assert va == low + SIZE_4K * (0x10_0000_0000 * h);
    ModShift(low, SIZE_2M, 0x800_0000 * h);
    ModShift(low, SIZE_4K, 0x10_0000_0000 * h);
  }

  lemma FrameArith2M(va: nat, pa: nat, n: nat, va': nat)
    requires va + SIZE_2M * n < VIRT_LIMIT && SamePage(va + SIZE_2M * n, va', SIZE_2M)
    ensures AlignDown(va, SIZE_2M) <= va' % VIRT_LIMIT
    ensures AlignDown(pa + SIZE_2M * n, SIZE_2M) + va' % SIZE_2M
            == AlignDown(pa, SIZE_2M) + (va' % VIRT_LIMIT - AlignDown(va, SIZE_2M))
  {
    var low := va' % VIRT_LIMIT;
    assert low / SIZE_2M == va / SIZE_2M + n by { ModShift(va, SIZE_2M, n); }
    assert AlignDown(va, SIZE_2M) == SIZE_2M * (va / SIZE_2M);
    assert low == SIZE_2M * (low / SIZE_2M) + va' % SIZE_2M by { LowOffset(va'); }
    assert AlignDown(pa + SIZE_2M * n, SIZE_2M) == AlignDown(pa, SIZE_2M) + SIZE_2M * n by { AlignShift(pa, n); }
  }

  lemma FrameArith4K(va: nat, pa: nat, n: nat, va': nat)
    requires va + SIZE_4K * n < VIRT_LIMIT && SamePage(va + SIZE_4K * n, va', SIZE_4K)
    ensures AlignDown(va, SIZE_4K) <= va' % VIRT_LIMIT
    ensures AlignDown(pa + SIZE_4K * n, SIZE_4K) + va' % SIZE_4K
            == AlignDown(pa, SIZE_4K) + (va' % VIRT_LIMIT - AlignDown(va, SIZE_4K))
  {
    var low := va' % VIRT_LIMIT;
    assert low / SIZE_4K == va / SIZE_4K + n by { ModShift(va, SIZE_4K, n); }
    assert AlignDown(va, SIZE_4K) == SIZE_4K * (va / SIZE_4K);
    assert low == SIZE_4K * (low / SIZE_4K) + va' % SIZE_4K by { LowOffset(va'); }
    assert AlignDown(pa + SIZE_4K * n, SIZE_4K) == AlignDown(pa, SIZE_4K) + SIZE_4K * n by { AlignShift(pa, n); }
  }

  // ----- the loop ----------------------------------------------------------

  /** Entries at `level` that a region touches. */
  function Slots(va: nat, size: nat, n: nat, level: nat): (r: nat)
    requires n > 0
  {
    var last := va + Offset(size, n - 1);
    SpanMonotone(va, last, level);
    last / Span(level) - va / Span(level) + 1
  }

  lemma SpanMonotone(a: nat, b: nat, level: nat)
    requires a <= b
    ensures a / Span(level) <= b / Span(level)
  {
  }

  /** At most one table per 512 GiB slot and per 1 GiB slot touched, and for 4 KiB pages one per 2 MiB slot. */
  function Budget(va: nat, size: nat, n: nat): (r: nat)
  {
    if n == 0 then 0
    else Slots(va, size, n, 4) + Slots(va, size, n, 3) + (if size == 1 then Slots(va, size, n, 2) else 0)
  }

  /** Addresses in one slot of `level + 1` share the table at `level`. */
  lemma SameSlot(s: Tables, sh: Shape, va: nat, va': nat, level: nat)
    requires Shaped(s, sh) && 1 <= level <= 3 && va < VIRT_LIMIT && va' < VIRT_LIMIT
    requires va / Span(level + 1) == va' / Span(level + 1)
    ensures PathTable(s, sh, va, level) == PathTable(s, sh, va', level)
  {
    hide Index, Span;
    SamePageThrough(s, sh, va, va', level + 1, level + 1);
  }

  /** Moving on by one page takes at most one new slot at each level. */
  lemma NextSlot(s: Tables, sh: Shape, va: nat, size: nat, n: nat, level: nat)
    requires Shaped(s, sh) && 1 <= size <= 2 && n > 0 && size <= level <= 3
    requires va + Offset(size, n) < VIRT_LIMIT
    requires PathTable(s, sh, va + Offset(size, n - 1), level).Some?
    ensures Slots(va, size, n + 1, level + 1) >= Slots(va, size, n, level + 1) + Missing(s, sh, va + Offset(size, n), level)
  {
    hide Index, Span, PathTable, Offset;
    var p, v := va + Offset(size, n - 1), va + Offset(size, n);
    OffsetStep(size, n - 1);
    SpanMonotone(p, v, level + 1);
    if p / Span(level + 1) == v / Span(level + 1) {
      SameSlot(s, sh, p, v, level);
    }
  }

  lemma NextBudget(s: Tables, sh: Shape, va: nat, size: nat, n: nat)
    requires Shaped(s, sh) && 1 <= size <= 2
    requires va + Offset(size, n) < VIRT_LIMIT
    requires n > 0 ==> PathTable(s, sh, va + Offset(size, n - 1), size).Some?
    ensures Budget(va, size, n + 1) >= Budget(va, size, n) + Need(s, sh, size, va + Offset(size, n))
  {
    hide Slots, PathTable;
    if n > 0 {
      SomeAbove(s, sh, va + Offset(size, n - 1), size, 3);
      SomeAbove(s, sh, va + Offset(size, n - 1), size, 2);
      NextSlot(s, sh, va, size, n, 3);
      NextSlot(s, sh, va, size, n, 2);
      if size == 1 {
        NextSlot(s, sh, va, size, n, 1);
      }
    } else {
      FirstSlot(va, size, 4);
      FirstSlot(va, size, 3);
      FirstSlot(va, size, 2);
    }
  }

  lemma FirstSlot(va: nat, size: nat, level: nat)
    ensures Slots(va, size, 1, level) == 1
  {
  }

  lemma {:induction false} SomeAbove(s: Tables, sh: Shape, va: nat, l: nat, l': nat)
    requires Shaped(s, sh) && 1 <= l <= l' <= 4 && PathTable(s, sh, va, l).Some?
    ensures PathTable(s, sh, va, l').Some?
  {
    if PathTable(s, sh, va, l').None? {
      NoneBelow(s, sh, va, l', l);
    }
  }

  /** A region that lies inside the address spaces. */
  predicate Fits(size: nat, va: nat, pa: nat, n: nat)
  {
    && 1 <= size <= 2
    && AlignDown(va, Span(size)) + Offset(size, n) <= VIRT_LIMIT
    && AlignDown(pa, Span(size)) + Offset(size, n) <= PHYS_LIMIT
  }

  lemma FitsPage(size: nat, va: nat, pa: nat, n: nat)
    requires Fits(size, va, pa, n + 1)
    ensures Fits(size, va, pa, n)
    ensures va + Offset(size, n) < VIRT_LIMIT && pa + Offset(size, n) < PHYS_LIMIT
    ensures (va + Offset(size, n)) % U64 == va + Offset(size, n)
    ensures (pa + Offset(size, n)) % U64 == pa + Offset(size, n)
  {
  }

  /** What the loop has established after `n` pages. */
  ghost predicate RegionDone(s: Tables, sh: Shape, s': Tables, sh': Shape, size: nat, va: nat, pa: nat, n: nat, flags: nat) {
    && Shaped(s, sh) && Shaped(s', sh') && 1 <= size
    && KeepsUpper(s, sh, s', sh', size)
    && (forall va': nat :: Walk(s', va') == if InRegion(size, va, n, va') then Placed(size, va, pa, flags, va') else Walk(s, va'))
    && (forall j :: 0 <= j < n && size <= 4 ==> PathTable(s', sh', va + Offset(size, j), size).Some?)
    && s'.base == s.base && s'.stray == s.stray
  }

  /** 4 KiB regions must not lie under 2 MiB pages. */
  ghost predicate RegionClear(s: Tables, size: nat, va: nat, n: nat)
    requires Wf(s)
  {
    size == 1 ==> forall va': nat :: InRegion(size, va, n, va') ==> !UnderHugePage(s, va')
  }

  lemma KeptPath(s: Tables, sh: Shape, s': Tables, sh': Shape, size: nat, va: nat, pa: nat, n: nat, flags: nat, v: nat)
    requires RegionDone(s, sh, s', sh', size, va, pa, n, flags) && size <= 4 && PathTable(s, sh, v, size).Some?
    ensures PathTable(s', sh', v, size).Some?
  {
  }

  lemma LastPath(s: Tables, sh: Shape, s': Tables, sh': Shape, size: nat, va: nat, pa: nat, n: nat, flags: nat)
    requires RegionDone(s, sh, s', sh', size, va, pa, n, flags) && size <= 4
    ensures n > 0 ==> PathTable(s', sh', va + Offset(size, n - 1), size).Some?
  {
  }

  lemma RegionExtend(s: Tables, sh: Shape, s1: Tables, sh1: Shape, s': Tables, sh': Shape,
                     size: nat, va: nat, pa: nat, n: nat, flags: nat)
    requires Fits(size, va, pa, n + 1)
    requires RegionDone(s, sh, s1, sh1, size, va, pa, n, flags)
    requires Shaped(s', sh') && KeepsUpper(s1, sh1, s', sh', size)
    requires var v := va + Offset(size, n);
             && (forall va': nat :: Walk(s', va') ==
                   if SamePage(v, va', Span(size)) then Mapped(size, pa + Offset(size, n), flags, va') else Walk(s1, va'))
             && PathTable(s', sh', v, size).Some?
    requires s'.base == s1.base && s'.stray == s1.stray
    ensures RegionDone(s, sh, s', sh', size, va, pa, n + 1, flags)
  {
    hide WalkFrom, AlignDown, Mapped, Placed, InRegion, SamePage, Offset, PathTable;
    FitsPage(size, va, pa, n);
    var v := va + Offset(size, n);
    forall va': nat
      ensures Walk(s', va') == if InRegion(size, va, n + 1, va') then Placed(size, va, pa, flags, va') else Walk(s, va')
    {
      RegionNext(size, va, n, va');
      assert Walk(s1, va') == if InRegion(size, va, n, va') then Placed(size, va, pa, flags, va') else Walk(s, va');
      if SamePage(v, va', Span(size)) {
        NthFrame(size, va, pa, n, flags, va');
      }
    }
  }

  /** The page about to be mapped is not under a 2 MiB page. */
  lemma NextClear(s: Tables, sh: Shape, s1: Tables, sh1: Shape, size: nat, va: nat, pa: nat, n: nat, flags: nat)
    requires Fits(size, va, pa, n + 1) && RegionDone(s, sh, s1, sh1, size, va, pa, n, flags)
    requires RegionClear(s, size, va, n + 1)
    ensures Clear(s1, size, va + Offset(size, n))
  {
    hide WalkFrom, AlignDown, Offset, PathTable;
    FitsPage(size, va, pa, n);
    var v := va + Offset(size, n);
    RegionNext(size, va, n, v);
  }

  /** A region within the remaining budget is mapped without exhausting the pool. */
  lemma {:induction false} RegionWithinBudget(s: Tables, sh: Shape, size: nat, va: nat, pa: nat, n: nat, flags: nat)
    returns (s': Tables, sh': Shape)
    requires Shaped(s, sh) && Fits(size, va, pa, n) && FlagsOnly(flags) && RegionClear(s, size, va, n)
    requires s.used + Budget(va, size, n) <= POOL_TABLES
    ensures MapRegion(s, size, va, pa, n, flags) == Some(s')
    ensures RegionDone(s, sh, s', sh', size, va, pa, n, flags) && Shaped(s', sh')
    ensures s'.used <= s.used + Budget(va, size, n)
  {
    hide WalkFrom, AlignDown, Mapped, MapPage, Budget, PathTable, Slots, Offset, InRegion, Placed, SamePage, Need,
         RegionDone, FlagsOnly;
    if n == 0 {
      s', sh' := s, sh;
      EmptyRegion(s, sh, size, va, pa, flags);
    } else {
      FitsPage(size, va, pa, n - 1);
      ClearPrefix(s, size, va, n - 1);
      BudgetMonotone(va, size, n - 1);
      var s1, sh1 := RegionWithinBudget(s, sh, size, va, pa, n - 1, flags);
      NextClear(s, sh, s1, sh1, size, va, pa, n - 1, flags);
      LastPath(s, sh, s1, sh1, size, va, pa, n - 1, flags);
      NextBudget(s1, sh1, va, size, n - 1);
      s', sh' := MapStep(s1, sh1, size, va + Offset(size, n - 1), pa + Offset(size, n - 1), flags);
      RegionExtend(s, sh, s1, sh1, s', sh', size, va, pa, n - 1, flags);
    }
  }

  lemma EmptyRegion(s: Tables, sh: Shape, size: nat, va: nat, pa: nat, flags: nat)
    requires Shaped(s, sh) && 1 <= size <= 2
    ensures RegionDone(s, sh, s, sh, size, va, pa, 0, flags)
    ensures Budget(va, size, 0) == 0
  {
  }

  lemma ClearPrefix(s: Tables, size: nat, va: nat, n: nat)
    requires Wf(s) && 1 <= size <= 2 && RegionClear(s, size, va, n + 1)
    ensures RegionClear(s, size, va, n)
  {
    forall va': nat | InRegion(size, va, n, va')
      ensures InRegion(size, va, n + 1, va')
    {
      OffsetStep(size, n);
    }
  }

  lemma BudgetMonotone(va: nat, size: nat, n: nat)
    requires 1 <= size <= 2
    ensures Budget(va, size, n) <= Budget(va, size, n + 1)
  {
    if n > 0 {
      var p, v := va + Offset(size, n - 1), va + Offset(size, n);
      assert p <= v;
      SpanMonotone(p, v, 4);
      SpanMonotone(p, v, 3);
      SpanMonotone(p, v, 2);
    }
  }

  /** Whatever the budget, a region that is mapped is mapped exactly. */
  lemma {:induction false} RegionWhenMapped(s: Tables, sh: Shape, size: nat, va: nat, pa: nat, n: nat, flags: nat)
    returns (s': Tables, sh': Shape)
    requires Shaped(s, sh) && Fits(size, va, pa, n) && FlagsOnly(flags) && RegionClear(s, size, va, n)
    requires MapRegion(s, size, va, pa, n, flags).Some?
    ensures MapRegion(s, size, va, pa, n, flags) == Some(s')
    ensures RegionDone(s, sh, s', sh', size, va, pa, n, flags) && Shaped(s', sh')
  {
    hide WalkFrom, AlignDown, Mapped, MapPage, PathTable, Offset, InRegion, Placed, SamePage, Need,
         RegionDone, FlagsOnly;
    if n == 0 {
      s', sh' := s, sh;
      EmptyRegion(s, sh, size, va, pa, flags);
    } else {
      FitsPage(size, va, pa, n - 1);
      ClearPrefix(s, size, va, n - 1);
      var s1, sh1 := RegionWhenMapped(s, sh, size, va, pa, n - 1, flags);
      NextClear(s, sh, s1, sh1, size, va, pa, n - 1, flags);
      var v := va + Offset(size, n - 1);
      if s1.used + Need(s1, sh1, size, v) > POOL_TABLES {
        MapPanics(s1, sh1, size, v, pa + Offset(size, n - 1), flags);
      }
      s', sh' := MapStep(s1, sh1, size, v, pa + Offset(size, n - 1), flags);
      RegionExtend(s, sh, s1, sh1, s', sh', size, va, pa, n - 1, flags);
    }
  }

  /** With every table already in place, nothing is consumed. */
  lemma {:induction false} RegionAllocated(s: Tables, sh: Shape, size: nat, va: nat, pa: nat, n: nat, flags: nat)
    returns (s': Tables, sh': Shape)
    requires Shaped(s, sh) && Fits(size, va, pa, n) && FlagsOnly(flags) && RegionClear(s, size, va, n)
    requires forall j :: 0 <= j < n ==> PathTable(s, sh, va + Offset(size, j), size).Some?
    ensures MapRegion(s, size, va, pa, n, flags) == Some(s')
    ensures RegionDone(s, sh, s', sh', size, va, pa, n, flags) && Shaped(s', sh')
    ensures s'.used == s.used
  {
    hide WalkFrom, AlignDown, Mapped, MapPage, PathTable, Offset, InRegion, Placed, SamePage, RegionDone, FlagsOnly;
    if n == 0 {
      s', sh' := s, sh;
      EmptyRegion(s, sh, size, va, pa, flags);
    } else {
      FitsPage(size, va, pa, n - 1);
      ClearPrefix(s, size, va, n - 1);
      var s1, sh1 := RegionAllocated(s, sh, size, va, pa, n - 1, flags);
      NextClear(s, sh, s1, sh1, size, va, pa, n - 1, flags);
      var v := va + Offset(size, n - 1);
      KeptPath(s, sh, s1, sh1, size, va, pa, n - 1, flags, v);
      SomeAbove(s1, sh1, v, size, 3);
      SomeAbove(s1, sh1, v, size, 2);
      s', sh' := MapStep(s1, sh1, size, v, pa + Offset(size, n - 1), flags);
      RegionExtend(s, sh, s1, sh1, s', sh', size, va, pa, n - 1, flags);
    }
  }

  // ----- the statements, free of shapes ------------------------------------

  /** A region mapping changes exactly the addresses of its pages, and lays them out in order. */
  lemma RegionExact(s: Tables, size: nat, va: nat, pa: nat, n: nat, flags: nat)
    requires IsTree(s) && Fits(size, va, pa, n) && FlagsOnly(flags) && RegionClear(s, size, va, n)
    requires MapRegion(s, size, va, pa, n, flags).Some?
    ensures var s' := MapRegion(s, size, va, pa, n, flags).value;
            && IsTree(s') && s'.stray == s.stray && s'.base == s.base
            && forall va': nat :: Walk(s', va') ==
                 if InRegion(size, va, n, va') then Placed(size, va, pa, flags, va') else Walk(s, va')
  {
    var sh :| Shaped(s, sh);
    var s', sh' := RegionWhenMapped(s, sh, size, va, pa, n, flags);
  }

  /** A region within the remaining budget never exhausts the pool. */
  lemma RegionBudget(s: Tables, size: nat, va: nat, pa: nat, n: nat, flags: nat)
    requires IsTree(s) && Fits(size, va, pa, n) && FlagsOnly(flags) && RegionClear(s, size, va, n)
    requires s.used + Budget(va, size, n) <= POOL_TABLES
    ensures MapRegion(s, size, va, pa, n, flags).Some?
    ensures MapRegion(s, size, va, pa, n, flags).value.used <= s.used + Budget(va, size, n)
  {
    var sh :| Shaped(s, sh);
    var s', sh' := RegionWithinBudget(s, sh, size, va, pa, n, flags);
  }

  /** Mapping a region again, to any frames and with any flags, consumes no table. */
  lemma RemapConsumesNothing(s: Tables, size: nat, va: nat, pa: nat, n: nat, flags: nat, pa': nat, flags': nat)
    requires IsTree(s) && Fits(size, va, pa, n) && FlagsOnly(flags) && RegionClear(s, size, va, n)
    requires Fits(size, va, pa', n) && FlagsOnly(flags')
    requires MapRegion(s, size, va, pa, n, flags).Some?
    ensures var s1 := MapRegion(s, size, va, pa, n, flags).value;
            && MapRegion(s1, size, va, pa', n, flags').Some?
            && MapRegion(s1, size, va, pa', n, flags').value.used == s1.used
  {
    hide WalkFrom, MapRegion, Offset, PathTable, InRegion;
    var sh :| Shaped(s, sh);
    var s1, sh1 := RegionWhenMapped(s, sh, size, va, pa, n, flags);
    assert RegionClear(s1, size, va, n);
    var s2, sh2 := RegionAllocated(s1, sh1, size, va, pa', n, flags');
  }

  // ----- any sequence of calls ---------------------------------------------

  /** One call of `map_page_4kb` (size 1) or `map_page_2mb` (size 2). */
  datatype Call = Call(size: nat, va: nat, pa: nat, flags: nat)

  function MapAll(s: Tables, calls: seq<Call>): (r: Option<Tables>)
    requires Wf(s)
    ensures r.Some? ==> Wf(r.value)
  {
    if calls == [] then Some(s)
    else
      match MapAll(s, calls[..|calls| - 1])
      case None => None
      case Some(s1) =>
        var c := calls[|calls| - 1];
        MapPage(s1, c.size, c.va, c.pa, c.flags)
  }

  /** The plain address map after the calls: the last call whose page holds `va` decides. */
  function Expect(calls: seq<Call>, va: nat, initial: Walked): (r: Walked)
  {
    if calls == [] then initial
    else
      var c := calls[|calls| - 1];
      if SamePage(c.va, va, Span(c.size)) then Mapped(c.size, c.pa, c.flags, va)
      else Expect(calls[..|calls| - 1], va, initial)
  }

  predicate CallOk(c: Call) { 1 <= c.size <= 2 && c.pa < PHYS_LIMIT && FlagsOnly(c.flags) }

  predicate Is2M(w: Walked) { w.Page? && w.pageSize == SIZE_2M }

  /** Seen from the plain map alone: no 4 KiB call is made for an address under a 2 MiB page. */
  ghost predicate CallsOk(s: Tables, calls: seq<Call>)
    requires Wf(s)
  {
    forall k :: 0 <= k < |calls| ==>
      && CallOk(calls[k])
      && (calls[k].size == 1 ==> !Is2M(Expect(calls[..k], calls[k].va, Walk(s, calls[k].va))))
  }

  lemma CallsPrefix(s: Tables, calls: seq<Call>)
    requires Wf(s) && calls != [] && CallsOk(s, calls)
    ensures CallsOk(s, calls[..|calls| - 1])
  {
    var init := calls[..|calls| - 1];
    forall k | 0 <= k < |init|
      ensures CallOk(init[k])
      ensures init[k].size == 1 ==> !Is2M(Expect(init[..k], init[k].va, Walk(s, init[k].va)))
    {
      assert init[k] == calls[k] && init[..k] == calls[..k];
    }
  }

  /** Any sequence of mapping calls that does not exhaust the pool keeps the tables a tree, writes
      nowhere else, and leaves every address translated as the plain map says. */
  lemma {:induction false} CallsRefineMap(s: Tables, calls: seq<Call>)
    requires IsTree(s) && CallsOk(s, calls) && MapAll(s, calls).Some?
    ensures var s' := MapAll(s, calls).value;
            && IsTree(s') && s'.stray == s.stray
            && forall va: nat :: Walk(s', va) == Expect(calls, va, Walk(s, va))
    decreases |calls|
  {
    hide WalkFrom, MapPage4K, MapPage2M, Mapped, SamePage, FlagsOnly;
    if calls != [] {
      var init, c := calls[..|calls| - 1], calls[|calls| - 1];
      CallsPrefix(s, calls);
      CallsRefineMap(s, init);
      var s1 := MapAll(s, init).value;
      var sh :| Shaped(s1, sh);
      assert Walk(s1, c.va) == Expect(init, c.va, Walk(s, c.va));
      assert CallOk(c);
      assert Clear(s1, c.size, c.va);
      if s1.used + Need(s1, sh, c.size, c.va) > POOL_TABLES {
        MapPanics(s1, sh, c.size, c.va, c.pa, c.flags);
      }
      var s', sh' := MapStep(s1, sh, c.size, c.va, c.pa, c.flags);
      forall va: nat
        ensures Walk(s', va) == Expect(calls, va, Walk(s, va))
      {
        assert Walk(s1, va) == Expect(init, va, Walk(s, va));
      }
    }
  }
}
