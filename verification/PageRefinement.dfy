/** `map_page_4kb` and `map_page_2mb` as updates of the plain map from virtual addresses to
    translations, and the table budget of a single call. */
module PageRefinement {
  import opened Bits
  import opened Options
  import opened PageEntries
  import opened PageTables
  import opened PageMapping

  /** Tables of level 2 and above that were reached stay where they are. */
  ghost predicate KeepsUpper(s: Tables, sh: Shape, s': Tables, sh': Shape, lowest: nat)
    requires Shaped(s, sh) && Shaped(s', sh') && 1 <= lowest
  {
    forall va: nat, l: nat :: lowest <= l <= 4 && PathTable(s, sh, va, l).Some? ==>
      PathTable(s', sh', va, l) == PathTable(s, sh, va, l)
  }

  /** Storing a leaf through its table address is `LeafWritten`. */
  lemma StoreLeaf(s: Tables, sh: Shape, t: nat, i: nat, e: nat)
    requires Shaped(s, sh) && t < s.used && i < ENTRIES
    requires sh.level[t] == 1 || (sh.level[t] == 2 && Huge(e))
    ensures LeafWritten(s, sh, Store(s, TableAddr(s, t), i, e), t, i, e)
    ensures Store(s, TableAddr(s, t), i, e).used == s.used
    ensures Store(s, TableAddr(s, t), i, e).stray == s.stray
  {
    TableRoundTrip(s, t);
  }

  lemma LeafKeepsUpper(s0: Tables, sh0: Shape, s: Tables, sh: Shape, s': Tables, t: nat, i: nat, e: nat)
    requires Shaped(s0, sh0) && Shaped(s, sh) && KeepsPaths(s0, sh0, s, sh)
    requires LeafWritten(s, sh, s', t, i, e) && Shaped(s', sh) && sh.level[t] >= 1
    ensures KeepsUpper(s0, sh0, s', sh, sh.level[t])
  {
    forall va: nat, l: nat | sh.level[t] <= l <= 4 && PathTable(s0, sh0, va, l).Some?
      ensures PathTable(s', sh, va, l) == PathTable(s0, sh0, va, l)
    {
      LeafPath(s, sh, s', t, i, e, va, l);
      assert PathTable(s, sh, va, l) == PathTable(s0, sh0, va, l);
    }
  }

  /** Everything about one 2 MiB mapping, with the shape of the tree in hand. */
  lemma Map2MStep(s: Tables, sh: Shape, va: nat, pa: nat, flags: nat) returns (s': Tables, sh': Shape)
    requires Shaped(s, sh) && pa < PHYS_LIMIT && FlagsOnly(flags)
    requires s.used + Missing(s, sh, va, 3) + Missing(s, sh, va, 2) <= POOL_TABLES
    ensures MapPage2M(s, va, pa, flags) == Some(s')
    ensures Shaped(s', sh') && KeepsUpper(s, sh, s', sh', 2)
    ensures forall va': nat :: Walk(s', va') == if SamePage(va, va', SIZE_2M) then Mapped2M(pa, flags, va') else Walk(s, va')
    ensures PathTable(s', sh', va, 2).Some?
    ensures s'.used == s.used + Missing(s, sh, va, 3) + Missing(s, sh, va, 2)
    ensures s'.base == s.base && s'.stray == s.stray
  {
    hide LowFlags, AddressField, AlignDown, Index, WalkFrom, Directory, HighFlags, Store, Leaf2M;
    var s2, pd;
    s2, sh', pd := DirectoryStep(s, sh, va);
    var e := Leaf2M(pa, flags);
    Leaf2MFields(pa, flags);
    s' := Store(s2, TableAddr(s2, pd), Index(va, 2), e);
    StoreLeaf(s2, sh', pd, Index(va, 2), e);
    LeafShaped(s2, sh', s', pd, Index(va, 2), e);
    LeafKeepsUpper(s, sh, s2, sh', s', pd, Index(va, 2), e);
    LeafPath(s2, sh', s', pd, Index(va, 2), e, va, 2);
    AlignTwice(pa);
    forall va': nat
      ensures Walk(s', va') == if SamePage(va, va', SIZE_2M) then Mapped2M(pa, flags, va') else Walk(s, va')
    {
      LeafEffect(s2, sh', s', va, 2, pd, e, va');
    }
  }

  lemma AlignTwice(pa: nat)
    ensures AlignDown(AlignDown(pa, SIZE_2M), SIZE_2M) == AlignDown(pa, SIZE_2M)
    ensures AlignDown(AlignDown(pa, SIZE_4K), SIZE_4K) == AlignDown(pa, SIZE_4K)
  {
  }

  /** All three steps down to the page table of an address not under a 2 MiB leaf. */
  lemma TableStep(s: Tables, sh: Shape, va: nat) returns (s2: Tables, pd: nat, s': Tables, sh': Shape, pt: nat)
    requires Shaped(s, sh) && !HugeLeafAt(s, sh, va)
    requires s.used + Missing(s, sh, va, 3) + Missing(s, sh, va, 2) + Missing(s, sh, va, 1) <= POOL_TABLES
    ensures Wf(s2) && Directory(s, va) == Some((s2, TableAddr(s2, pd)))
    ensures Ensure(s2, TableAddr(s2, pd), Index(va, 2)) == Some(s')
    ensures Shaped(s', sh') && SameWalks(s, s') && KeepsPaths(s, sh, s', sh')
    ensures PathTable(s', sh', va, 1) == Some(pt)
    ensures Next(s', TableAddr(s2, pd), Index(va, 2)) == TableAddr(s', pt)
    ensures s'.used == s.used + Missing(s, sh, va, 3) + Missing(s, sh, va, 2) + Missing(s, sh, va, 1)
    ensures s'.base == s.base && s'.stray == s.stray
  {
    hide LowFlags, AddressField, AlignDown, Index, WalkFrom, Directory, Ensure, Next;
    var sh2;
    s2, sh2, pd := DirectoryStep(s, sh, va);
    assert Walk(s2, va) == Walk(s, va);
    HugeLeafIsWalk(s, sh, va);
    HugeLeafIsWalk(s2, sh2, va);
    s', sh', pt := DescendStep(s2, sh2, va, 2, pd);
    KeepsTrans(s, sh, s2, sh2, s', sh');
    forall v: nat
      ensures Walk(s', v) == Walk(s, v)
    {
      assert Walk(s', v) == Walk(s2, v) == Walk(s, v);
    }
  }

  /** Everything about one 4 KiB mapping of an address not under a 2 MiB leaf. */
  lemma Map4KStep(s: Tables, sh: Shape, va: nat, pa: nat, flags: nat) returns (s': Tables, sh': Shape)
    requires Shaped(s, sh) && pa < PHYS_LIMIT && FlagsOnly(flags) && !HugeLeafAt(s, sh, va)
    requires s.used + Missing(s, sh, va, 3) + Missing(s, sh, va, 2) + Missing(s, sh, va, 1) <= POOL_TABLES
    ensures MapPage4K(s, va, pa, flags) == Some(s')
    ensures Shaped(s', sh') && KeepsUpper(s, sh, s', sh', 1)
    ensures forall va': nat :: Walk(s', va') == if SamePage(va, va', SIZE_4K) then Mapped4K(pa, flags, va') else Walk(s, va')
    ensures PathTable(s', sh', va, 1).Some?
    ensures s'.used == s.used + Missing(s, sh, va, 3) + Missing(s, sh, va, 2) + Missing(s, sh, va, 1)
    ensures s'.base == s.base && s'.stray == s.stray
  {
    hide LowFlags, AddressField, AlignDown, Index, WalkFrom, Directory, HighFlags, Store, Leaf4K, Ensure, Next;
    var s2, pd, s3, pt;
    s2, pd, s3, sh', pt := TableStep(s, sh, va);
    var e := Leaf4K(pa, flags);
    Leaf4KFields(pa, flags);
    s' := Store(s3, TableAddr(s3, pt), Index(va, 1), e);
    StoreLeaf(s3, sh', pt, Index(va, 1), e);
    LeafShaped(s3, sh', s', pt, Index(va, 1), e);
    LeafKeepsUpper(s, sh, s3, sh', s', pt, Index(va, 1), e);
    LeafPath(s3, sh', s', pt, Index(va, 1), e, va, 1);
    AlignTwice(pa);
    forall va': nat
      ensures Walk(s', va') == if SamePage(va, va', SIZE_4K) then Mapped4K(pa, flags, va') else Walk(s, va')
    {
      LeafEffect(s3, sh', s', va, 1, pt, e, va');
    }
  }

  lemma KeepsTrans(s: Tables, sh: Shape, s1: Tables, sh1: Shape, s2: Tables, sh2: Shape)
    requires Shaped(s, sh) && Shaped(s1, sh1) && Shaped(s2, sh2)
    requires KeepsPaths(s, sh, s1, sh1) && KeepsPaths(s1, sh1, s2, sh2)
    ensures KeepsPaths(s, sh, s2, sh2)
  {
  }

  // ----- the statements, free of shapes ------------------------------------

  /** Mapping a 2 MiB page is exactly an update of that page in the address map. */
  lemma Map2MRefines(s: Tables, va: nat, pa: nat, flags: nat)
    requires IsTree(s) && pa < PHYS_LIMIT && FlagsOnly(flags)
    requires MapPage2M(s, va, pa, flags).Some?
    ensures var s' := MapPage2M(s, va, pa, flags).value;
            && IsTree(s') && s'.stray == s.stray
            && forall va': nat :: Walk(s', va') ==
                 if SamePage(va, va', SIZE_2M) then Mapped2M(pa, flags, va') else Walk(s, va')
  {
    var sh :| Shaped(s, sh);
    if s.used + Missing(s, sh, va, 3) + Missing(s, sh, va, 2) > POOL_TABLES {
      DirectoryPanics(s, sh, va);
    } else {
      var s', sh' := Map2MStep(s, sh, va, pa, flags);
    }
  }

  predicate UnderHugePage(s: Tables, va: nat)
    requires Wf(s)
  {
    Walk(s, va).Page? && Walk(s, va).pageSize == SIZE_2M
  }

  /** Mapping a 4 KiB page is exactly an update of that page, if `va` is not under a 2 MiB page. */
  lemma Map4KRefines(s: Tables, va: nat, pa: nat, flags: nat)
    requires IsTree(s) && pa < PHYS_LIMIT && FlagsOnly(flags) && !UnderHugePage(s, va)
    requires MapPage4K(s, va, pa, flags).Some?
    ensures var s' := MapPage4K(s, va, pa, flags).value;
            && IsTree(s') && s'.stray == s.stray
            && forall va': nat :: Walk(s', va') ==
                 if SamePage(va, va', SIZE_4K) then Mapped4K(pa, flags, va') else Walk(s, va')
  {
    var sh :| Shaped(s, sh);
    HugeLeafIsWalk(s, sh, va);
    if s.used + Missing(s, sh, va, 3) + Missing(s, sh, va, 2) > POOL_TABLES {
      DirectoryPanics(s, sh, va);
    } else if s.used + Missing(s, sh, va, 3) + Missing(s, sh, va, 2) + Missing(s, sh, va, 1) > POOL_TABLES {
      Map4KPanics(s, sh, va, pa, flags);
    } else {
      var s', sh' := Map4KStep(s, sh, va, pa, flags);
    }
  }

  lemma Map4KPanics(s: Tables, sh: Shape, va: nat, pa: nat, flags: nat)
    requires Shaped(s, sh) && !HugeLeafAt(s, sh, va)
    requires s.used + Missing(s, sh, va, 3) + Missing(s, sh, va, 2) <= POOL_TABLES
    requires s.used + Missing(s, sh, va, 3) + Missing(s, sh, va, 2) + Missing(s, sh, va, 1) > POOL_TABLES
    ensures MapPage4K(s, va, pa, flags) == None
  {
    hide LowFlags, AddressField, AlignDown, Index, WalkFrom, Directory, Ensure, Next;
    var s2, sh2, pd := DirectoryStep(s, sh, va);
    assert Walk(s2, va) == Walk(s, va);
    HugeLeafIsWalk(s, sh, va);
    HugeLeafIsWalk(s2, sh2, va);
    DescendPanics(s2, sh2, va, 2, pd);
  }

  /** The address `map_page_4kb` takes for the page table when a directory entry is already present. */
  function TablePointer(s: Tables, va: nat): (r: nat)
    requires Wf(s) && Directory(s, va).Some?
  {
    Next(Directory(s, va).value.0, Directory(s, va).value.1, Index(va, 2))
  }

  /** Under a 2 MiB page the pool is full of everything needed, and the entry found is the leaf. */
  lemma HugeDirectory(s: Tables, sh: Shape, va: nat)
    requires Shaped(s, sh) && HugeLeafAt(s, sh, va)
    ensures var pd := PathTable(s, sh, va, 2).value;
            && Directory(s, va) == Some((s, TableAddr(s, pd)))
            && Load(s, TableAddr(s, pd), Index(va, 2)) == s.mem[pd][Index(va, 2)]
            && Present(s.mem[pd][Index(va, 2)])
  {
    hide LowFlags, AddressField, AlignDown, Index, WalkFrom, Present, Huge, Writable;
    var pdpt, i, pd := PathStep(s, sh, va, 2);
    var t, j, c := PathStep(s, sh, va, 3);
    TableRoundTrip(s, 0);
    TableRoundTrip(s, pdpt);
    TableRoundTrip(s, pd);
    assert TableAddr(s, 0) == s.base;
  }

  /** Under a 2 MiB page the call takes no table and does nothing but one store, through what it takes
      for the page table: the address in the leaf.  Outside the pool that overwrites eight bytes of mapped
      physical memory and changes no translation. */
  lemma Map4KUnderHugePage(s: Tables, va: nat, pa: nat, flags: nat)
    requires IsTree(s) && UnderHugePage(s, va)
    ensures Directory(s, va).Some?
    ensures MapPage4K(s, va, pa, flags) == Some(Store(s, TablePointer(s, va), Index(va, 1), Leaf4K(pa, flags)))
    ensures !InPool(s, TablePointer(s, va)) ==>
            MapPage4K(s, va, pa, flags) ==
            Some(s.(stray := s.stray + [(TablePointer(s, va) + 8 * Index(va, 1), Leaf4K(pa, flags))]))
  {
    hide LowFlags, AddressField, AlignDown, Index, WalkFrom, Directory;
    var sh :| Shaped(s, sh);
    HugeLeafIsWalk(s, sh, va);
    HugeDirectory(s, sh, va);
  }

  lemma {:induction false} WalkIgnoresStray(s: Tables, stray: seq<(nat, nat)>, table: nat, level: nat, va: nat, w: bool)
    requires Wf(s)
    ensures WalkFrom(s.(stray := stray), table, level, va, w) == WalkFrom(s, table, level, va, w)
    decreases level
  {
    hide LowFlags, HighFlags, AddressField, AlignDown, Index, Present, Huge, Writable;
    if level > 0 && InPool(s, table) {
      var e := s.mem[TableAt(s, table)][Index(va, level)];
      WalkIgnoresStray(s, stray, AddressField(e), level - 1, va, w && Writable(e));
    }
  }

  /** The pointer taken for a page table lies in the frame of the 2 MiB page. */
  lemma PointerInFrame(s: Tables, va: nat)
    requires IsTree(s) && UnderHugePage(s, va) && Walk(s, va).highFlags == 0
    ensures Directory(s, va).Some?
    ensures var frame := Walk(s, va).phys - va % SIZE_2M;
            frame <= TablePointer(s, va) < frame + SIZE_2M
  {
    hide Directory, Index;
    var sh :| Shaped(s, sh);
    HugeLeafIsWalk(s, sh, va);
    HugeDirectory(s, sh, va);
    HugeWalk(s, sh, va);
    var e := s.mem[PathTable(s, sh, va, 2).value][Index(va, 2)];
    LowPointer(e);
  }

  lemma HugeWalk(s: Tables, sh: Shape, va: nat)
    requires Shaped(s, sh) && HugeLeafAt(s, sh, va)
    ensures var e := s.mem[PathTable(s, sh, va, 2).value][Index(va, 2)];
            Walk(s, va) == Page(AlignDown(AddressField(e), SIZE_2M) + va % SIZE_2M, SIZE_2M, LowFlags(e), HighFlags(e), Writable(e))
  {
    hide LowFlags, AddressField, AlignDown, Index, HighFlags;
    WalkVia(s, sh, va, 2);
    TableRoundTrip(s, PathTable(s, sh, va, 2).value);
  }

  lemma LowPointer(e: nat)
    requires HighFlags(e) == 0
    ensures AlignDown(AddressField(e), SIZE_2M) <= AlignDown(e, SIZE_4K) < AlignDown(AddressField(e), SIZE_2M) + SIZE_2M
  {
    assert e < PHYS_LIMIT;
    assert AddressField(e) == e / 4096 * 4096;
  }

  /** What the driver takes for a page table, if `va` is under a 2 MiB page, is none. */
  predicate PointerOutsidePool(s: Tables, va: nat)
    requires Wf(s)
  {
    UnderHugePage(s, va) ==> Directory(s, va).Some? && !InPool(s, TablePointer(s, va))
  }

  /** `map_page_4kb` tests only the present bit of the directory entry, so it installs the requested
      page exactly when the address was not under a 2 MiB page. */
  lemma Map4KTakesEffectIff(s: Tables, va: nat, pa: nat, flags: nat)
    requires IsTree(s) && pa < PHYS_LIMIT && FlagsOnly(flags) && PointerOutsidePool(s, va)
    requires MapPage4K(s, va, pa, flags).Some?
    ensures Walk(MapPage4K(s, va, pa, flags).value, va) == Mapped4K(pa, flags, va) <==> !UnderHugePage(s, va)
  {
    hide WalkFrom, MapPage4K, Directory, Index, Next;
    if UnderHugePage(s, va) {
      Map4KUnderHugePage(s, va, pa, flags);
      WalkIgnoresStray(s, MapPage4K(s, va, pa, flags).value.stray, s.base, 4, va, true);
    } else {
      Map4KRefines(s, va, pa, flags);
    }
  }
}
