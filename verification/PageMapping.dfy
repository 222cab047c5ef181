/** The mapping operations on the pool as functions, and their effect on every page walk. */
module PageMapping {
  import opened Bits
  import opened Options
  import opened PageEntries
  import opened PageTables

  /** The source reads tables only through references, and `DescendStep` shows that these stay in
      the pool, so the value read elsewhere is immaterial. */
  function Load(s: Tables, table: nat, i: nat): (e: nat)
    requires Wf(s) && i < ENTRIES
  {
    if InPool(s, table) then s.mem[TableAt(s, table)][i] else 0
  }

  function Store(s: Tables, table: nat, i: nat, e: nat): (s': Tables)
    requires Wf(s) && i < ENTRIES
    ensures Wf(s')
  {
    if InPool(s, table) then
      var t := TableAt(s, table);
      var row: seq<nat> := s.mem[t][i := e];
      s.(mem := s.mem[t := row])
    else s.(stray := s.stray + [(table + 8 * i, e)])
  }

  function ZeroTable(): (z: seq<nat>) { seq(ENTRIES, _ => 0) }

  /** The next table of the pool, zeroed; `None` is the panic on an exhausted pool. */
  function AllocTable(s: Tables): (r: Option<Tables>)
    requires Wf(s)
    ensures r.Some? ==> Wf(r.value)
  {
    if s.used == POOL_TABLES then None
    else Some(s.(used := s.used + 1, mem := s.mem[s.used := ZeroTable()]))
  }

  /** Makes entry `i` of `table` refer to a lower table, allocating one if nothing is present. */
  function Ensure(s: Tables, table: nat, i: nat): (r: Option<Tables>)
    requires Wf(s) && i < ENTRIES
    ensures r.Some? ==> Wf(r.value)
  {
    if Present(Load(s, table, i)) then Some(s)
    else
      match AllocTable(s)
      case None => None
      case Some(s1) => Some(Store(s1, table, i, TableEntry(TableAddr(s, s.used))))
  }

  function Next(s: Tables, table: nat, i: nat): (addr: nat)
    requires Wf(s) && i < ENTRIES
  {
    AlignDown(Load(s, table, i), SIZE_4K)
  }

  /** The two upper steps shared by both page sizes: the state and the address of the page directory. */
  function Directory(s: Tables, va: nat): (r: Option<(Tables, nat)>)
    requires Wf(s)
    ensures r.Some? ==> Wf(r.value.0)
  {
    match Ensure(s, s.base, Index(va, 4))
    case None => None
    case Some(s1) =>
      var pdpt := Next(s1, s1.base, Index(va, 4));
      match Ensure(s1, pdpt, Index(va, 3))
      case None => None
      case Some(s2) => Some((s2, Next(s2, pdpt, Index(va, 3))))
  }

  function MapPage2M(s: Tables, va: nat, pa: nat, flags: nat): (r: Option<Tables>)
    requires Wf(s)
    ensures r.Some? ==> Wf(r.value)
  {
    match Directory(s, va)
    case None => None
    case Some((s2, pd)) => Some(Store(s2, pd, Index(va, 2), Leaf2M(pa, flags)))
  }

  function MapPage4K(s: Tables, va: nat, pa: nat, flags: nat): (r: Option<Tables>)
    requires Wf(s)
    ensures r.Some? ==> Wf(r.value)
  {
    match Directory(s, va)
    case None => None
    case Some((s2, pd)) =>
      match Ensure(s2, pd, Index(va, 2))
      case None => None
      case Some(s3) => Some(Store(s3, Next(s3, pd, Index(va, 2)), Index(va, 1), Leaf4K(pa, flags)))
  }

  // ----- growing the tree by one table -------------------------------------

  ghost predicate SameWalks(s: Tables, s': Tables)
    requires Wf(s) && Wf(s')
  {
    forall va: nat :: Walk(s', va) == Walk(s, va)
  }

  /** Every table reached before is reached again at the same place. */
  ghost predicate KeepsPaths(s: Tables, sh: Shape, s': Tables, sh': Shape)
    requires Shaped(s, sh) && Shaped(s', sh')
  {
    forall va: nat, l: nat :: 1 <= l <= 4 && PathTable(s, sh, va, l).Some? ==>
      PathTable(s', sh', va, l) == PathTable(s, sh, va, l)
  }

  /** `s'` is `s` with a fresh zero table hung on entry `i` of table `t`. */
  ghost predicate Grown(s: Tables, sh: Shape, s': Tables, sh': Shape, t: nat, i: nat) {
    && Shaped(s, sh) && Wf(s')
    && t < s.used && i < ENTRIES && sh.level[t] >= 2 && !Present(s.mem[t][i])
    && s.used < POOL_TABLES
    && var row: seq<nat> := s.mem[t][i := TableEntry(TableAddr(s, s.used))];
    && s' == s.(used := s.used + 1, mem := s.mem[s.used := ZeroTable()][t := row])
    && sh' == Shape(sh.level + [sh.level[t] - 1], sh.parent + [(t, i)])
  }

  lemma ZeroIsAbsent()
    ensures !Present(0)
  {
  }

  lemma GrownShaped(s: Tables, sh: Shape, s': Tables, sh': Shape, t: nat, i: nat)
    requires Grown(s, sh, s', sh', t, i)
    ensures Shaped(s', sh') && RefersDown(s', sh', t, i)
    ensures AlignDown(s'.mem[t][i], SIZE_4K) == TableAddr(s, s.used)
  {
    hide LowFlags, AddressField, AlignDown, TableEntry;
    var a := TableAddr(s, s.used);
    TableRoundTrip(s, s.used);
    TableEntryFields(a);
    ZeroIsAbsent();
    forall t1, i1 | 0 <= t1 < s'.used && 0 <= i1 < ENTRIES
      ensures RefOk(s', sh', t1, i1)
    {
      if t1 < s.used && (t1, i1) != (t, i) {
        assert RefOk(s, sh, t1, i1);
      }
    }
  }

  lemma {:induction false} GrownWalkFrom(s: Tables, sh: Shape, s': Tables, sh': Shape, t: nat, i: nat,
                                         t1: nat, va: nat, w: bool)
    requires Grown(s, sh, s', sh', t, i) && t1 < s.used
    ensures WalkFrom(s', TableAddr(s, t1), sh.level[t1], va, w) == WalkFrom(s, TableAddr(s, t1), sh.level[t1], va, w)
    decreases sh.level[t1]
  {
    hide LowFlags, AddressField, AlignDown, Index, TableEntry, WalkFrom;
    var l := sh.level[t1];
    var i1 := Index(va, l);
    if (t1, i1) == (t, i) {
      GrownShaped(s, sh, s', sh', t, i);
      var c := FollowRef(s', sh', t, i);
      RefStep(s', t, l, va, w, c);
      ZeroIsAbsent();
      AbsentStep(s', c, l - 1, va, w);
      AbsentStep(s, t, l, va, w);
    } else if RefersDown(s, sh, t1, i1) {
      var c := FollowRef(s, sh, t1, i1);
      RefStep(s, t1, l, va, w, c);
      RefStep(s', t1, l, va, w, c);
      GrownWalkFrom(s, sh, s', sh', t, i, c, va, w);
    } else {
      StopStep(s, s', t1, l, va, w);
    }
  }

  /** One more level of a path, when the entry it follows is the same. */
  lemma PathSame(s: Tables, sh: Shape, s': Tables, sh': Shape, va: nat, l: nat)
    requires Shaped(s, sh) && Shaped(s', sh') && 1 <= l < 4 && s'.base == s.base
    requires PathTable(s', sh', va, l + 1) == PathTable(s, sh, va, l + 1)
    requires PathTable(s, sh, va, l + 1).Some? ==>
               var t := PathTable(s, sh, va, l + 1).value;
               s'.mem[t][Index(va, l + 1)] == s.mem[t][Index(va, l + 1)]
    ensures PathTable(s', sh', va, l) == PathTable(s, sh, va, l)
  {
    hide LowFlags, AddressField, AlignDown, Index;
  }

  lemma PathRoot(s: Tables, sh: Shape, s': Tables, sh': Shape, va: nat)
    requires Shaped(s, sh) && Shaped(s', sh')
    ensures PathTable(s', sh', va, 4) == PathTable(s, sh, va, 4)
  {
  }

  lemma {:induction false} GrownPath(s: Tables, sh: Shape, s': Tables, sh': Shape, t: nat, i: nat, va: nat, l: nat)
    requires Grown(s, sh, s', sh', t, i) && Shaped(s', sh') && 1 <= l <= 4 && PathTable(s, sh, va, l).Some?
    ensures PathTable(s', sh', va, l) == PathTable(s, sh, va, l)
    decreases 4 - l
  {
    hide LowFlags, AddressField, AlignDown, Index, PathTable, RefOk;
    if l < 4 {
      var t1, i1, c := PathStep(s, sh, va, l);
      GrownPath(s, sh, s', sh', t, i, va, l + 1);
      assert (t1, i1) != (t, i);
      assert s'.mem[t1][i1] == s.mem[t1][i1];
      PathSame(s, sh, s', sh', va, l);
    } else {
      PathRoot(s, sh, s', sh', va);
    }
  }

  lemma GrownEffect(s: Tables, sh: Shape, s': Tables, sh': Shape, t: nat, i: nat)
    requires Grown(s, sh, s', sh', t, i)
    ensures Shaped(s', sh') && SameWalks(s, s') && KeepsPaths(s, sh, s', sh')
  {
    GrownShaped(s, sh, s', sh', t, i);
    forall va: nat
      ensures Walk(s', va) == Walk(s, va)
    {
      GrownWalkFrom(s, sh, s', sh', t, i, 0, va, true);
    }
    forall va: nat, l: nat | 1 <= l <= 4 && PathTable(s, sh, va, l).Some?
      ensures PathTable(s', sh', va, l) == PathTable(s, sh, va, l)
    {
      GrownPath(s, sh, s', sh', t, i, va, l);
    }
  }

  // ----- walking down while filling in tables ------------------------------

  /** 1 when the table of `va` at `level` is still missing. */
  ghost function Missing(s: Tables, sh: Shape, va: nat, level: nat): (n: nat)
    requires Shaped(s, sh) && 1 <= level <= 4
  {
    if PathTable(s, sh, va, level).None? then 1 else 0
  }

  /** Whether the entry of `va` in its page directory is a 2 MiB leaf. */
  ghost predicate HugeLeafAt(s: Tables, sh: Shape, va: nat)
    requires Shaped(s, sh)
  {
    match PathTable(s, sh, va, 2)
    case None => false
    case Some(t) => Present(s.mem[t][Index(va, 2)]) && Huge(s.mem[t][Index(va, 2)])
  }

  lemma {:induction false} NoneBelow(s: Tables, sh: Shape, va: nat, l: nat, l': nat)
    requires Shaped(s, sh) && 1 <= l' <= l <= 4 && PathTable(s, sh, va, l).None?
    ensures PathTable(s, sh, va, l').None?
    decreases l - l'
  {
    if l' < l {
      NoneBelow(s, sh, va, l, l' + 1);
    }
  }

  lemma GrowStep(s: Tables, sh: Shape, t: nat, i: nat) returns (s': Tables, sh': Shape)
    requires Shaped(s, sh) && t < s.used && i < ENTRIES && sh.level[t] >= 2 && !Present(s.mem[t][i])
    requires s.used < POOL_TABLES
    ensures Ensure(s, TableAddr(s, t), i) == Some(s')
    ensures Grown(s, sh, s', sh', t, i)
  {
    hide LowFlags, AddressField, AlignDown, TableEntry;
    TableRoundTrip(s, t);
    s' := Ensure(s, TableAddr(s, t), i).value;
    sh' := Shape(sh.level + [sh.level[t] - 1], sh.parent + [(t, i)]);
  }

  /** Nothing is reached below a fresh table. */
  lemma BelowFresh(s: Tables, sh: Shape, va: nat, level: nat, c: nat, l: nat)
    requires Shaped(s, sh) && 1 <= l < level <= 4 && PathTable(s, sh, va, level) == Some(c) && s.mem[c] == ZeroTable()
    ensures PathTable(s, sh, va, l).None?
  {
    hide LowFlags, AddressField, AlignDown, Index;
    ZeroIsAbsent();
    assert !RefersDown(s, sh, c, Index(va, level));
    NoneBelow(s, sh, va, level - 1, l);
  }

  /** Descending one level: the walk of every address is unchanged, the next table of `va` exists
      afterwards, and one pool table is consumed exactly when it was missing. */
  lemma DescendStep(s: Tables, sh: Shape, va: nat, level: nat, t: nat) returns (s': Tables, sh': Shape, c: nat)
    requires Shaped(s, sh) && 2 <= level <= 4 && PathTable(s, sh, va, level) == Some(t)
    requires level == 2 ==> !HugeLeafAt(s, sh, va)
    requires s.used + Missing(s, sh, va, level - 1) <= POOL_TABLES
    ensures Ensure(s, TableAddr(s, t), Index(va, level)) == Some(s')
    ensures Shaped(s', sh') && SameWalks(s, s') && KeepsPaths(s, sh, s', sh')
    ensures PathTable(s', sh', va, level - 1) == Some(c)
    ensures Next(s', TableAddr(s', t), Index(va, level)) == TableAddr(s', c)
    ensures s'.used == s.used + Missing(s, sh, va, level - 1)
    ensures forall l :: 1 <= l < level - 1 ==> Missing(s', sh', va, l) == Missing(s, sh, va, l)
    ensures s'.base == s.base && s'.stray == s.stray
  {
    hide LowFlags, AddressField, AlignDown, TableEntry, Index, WalkFrom, Grown;
    if Present(s.mem[t][Index(va, level)]) {
      s', sh' := s, sh;
      c := DescendPresent(s, sh, va, level, t);
    } else {
      s', sh', c := DescendFresh(s, sh, va, level, t);
    }
  }

  lemma DescendPresent(s: Tables, sh: Shape, va: nat, level: nat, t: nat) returns (c: nat)
    requires Shaped(s, sh) && 2 <= level <= 4 && PathTable(s, sh, va, level) == Some(t)
    requires Present(s.mem[t][Index(va, level)]) && (level == 2 ==> !HugeLeafAt(s, sh, va))
    ensures Ensure(s, TableAddr(s, t), Index(va, level)) == Some(s)
    ensures PathTable(s, sh, va, level - 1) == Some(c)
    ensures Next(s, TableAddr(s, t), Index(va, level)) == TableAddr(s, c)
  {
    hide LowFlags, AddressField, AlignDown, TableEntry, Index, WalkFrom;
    TableRoundTrip(s, t);
    c := FollowRef(s, sh, t, Index(va, level));
  }

  lemma DescendFresh(s: Tables, sh: Shape, va: nat, level: nat, t: nat) returns (s': Tables, sh': Shape, c: nat)
    requires Shaped(s, sh) && 2 <= level <= 4 && PathTable(s, sh, va, level) == Some(t)
    requires !Present(s.mem[t][Index(va, level)]) && s.used < POOL_TABLES
    ensures PathTable(s, sh, va, level - 1).None?
    ensures Ensure(s, TableAddr(s, t), Index(va, level)) == Some(s')
    ensures Shaped(s', sh') && SameWalks(s, s') && KeepsPaths(s, sh, s', sh')
    ensures PathTable(s', sh', va, level - 1) == Some(c)
    ensures Next(s', TableAddr(s', t), Index(va, level)) == TableAddr(s', c)
    ensures forall l :: 1 <= l < level - 1 ==> Missing(s', sh', va, l) == Missing(s, sh, va, l)
    ensures s'.used == s.used + 1 && s'.base == s.base && s'.stray == s.stray
  {
    hide LowFlags, AddressField, AlignDown, TableEntry, Index, WalkFrom;
    var i := Index(va, level);
    s', sh' := GrowStep(s, sh, t, i);
    GrownShaped(s, sh, s', sh', t, i);
    GrownEffect(s, sh, s', sh', t, i);
    TableRoundTrip(s', t);
    assert PathTable(s', sh', va, level) == Some(t);
    c := FollowRef(s', sh', t, i);
    assert s'.mem[c] == ZeroTable();
    forall l | 1 <= l < level - 1
      ensures Missing(s', sh', va, l) == Missing(s, sh, va, l)
    {
      NoneBelow(s, sh, va, level - 1, l);
      BelowFresh(s', sh', va, level - 1, c, l);
    }
  }

  /** A descent panics if and only if its table is missing and the pool is full. */
  lemma DescendPanics(s: Tables, sh: Shape, va: nat, level: nat, t: nat)
    requires Shaped(s, sh) && 2 <= level <= 4 && PathTable(s, sh, va, level) == Some(t)
    requires level == 2 ==> !HugeLeafAt(s, sh, va)
    ensures Ensure(s, TableAddr(s, t), Index(va, level)) == None <==> s.used + Missing(s, sh, va, level - 1) > POOL_TABLES
  {
    hide LowFlags, AddressField, AlignDown, TableEntry, Index, WalkFrom, Grown;
    TableRoundTrip(s, t);
    if s.used + Missing(s, sh, va, level - 1) <= POOL_TABLES {
      var s', sh', c := DescendStep(s, sh, va, level, t);
    }
  }

  // ----- writing a leaf ----------------------------------------------------

  /** `s'` is `s` with leaf `e` in entry `i` of table `t`. */
  ghost predicate LeafWritten(s: Tables, sh: Shape, s': Tables, t: nat, i: nat, e: nat) {
    && Shaped(s, sh) && t < s.used && i < ENTRIES
    && (sh.level[t] == 1 || (sh.level[t] == 2 && Huge(e)))
    && var row: seq<nat> := s.mem[t][i := e];
    && s' == s.(mem := s.mem[t := row])
  }

  lemma LeafShaped(s: Tables, sh: Shape, s': Tables, t: nat, i: nat, e: nat)
    requires LeafWritten(s, sh, s', t, i, e)
    ensures Shaped(s', sh)
  {
    hide LowFlags, AddressField, AlignDown;
    forall t1, i1 | 0 <= t1 < s'.used && 0 <= i1 < ENTRIES
      ensures RefOk(s', sh, t1, i1)
    {
      assert RefOk(s, sh, t1, i1);
    }
  }

  /** Tables at or above the written level keep their place. */
  lemma {:induction false} LeafPath(s: Tables, sh: Shape, s': Tables, t: nat, i: nat, e: nat, va: nat, l: nat)
    requires LeafWritten(s, sh, s', t, i, e) && Shaped(s', sh) && sh.level[t] <= l <= 4
    ensures PathTable(s', sh, va, l) == PathTable(s, sh, va, l)
    decreases 4 - l
  {
    hide LowFlags, AddressField, AlignDown, Index, PathTable, RefOk;
    if l < 4 {
      LeafPath(s, sh, s', t, i, e, va, l + 1);
      PathSame(s, sh, s', sh, va, l);
    } else {
      PathRoot(s, sh, s', sh, va);
    }
  }

  /** Whether the walk of `va` consults entry `i` of table `t`. */
  ghost predicate Through(s: Tables, sh: Shape, va: nat, t: nat, i: nat)
    requires Shaped(s, sh) && t < s.used && 1 <= sh.level[t] <= 4
  {
    PathTable(s, sh, va, sh.level[t]) == Some(t) && Index(va, sh.level[t]) == i
  }

  lemma {:induction false} LeafElsewhere(s: Tables, sh: Shape, s': Tables, t: nat, i: nat, e: nat, va: nat, l: nat, t1: nat)
    requires LeafWritten(s, sh, s', t, i, e) && 1 <= l <= 4
    requires !Through(s, sh, va, t, i) && PathTable(s, sh, va, l) == Some(t1)
    ensures WalkFrom(s', TableAddr(s, t1), l, va, true) == WalkFrom(s, TableAddr(s, t1), l, va, true)
    decreases l
  {
    hide LowFlags, AddressField, AlignDown, Index, WalkFrom;
    var i1 := Index(va, l);
    assert (t1, i1) != (t, i);
    assert s'.mem[t1][i1] == s.mem[t1][i1];
    if RefersDown(s, sh, t1, i1) {
      var c := FollowRef(s, sh, t1, i1);
      assert PathTable(s, sh, va, l - 1) == Some(c);
      RefStep(s, t1, l, va, true, c);
      RefStep(s', t1, l, va, true, c);
      LeafElsewhere(s, sh, s', t, i, e, va, l - 1, c);
    } else {
      StopStep(s, s', t1, l, va, true);
    }
  }

  lemma LeafHere(s: Tables, sh: Shape, s': Tables, t: nat, i: nat, e: nat, va: nat)
    requires LeafWritten(s, sh, s', t, i, e) && Present(e) && Through(s, sh, va, t, i)
    ensures var z := Span(sh.level[t]);
            Walk(s', va) == Page(AlignDown(AddressField(e), z) + va % z, z, LowFlags(e), HighFlags(e), Writable(e))
  {
    hide LowFlags, AddressField, AlignDown, Index;
    var l := sh.level[t];
    LeafShaped(s, sh, s', t, i, e);
    LeafPath(s, sh, s', t, i, e, va, l);
    WalkVia(s', sh, va, l);
    TableRoundTrip(s', t);
  }

  /** The addresses whose walk consults the entry of `va` are those of the same page. */
  lemma ThroughSamePage(s: Tables, sh: Shape, va: nat, va': nat, t: nat, l: nat)
    requires Shaped(s, sh) && 1 <= l <= 2 && PathTable(s, sh, va, l) == Some(t)
    requires Through(s, sh, va', t, Index(va, l))
    ensures va' % VIRT_LIMIT / Span(l) == va % VIRT_LIMIT / Span(l)
  {
    SamePath(s, sh, va, va', l);
    PrefixStep(va, va', l);
  }

  lemma {:induction false} SamePageThrough(s: Tables, sh: Shape, va: nat, va': nat, l: nat, l1: nat)
    requires Shaped(s, sh) && 1 <= l <= l1 <= 4
    requires va' % VIRT_LIMIT / Span(l) == va % VIRT_LIMIT / Span(l)
    ensures Index(va', l1) == Index(va, l1)
    ensures PathTable(s, sh, va', l1) == PathTable(s, sh, va, l1)
    decreases 4 - l1
  {
    SamePageIndices(va, va', l, l1);
    if l1 < 4 {
      SamePageThrough(s, sh, va, va', l, l1 + 1);
    }
  }

  lemma {:induction false} SamePageIndices(va: nat, va': nat, l: nat, l1: nat)
    requires 1 <= l <= l1 <= 4
    requires va' % VIRT_LIMIT / Span(l) == va % VIRT_LIMIT / Span(l)
    ensures va' % VIRT_LIMIT / Span(l1) == va % VIRT_LIMIT / Span(l1)
    ensures Index(va', l1) == Index(va, l1)
    decreases l1
  {
    hide Index, Span;
    IndexOfLow(va, l1);
    IndexOfLow(va', l1);
    if l < l1 {
      SamePageIndices(va, va', l, l1 - 1);
      IndexOfLow(va, l1 - 1);
      IndexOfLow(va', l1 - 1);
    }
  }

  // ----- whole operations --------------------------------------------------

  predicate SamePage(va: nat, va': nat, size: nat)
    requires size > 0
  {
    va % VIRT_LIMIT / size == va' % VIRT_LIMIT / size
  }

  /** The 2 MiB-leaf test seen from the walk. */
  lemma HugeLeafIsWalk(s: Tables, sh: Shape, va: nat)
    requires Shaped(s, sh)
    ensures HugeLeafAt(s, sh, va) <==> Walk(s, va).Page? && Walk(s, va).pageSize == SIZE_2M
  {
    hide LowFlags, AddressField, AlignDown, Index;
    if PathTable(s, sh, va, 2).Some? {
      var t := PathTable(s, sh, va, 2).value;
      WalkVia(s, sh, va, 2);
      TableRoundTrip(s, t);
      if PathTable(s, sh, va, 1).Some? {
        WalkVia(s, sh, va, 1);
        TableRoundTrip(s, PathTable(s, sh, va, 1).value);
      }
    } else {
      ShortPathFaults(s, sh, va);
    }
  }

  lemma ShortPathFaults(s: Tables, sh: Shape, va: nat)
    requires Shaped(s, sh) && PathTable(s, sh, va, 2).None?
    ensures Walk(s, va) == Fault
  {
    hide LowFlags, AddressField, AlignDown, Index, WalkFrom;
    var l := if PathTable(s, sh, va, 3).Some? then 3 else 4;
    var t := PathTable(s, sh, va, l).value;
    assert !RefersDown(s, sh, t, Index(va, l));
    WalkVia(s, sh, va, l);
    AbsentStep(s, t, l, va, true);
  }

  /** Both upper steps at once. */
  lemma DirectoryStep(s: Tables, sh: Shape, va: nat) returns (s': Tables, sh': Shape, pd: nat)
    requires Shaped(s, sh)
    requires s.used + Missing(s, sh, va, 3) + Missing(s, sh, va, 2) <= POOL_TABLES
    ensures Shaped(s', sh') && SameWalks(s, s') && KeepsPaths(s, sh, s', sh')
    ensures Directory(s, va) == Some((s', TableAddr(s', pd)))
    ensures PathTable(s', sh', va, 2) == Some(pd)
    ensures s'.used == s.used + Missing(s, sh, va, 3) + Missing(s, sh, va, 2)
    ensures Missing(s', sh', va, 1) == Missing(s, sh, va, 1)
    ensures s'.base == s.base && s'.stray == s.stray
  {
    hide LowFlags, AddressField, AlignDown, Index, WalkFrom, Ensure, Next;
    var s1, sh1, pdpt := DescendStep(s, sh, va, 4, 0);
    assert TableAddr(s, 0) == s.base && TableAddr(s1, 0) == s1.base;
    s', sh', pd := DescendStep(s1, sh1, va, 3, pdpt);
  }

  lemma DirectoryPanics(s: Tables, sh: Shape, va: nat)
    requires Shaped(s, sh)
    requires s.used + Missing(s, sh, va, 3) + Missing(s, sh, va, 2) > POOL_TABLES
    ensures Directory(s, va) == None
  {
    hide LowFlags, AddressField, AlignDown, Index, WalkFrom, Ensure, Next;
    assert TableAddr(s, 0) == s.base;
    if s.used + Missing(s, sh, va, 3) > POOL_TABLES {
      DescendPanics(s, sh, va, 4, 0);
    } else {
      var s1, sh1, pdpt := DescendStep(s, sh, va, 4, 0);
      assert TableAddr(s1, 0) == s1.base;
      DescendPanics(s1, sh1, va, 3, pdpt);
    }
  }

  /** The result every address gets from mapping one page at `va`. */
  function Mapped2M(pa: nat, flags: nat, va: nat): (r: Walked)
  {
    Page(AlignDown(pa, SIZE_2M) + va % SIZE_2M, SIZE_2M,
         Or(Or(LowFlags(flags), PAGE_PRESENT), PAGE_HUGE), HighFlags(flags), Writable(flags))
  }

  function Mapped4K(pa: nat, flags: nat, va: nat): (r: Walked)
  {
    Page(AlignDown(pa, SIZE_4K) + va % SIZE_4K, SIZE_4K,
         Or(LowFlags(flags), PAGE_PRESENT), HighFlags(flags), Writable(flags))
  }

  /** Writing a leaf for `va` updates the translation of exactly the addresses of its page. */
  lemma LeafEffect(s: Tables, sh: Shape, s': Tables, va: nat, l: nat, t: nat, e: nat, va': nat)
    requires 1 <= l <= 2 && Shaped(s, sh) && PathTable(s, sh, va, l) == Some(t)
    requires LeafWritten(s, sh, s', t, Index(va, l), e) && Present(e)
    ensures Walk(s', va') ==
            if SamePage(va, va', Span(l)) then
              Page(AlignDown(AddressField(e), Span(l)) + va' % Span(l), Span(l), LowFlags(e), HighFlags(e), Writable(e))
            else Walk(s, va')
  {
    hide LowFlags, AddressField, AlignDown, Index, WalkFrom;
    var i := Index(va, l);
    if SamePage(va, va', Span(l)) {
      SamePageThrough(s, sh, va, va', l, l);
      LeafHere(s, sh, s', t, i, e, va');
    } else {
      if Through(s, sh, va', t, i) {
        ThroughSamePage(s, sh, va, va', t, l);
      }
      LeafElsewhere(s, sh, s', t, i, e, va', 4, 0);
    }
  }
}
