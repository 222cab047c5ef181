/** The page-table pool as a value, the hardware page walk, and what a well-shaped pool guarantees.

    The pool holds 32 tables of 512 entries at physical address `base`; table 0 is the PML4.  Stores
    that the mapping code makes to physical memory outside the pool are recorded in `stray`. */
module PageTables {
  import opened Bits
  import opened Options
  import opened PageEntries

  const POOL_TABLES: nat := 32
  const ENTRIES: nat := 512
  const TABLE_BYTES: nat := 4096
  /** One past the largest 48-bit virtual address. */
  const VIRT_LIMIT: nat := 0x1_0000_0000_0000

  datatype Tables = Tables(base: nat, mem: seq<seq<nat>>, used: nat, stray: seq<(nat, nat)>)

  predicate Wf(s: Tables) {
    && |s.mem| == POOL_TABLES
    && (forall t :: 0 <= t < POOL_TABLES ==> |s.mem[t]| == ENTRIES)
    && s.used <= POOL_TABLES
    && s.base % TABLE_BYTES == 0
    && s.base + POOL_TABLES * TABLE_BYTES <= PHYS_LIMIT
  }

  /** Whether `addr` is the physical address of a table of the pool. */
  predicate InPool(s: Tables, addr: nat) {
    s.base <= addr < s.base + POOL_TABLES * TABLE_BYTES && (addr - s.base) % TABLE_BYTES == 0
  }

  function TableAddr(s: Tables, t: nat): (a: nat) { s.base + TABLE_BYTES * t }

  function TableAt(s: Tables, addr: nat): (t: nat)
    requires InPool(s, addr)
    ensures t < POOL_TABLES && TableAddr(s, t) == addr
  {
    (addr - s.base) / TABLE_BYTES
  }

  lemma TableRoundTrip(s: Tables, t: nat)
    requires Wf(s) && t < POOL_TABLES
    ensures InPool(s, TableAddr(s, t)) && TableAt(s, TableAddr(s, t)) == t
  {
  }

  /** Bytes mapped by one entry at a paging level (1 = page table, 4 = PML4). */
  function Span(level: nat): (r: nat)
    ensures r > 0
  {
    if level == 1 then SIZE_4K
    else if level == 2 then SIZE_2M
    else if level == 3 then SIZE_1G
    else if level == 4 then 0x80_0000_0000
    else VIRT_LIMIT
  }

  function Index(va: nat, level: nat): (i: nat)
    ensures i < ENTRIES
  {
    va / Span(level) % 512
  }

  // ----- the hardware walk -------------------------------------------------

  datatype Walked =
    | Fault
    | Page(phys: nat, pageSize: nat, lowFlags: nat, highFlags: nat, writable: bool)

  /** Whether a present entry at `level` maps a page instead of pointing to a table. */
  predicate MapsPage(level: nat, e: nat) { level == 1 || ((level == 2 || level == 3) && Huge(e)) }

  /** 4-level paging from the table at physical address `table` down; `w` is the conjunction of the
      writable bits met so far. */
  function WalkFrom(s: Tables, table: nat, level: nat, va: nat, w: bool): (r: Walked)
    requires Wf(s)
    decreases level
  {
    if level == 0 || !InPool(s, table) then Fault
    else
      var e := s.mem[TableAt(s, table)][Index(va, level)];
      if !Present(e) || (level >= 4 && Huge(e)) then Fault
      else if MapsPage(level, e) then
        Page(AlignDown(AddressField(e), Span(level)) + va % Span(level), Span(level),
             LowFlags(e), HighFlags(e), w && Writable(e))
      else WalkFrom(s, AddressField(e), level - 1, va, w && Writable(e))
  }

  /** The translation of `va` with CR3 holding table 0 of the pool. */
  function Walk(s: Tables, va: nat): (r: Walked)
    requires Wf(s)
  {
    WalkFrom(s, s.base, 4, va, true)
  }

  // ----- the tree ----------------------------------------------------------

  /** Where each allocated table sits: its paging level and the one entry (table, index) that may
      refer to it. */
  datatype Shape = Shape(level: seq<nat>, parent: seq<(nat, nat)>)

  /** Whether entry `i` of table `t` refers to a lower table. */
  predicate RefersDown(s: Tables, sh: Shape, t: nat, i: nat)
    requires Wf(s) && |sh.level| == s.used && t < s.used && i < ENTRIES
  {
    sh.level[t] >= 2 && Present(s.mem[t][i]) && !(sh.level[t] == 2 && Huge(s.mem[t][i]))
  }

  predicate RefOk(s: Tables, sh: Shape, t: nat, i: nat)
    requires Wf(s) && |sh.level| == |sh.parent| == s.used && t < s.used && i < ENTRIES
  {
    RefersDown(s, sh, t, i) ==>
      var child := AlignDown(s.mem[t][i], SIZE_4K);
      && InPool(s, child)
      && s.mem[t][i] == child + 3
      && var c := TableAt(s, child);
      && 0 < c < s.used
      && sh.level[c] == sh.level[t] - 1
      && sh.parent[c] == (t, i)
  }

  ghost predicate Shaped(s: Tables, sh: Shape) {
    && Wf(s)
    && |sh.level| == |sh.parent| == s.used
    && s.used > 0
    && sh.level[0] == 4
    && (forall t :: 0 < t < s.used ==> 1 <= sh.level[t] <= 3)
    && (forall t, i :: 0 <= t < s.used && 0 <= i < ENTRIES ==> RefOk(s, sh, t, i))
  }

  /** The allocated tables form a tree rooted at table 0. */
  ghost predicate IsTree(s: Tables) { exists sh :: Shaped(s, sh) }

  /** What following a reference gives. */
  lemma FollowRef(s: Tables, sh: Shape, t: nat, i: nat) returns (c: nat)
    requires Shaped(s, sh) && t < s.used && i < ENTRIES && RefersDown(s, sh, t, i)
    ensures 0 < c < s.used && sh.level[c] == sh.level[t] - 1 && sh.parent[c] == (t, i)
    ensures AddressField(s.mem[t][i]) == TableAddr(s, c) == AlignDown(s.mem[t][i], SIZE_4K)
    ensures Present(s.mem[t][i]) && Writable(s.mem[t][i]) && !Huge(s.mem[t][i])
    ensures InPool(s, TableAddr(s, c)) && TableAt(s, TableAddr(s, c)) == c
  {
    assert RefOk(s, sh, t, i);
    var child := AlignDown(s.mem[t][i], SIZE_4K);
    c := TableAt(s, child);
    assert child % 4096 == 0;
    TableEntryFields(child);
  }

  /** No table of a tree is referred to from two places. */
  lemma NoSharing(s: Tables, sh: Shape, t: nat, i: nat, t': nat, i': nat)
    requires Shaped(s, sh) && t < s.used && i < ENTRIES && t' < s.used && i' < ENTRIES
    requires RefersDown(s, sh, t, i) && RefersDown(s, sh, t', i')
    requires AddressField(s.mem[t][i]) == AddressField(s.mem[t'][i'])
    ensures t == t' && i == i'
  {
    var c := FollowRef(s, sh, t, i);
    var c' := FollowRef(s, sh, t', i');
  }

  /** The table the walk of `va` consults at `level`, if it gets that far. */
  ghost function PathTable(s: Tables, sh: Shape, va: nat, level: nat): (r: Option<nat>)
    requires Shaped(s, sh) && 1 <= level <= 4
    ensures r.Some? ==> r.value < s.used && sh.level[r.value] == level
    decreases 4 - level
  {
    if level == 4 then Some(0)
    else
      match PathTable(s, sh, va, level + 1)
      case None => None
      case Some(t) =>
        var i := Index(va, level + 1);
        if !RefersDown(s, sh, t, i) then None
        else
          assert RefOk(s, sh, t, i);
          Some(TableAt(s, AlignDown(s.mem[t][i], SIZE_4K)))
  }

  /** One step down a path. */
  lemma PathStep(s: Tables, sh: Shape, va: nat, level: nat) returns (t: nat, i: nat, c: nat)
    requires Shaped(s, sh) && 1 <= level < 4 && PathTable(s, sh, va, level).Some?
    ensures i == Index(va, level + 1)
    ensures PathTable(s, sh, va, level + 1) == Some(t) && PathTable(s, sh, va, level) == Some(c)
    ensures t < s.used && sh.level[t] == level + 1 && RefersDown(s, sh, t, i)
    ensures 0 < c < s.used && sh.level[c] == level && sh.parent[c] == (t, i)
    ensures AddressField(s.mem[t][i]) == TableAddr(s, c) == AlignDown(s.mem[t][i], SIZE_4K)
    ensures Present(s.mem[t][i]) && Writable(s.mem[t][i]) && !Huge(s.mem[t][i])
  {
    t := PathTable(s, sh, va, level + 1).value;
    i := Index(va, level + 1);
    c := FollowRef(s, sh, t, i);
  }

  lemma PrefixStep(va: nat, va': nat, level: nat)
    requires 1 <= level <= 4
    requires Index(va, level) == Index(va', level)
    requires va % VIRT_LIMIT / Span(level + 1) == va' % VIRT_LIMIT / Span(level + 1)
    ensures va % VIRT_LIMIT / Span(level) == va' % VIRT_LIMIT / Span(level)
  {
    IndexOfLow(va, level);
    IndexOfLow(va', level);
  }

  lemma Distribute(d: nat, a: nat, b: nat)
    ensures d * (512 * a + b) == (512 * d) * a + d * b
  {
  }

  /** Dividing by `512 * d` is dividing by `d` and then by 512. */
  lemma NestedDivision(x: nat, d: nat)
    requires d > 0
    ensures x / d == 512 * (x / (512 * d)) + x / d % 512
  {
    var q, r := x / d, x % d;
    var a, b := q / 512, q % 512;
    Distribute(d, a, b);
    MulMono(b, 511, d);
    DivModUnique(x, 512 * d, a, d * b + r);
  }

  lemma FieldIgnores(y: nat, low: nat, d: nat)
    requires d > 0
    ensures (512 * d * y + low) / d % 512 == low / d % 512
  {
    var q, r := low / d, low % d;
    Distribute(d, y, q);
    assert low == d * q + r;
    DivModUnique(512 * d * y + low, d, 512 * y + q, r);
    ModShift(q, 512, y);
  }

  /** Bits above a multiple of the field do not reach it. */
  lemma FieldIgnoresHigh(high: nat, low: nat, d: nat, m: nat)
    requires d > 0
    ensures (512 * d * (m * high) + low) / d % 512 == low / d % 512
  {
    FieldIgnores(m * high, low, d);
  }

  lemma IndexIgnoresHigh(va: nat, level: nat)
    requires 1 <= level <= 4
    ensures Index(va, level) == va % VIRT_LIMIT / Span(level) % 512
  {
    var low, high := va % VIRT_LIMIT, va / VIRT_LIMIT;
    var m: nat := if level == 4 then 1 else if level == 3 then 512 else if level == 2 then 0x4_0000 else 0x800_0000;
    assert 512 * Span(level) * (m * high) == VIRT_LIMIT * high;
    FieldIgnoresHigh(high, low, Span(level), m);
  }

  lemma IndexOfLow(va: nat, level: nat)
    requires 1 <= level <= 4
    ensures va % VIRT_LIMIT / Span(level) == 512 * (va % VIRT_LIMIT / Span(level + 1)) + Index(va, level)
  {
    assert Span(level + 1) == 512 * Span(level);
    NestedDivision(va % VIRT_LIMIT, Span(level));
    IndexIgnoresHigh(va, level);
  }

  /** In a tree, two addresses that reach the same table agree on every index above it. */
  lemma {:induction false} SamePath(s: Tables, sh: Shape, va: nat, va': nat, level: nat)
    requires Shaped(s, sh) && 1 <= level <= 4
    requires PathTable(s, sh, va, level).Some? && PathTable(s, sh, va', level) == PathTable(s, sh, va, level)
    ensures va % VIRT_LIMIT / Span(level + 1) == va' % VIRT_LIMIT / Span(level + 1)
    decreases 4 - level
  {
    if level < 4 {
      var t, i, c := PathStep(s, sh, va, level);
      var t', i', c' := PathStep(s, sh, va', level);
      SamePath(s, sh, va, va', level + 1);
      PrefixStep(va, va', level + 1);
    }
  }

  /** One step of the walk through a reference. */
  lemma RefStep(s: Tables, t: nat, level: nat, va: nat, w: bool, c: nat)
    requires Wf(s) && 2 <= level <= 4 && t < POOL_TABLES
    requires var e := s.mem[t][Index(va, level)];
             Present(e) && Writable(e) && !Huge(e) && AddressField(e) == TableAddr(s, c)
    ensures WalkFrom(s, TableAddr(s, t), level, va, w) == WalkFrom(s, TableAddr(s, c), level - 1, va, w)
  {
    TableRoundTrip(s, t);
  }

  /** The walk stops at an entry that does not refer down, whatever else memory holds. */
  lemma StopStep(s: Tables, s': Tables, t: nat, level: nat, va: nat, w: bool)
    requires Wf(s) && Wf(s') && s'.base == s.base && 1 <= level <= 4 && t < POOL_TABLES
    requires var e := s.mem[t][Index(va, level)];
             && s'.mem[t][Index(va, level)] == e
             && (!Present(e) || (level == 4 && Huge(e)) || MapsPage(level, e))
    ensures WalkFrom(s', TableAddr(s, t), level, va, w) == WalkFrom(s, TableAddr(s, t), level, va, w)
  {
    hide LowFlags, AddressField, AlignDown, Index;
    TableRoundTrip(s, t);
    TableRoundTrip(s', t);
  }

  lemma AbsentStep(s: Tables, t: nat, level: nat, va: nat, w: bool)
    requires Wf(s) && 1 <= level <= 4 && t < POOL_TABLES && !Present(s.mem[t][Index(va, level)])
    ensures WalkFrom(s, TableAddr(s, t), level, va, w) == Fault
  {
    hide LowFlags, AddressField, AlignDown, Index;
    TableRoundTrip(s, t);
  }

  /** The walk passes through the path table of every level it reaches. */
  lemma {:induction false} WalkVia(s: Tables, sh: Shape, va: nat, level: nat)
    requires Shaped(s, sh) && 1 <= level <= 4 && PathTable(s, sh, va, level).Some?
    ensures Walk(s, va) == WalkFrom(s, TableAddr(s, PathTable(s, sh, va, level).value), level, va, true)
    decreases 4 - level
  {
    if level < 4 {
      WalkVia(s, sh, va, level + 1);
      var t, i, c := PathStep(s, sh, va, level);
      RefStep(s, t, level + 1, va, true, c);
    }
  }
}
