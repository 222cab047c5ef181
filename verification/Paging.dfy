/** The paging driver as the kernel runs it: a pool updated in place, with the region and tag loops.
    A result of `false` stands for `kpanic`, after which the source does not go on. */
module Paging {
  import opened Bits
  import opened Options
  import opened PageEntries
  import opened PageTables
  import opened PageMapping
  import opened PageRegions
  import opened BootInfo
  import opened PagingInit

  /** A failed page ends the region. */
  lemma {:induction false} RegionStaysFailed(s: Tables, size: nat, va: nat, pa: nat, k: nat, n: nat, flags: nat)
    requires Wf(s) && k <= n && MapRegion(s, size, va, pa, k, flags).None?
    ensures MapRegion(s, size, va, pa, n, flags).None?
    decreases n
  {
    hide MapPage, Span;
    if k < n {
      RegionStaysFailed(s, size, va, pa, k, n - 1, flags);
    }
  }

  lemma {:induction false} EntriesStayFailed(s: Tables, es: seq<MmapEntry>, k: nat)
    requires Wf(s) && k <= |es| && MapEntries(s, es[..k]).None?
    ensures MapEntries(s, es).None?
  {
    hide MapEntry;
    if k < |es| {
      var init := es[..|es| - 1];
      assert init[..k] == es[..k];
      EntriesStayFailed(s, init, k);
    } else {
      assert es[..k] == es;
    }
  }

  lemma EntriesSnoc(s: Tables, es: seq<MmapEntry>, e: MmapEntry)
    requires Wf(s) && MapEntries(s, es).Some?
    ensures MapEntries(s, es + [e]) == MapEntry(MapEntries(s, es).value, e)
  {
    assert (es + [e])[..|es + [e]| - 1] == es;
  }

  /** The loop test `offset < bytes` runs `Pages` times. */
  lemma PagesBound(bytes: nat, size: nat, k: nat)
    requires 1 <= size <= 2
    ensures Offset(size, k) < bytes <==> k < Pages(bytes, size)
  {
    var z := Span(size);
    var x := bytes + (z - 1);
    var q := x / z;
    assert x == z * q + x % z;
    if k < q {
      MulMono(k + 1, q, z);
    } else {
      MulMono(q, k, z);
    }
  }

  class PageTableDriver {
    const base: nat
    const pool: array<seq<nat>>
    var used: nat
    var initialized: bool
    var stray: seq<(nat, nat)>

    ghost predicate Valid()
      reads this, pool
    {
      pool.Length == POOL_TABLES && Wf(Contents())
    }

    ghost function Contents(): (s: Tables)
      reads this, pool
    {
      Tables(base, pool[..], used, stray)
    }

    constructor (poolBase: nat)
      requires poolBase % TABLE_BYTES == 0 && poolBase + POOL_BYTES <= PHYS_LIMIT
      ensures Valid() && fresh(pool) && !initialized
      ensures Contents().used == 0 && Contents().base == poolBase && Contents().stray == []
    {
      base := poolBase;
      pool := new seq<nat>[POOL_TABLES](_ => ZeroTable());
      used := 0;
      initialized := false;
      stray := [];
    }

    method ReadEntry(table: nat, i: nat) returns (e: nat)
      requires Valid() && i < ENTRIES
      ensures e == Load(Contents(), table, i)
    {
      if base <= table < base + POOL_BYTES && (table - base) % TABLE_BYTES == 0 {
        e := pool[(table - base) / TABLE_BYTES][i];
      } else {
        e := 0;
      }
    }

    method WriteEntry(table: nat, i: nat, e: nat)
      requires Valid() && i < ENTRIES
      modifies this`stray, pool
      ensures Valid() && Contents() == Store(old(Contents()), table, i, e)
    {
      if base <= table < base + POOL_BYTES && (table - base) % TABLE_BYTES == 0 {
        var t := (table - base) / TABLE_BYTES;
        pool[t] := pool[t][i := e];
      } else {
        stray := stray + [(table + 8 * i, e)];
      }
    }

    method AllocPageTable() returns (ok: bool, table: nat)
      requires Valid()
      modifies this`used, pool
      ensures Valid()
      ensures ok == AllocTable(old(Contents())).Some?
      ensures ok ==> Contents() == AllocTable(old(Contents())).value && table == TableAddr(old(Contents()), old(used))
      ensures !ok ==> Contents() == old(Contents())
    {
      if TABLE_BYTES * used + TABLE_BYTES > POOL_BYTES {
        return false, 0;
      }
      table := base + TABLE_BYTES * used;
      pool[used] := ZeroTable();
      used := used + 1;
      ok := true;
    }

    /** `if (!(entry & PAGE_PRESENT)) entry = alloc_page_table() | PAGE_PRESENT | PAGE_WRITABLE`. */
    method EnsureTable(table: nat, i: nat) returns (ok: bool)
      requires Valid() && i < ENTRIES
      modifies this`used, this`stray, pool
      ensures Valid()
      ensures ok == Ensure(old(Contents()), table, i).Some?
      ensures ok ==> Contents() == Ensure(old(Contents()), table, i).value
    {
      var e := ReadEntry(table, i);
      if Present(e) {
        return true;
      }
      var lower;
      ok, lower := AllocPageTable();
      if ok {
        WriteEntry(table, i, TableEntry(lower));
      }
    }

    method MapPage4kb(va: nat, pa: nat, flags: nat) returns (ok: bool)
      requires Valid()
      modifies this`used, this`stray, pool
      ensures Valid()
      ensures ok == MapPage4K(old(Contents()), va, pa, flags).Some?
      ensures ok ==> Contents() == MapPage4K(old(Contents()), va, pa, flags).value
    {
      hide Ensure, Store, Load;
      ok := EnsureTable(base, Index(va, 4));
      if !ok { return; }
      var e := ReadEntry(base, Index(va, 4));
      var pdpt := AlignDown(e, SIZE_4K);
      ok := EnsureTable(pdpt, Index(va, 3));
      if !ok { return; }
      e := ReadEntry(pdpt, Index(va, 3));
      var pd := AlignDown(e, SIZE_4K);
      ok := EnsureTable(pd, Index(va, 2));
      if !ok { return; }
      e := ReadEntry(pd, Index(va, 2));
      var pt := AlignDown(e, SIZE_4K);
      WriteEntry(pt, Index(va, 1), Leaf4K(pa, flags));
    }

    method MapPage2mb(va: nat, pa: nat, flags: nat) returns (ok: bool)
      requires Valid()
      modifies this`used, this`stray, pool
      ensures Valid()
      ensures ok == MapPage2M(old(Contents()), va, pa, flags).Some?
      ensures ok ==> Contents() == MapPage2M(old(Contents()), va, pa, flags).value
    {
      hide Ensure, Store, Load;
      ok := EnsureTable(base, Index(va, 4));
      if !ok { return; }
      var e := ReadEntry(base, Index(va, 4));
      var pdpt := AlignDown(e, SIZE_4K);
      ok := EnsureTable(pdpt, Index(va, 3));
      if !ok { return; }
      e := ReadEntry(pdpt, Index(va, 3));
      var pd := AlignDown(e, SIZE_4K);
      WriteEntry(pd, Index(va, 2), Leaf2M(pa, flags));
    }

    /** `bytes` must leave room for the last step of `offset`: beyond that the source's loop never ends. */
    method MapRegion4kb(va: nat, pa: nat, bytes: nat, flags: nat) returns (ok: bool)
      requires Valid() && bytes <= U64 - SIZE_4K
      modifies this`used, this`stray, pool
      ensures Valid()
      ensures ok == MapRegion(old(Contents()), 1, va, pa, Pages(bytes, 1), flags).Some?
      ensures ok ==> Contents() == MapRegion(old(Contents()), 1, va, pa, Pages(bytes, 1), flags).value
    {
      hide MapPage4K, Pages, Wf;
      ghost var s0, n := Contents(), Pages(bytes, 1);
      var offset: nat := 0;
      ghost var k: nat := 0;
      PagesBound(bytes, 1, 0);
      while offset < bytes
        invariant Valid() && offset == Offset(1, k) && (offset < bytes <==> k < n) && k <= n
        invariant MapRegion(s0, 1, va, pa, k, flags) == Some(Contents())
        decreases n - k
      {
        ok := MapPage4kb((va + offset) % U64, (pa + offset) % U64, flags);
        k := k + 1;
        if !ok {
          RegionStaysFailed(s0, 1, va, pa, k, n, flags);
          return;
        }
        offset := offset + SIZE_4K;
        PagesBound(bytes, 1, k);
      }
      ok := true;
    }

    method MapRegion2mb(va: nat, pa: nat, bytes: nat, flags: nat) returns (ok: bool)
      requires Valid() && bytes <= U64 - SIZE_2M
      modifies this`used, this`stray, pool
      ensures Valid()
      ensures ok == MapRegion(old(Contents()), 2, va, pa, Pages(bytes, 2), flags).Some?
      ensures ok ==> Contents() == MapRegion(old(Contents()), 2, va, pa, Pages(bytes, 2), flags).value
    {
      hide MapPage2M, Pages, Wf;
      ghost var s0, n := Contents(), Pages(bytes, 2);
      var offset: nat := 0;
      ghost var k: nat := 0;
      PagesBound(bytes, 2, 0);
      while offset < bytes
        invariant Valid() && offset == Offset(2, k) && (offset < bytes <==> k < n) && k <= n
        invariant MapRegion(s0, 2, va, pa, k, flags) == Some(Contents())
        decreases n - k
      {
        ok := MapPage2mb((va + offset) % U64, (pa + offset) % U64, flags);
        k := k + 1;
        if !ok {
          RegionStaysFailed(s0, 2, va, pa, k, n, flags);
          return;
        }
        offset := offset + SIZE_2M;
        PagesBound(bytes, 2, k);
      }
      ok := true;
    }

    method MapMmioRegion(phys: nat, bytes: nat) returns (ok: bool)
      requires Valid() && phys + bytes <= VIRT_LIMIT
      modifies this`used, this`stray, pool
      ensures Valid()
      ensures ok == MapMmio(old(Contents()), phys, bytes, UNCACHED).Some?
      ensures ok ==> Contents() == MapMmio(old(Contents()), phys, bytes, UNCACHED).value
    {
      hide Pages, MapRegion, AlignDown, RoundUp4K, Wf, Offset;
      var lo := AlignDown(phys, SIZE_4K);
      var hi := RoundUp4K((phys + bytes) % U64);
      MmioPages(phys, bytes);
      ok := MapRegion4kb(lo, lo, hi - lo, UNCACHED);
    }

    /** One memory-map entry inside `paging_init`. */
    method MapUsable(e: MmapEntry) returns (ok: bool)
      requires Valid() && (e.kind == USABLE_RAM ==> e.base + e.length <= VIRT_LIMIT)
      modifies this`used, this`stray, pool
      ensures Valid()
      ensures ok == MapEntry(old(Contents()), e).Some?
      ensures ok ==> Contents() == MapEntry(old(Contents()), e).value
    {
      hide Pages, MapRegion, AlignDown, RoundUp2M, Wf;
      if e.kind == USABLE_RAM {
        var lo := AlignDown(e.base, SIZE_2M);
        var hi := RoundUp2M((e.base + e.length) % U64);
        EntryBounds(e);
        ok := MapRegion2mb(lo, lo, hi - lo, PAGE_WRITABLE);
      } else {
        ok := true;
      }
    }

    /** `paging_init`; `info` starts with its 8-byte header. */
    method InitPaging(info: seq<byte>, kernelStart: nat, kernelEnd: nat) returns (ok: bool)
      requires Valid() && TagsOk(info, 8)
      requires kernelStart <= kernelEnd <= VIRT_LIMIT - 2 * SIZE_2M
      requires EntriesFit(Entries(info, 8))
      modifies this, pool
      ensures Valid()
      ensures old(initialized) ==> !ok
      ensures !old(initialized) ==> ok == Init(old(Contents()), kernelStart, kernelEnd, Entries(info, 8)).Some?
      ensures ok ==> initialized && Contents() == Init(old(Contents()), kernelStart, kernelEnd, Entries(info, 8)).value
      ensures ok && old(used) == 0 ==>
                forall a: nat :: a < VIRT_LIMIT && (a < SIZE_2M || kernelStart <= a < kernelEnd || UsableByte(Entries(info, 8), a)) ==>
                  Identity(Contents(), a)
    {
      hide AlignDown, Wf, MapRegion, AllocTable, MapEntries, UsableByte, Identity, Entries, TagsOk, EntriesFit;
      if initialized {
        return false;
      }
      ghost var es := Entries(info, 8);
      var root;
      ok, root := AllocPageTable();
      if !ok { return; }
      initialized := true;
      var mapSize := KernelMapSize(kernelStart, kernelEnd);
      KernelSizeBound(kernelStart, kernelEnd);
      ok := MapRegion2mb(0, 0, 0x20_0000, PAGE_WRITABLE);
      if !ok { return; }
      ok := MapRegion2mb(kernelStart, kernelStart, mapSize, PAGE_WRITABLE);
      if !ok { return; }
      ok := MapTags(info);
      if ok && old(used) == 0 {
        InitMapsEverything(old(Contents()), kernelStart, kernelEnd, es);
      }
    }

    /** The entry loop over one memory-map tag. */
    method MapTagEntries(info: seq<byte>, start: nat, end: nat, stride: nat) returns (ok: bool)
      requires Valid() && start <= end <= |info| && stride >= 24 && (end - start) % stride == 0
      requires EntriesFit(EntriesOfTag(info, start, end, stride))
      modifies this`used, this`stray, pool
      ensures Valid()
      ensures ok == MapEntries(old(Contents()), EntriesOfTag(info, start, end, stride)).Some?
      ensures ok ==> Contents() == MapEntries(old(Contents()), EntriesOfTag(info, start, end, stride)).value
    {
      hide Wf, MapEntry, MapEntries, EntryAt;
      ghost var s0, all := Contents(), EntriesOfTag(info, start, end, stride);
      ghost var k: nat := 0;
      NoEntries(s0);
      var p := start;
      while p < end
        invariant Valid() && start <= p <= end && (end - p) % stride == 0 && k <= |all|
        invariant EntriesOfTag(info, p, end, stride) == all[k..]
        invariant MapEntries(s0, all[..k]) == Some(Contents())
        decreases end - p
      {
        StrideFits(end - p, stride);
        var e := EntryAt(info, p);
        assert all[k..] == [e] + EntriesOfTag(info, p + stride, end, stride);
        assert all[k] == e && all[k + 1..] == all[k..][1..] && all[..k + 1] == all[..k] + [e];
        ok := MapUsable(e);
        EntriesSnoc(s0, all[..k], e);
        k := k + 1;
        if !ok {
          EntriesStayFailed(s0, all, k);
          return;
        }
        p := p + stride;
      }
      assert all[..k] == all;
      ok := true;
    }

    /** The tag loop of `paging_init`. */
    method MapTags(info: seq<byte>) returns (ok: bool)
      requires Valid() && TagsOk(info, 8) && EntriesFit(Entries(info, 8))
      modifies this`used, this`stray, pool
      ensures Valid()
      ensures ok == MapEntries(old(Contents()), Entries(info, 8)).Some?
      ensures ok ==> Contents() == MapEntries(old(Contents()), Entries(info, 8)).value
    {
      hide Wf, MapEntry, MapEntries, U32At, EntriesOfTag, TagsOk, Entries, MmapTagOk, EntriesFit;
      ghost var s0, all := Contents(), Entries(info, 8);
      ghost var k: nat := 0;
      NoEntries(s0);
      var tag := 8;
      TagHeader(info, 8);
      while U32At(info, tag) != TAG_END
        invariant Valid() && TagsOk(info, tag) && k <= |all| && tag + 8 <= |info|
        invariant Entries(info, tag) == all[k..]
        invariant MapEntries(s0, all[..k]) == Some(Contents())
        decreases |info| - tag
      {
        var size := U32At(info, tag + 4);
        NextTag(info, tag, all, k);
        if U32At(info, tag) == TAG_MMAP {
          MmapTag(info, tag, all, k);
          var stride := U32At(info, tag + 8);
          ghost var es := TagEntries(info, tag);
          ok := MapTagEntries(info, tag + 16, tag + size, stride);
          EntriesAppend(s0, all[..k], es);
          k := k + |es|;
          if !ok {
            EntriesStayFailed(s0, all, k);
            return;
          }
        }
        tag := tag + RoundUp8(size);
        TagHeader(info, tag);
      }
      LastTag(info, tag);
      assert all[..k] == all;
      ok := true;
    }
  }

  lemma TagHeader(info: seq<byte>, tag: nat)
    requires TagsOk(info, tag)
    ensures tag + 8 <= |info|
  {
  }

  lemma LastTag(info: seq<byte>, tag: nat)
    requires TagsOk(info, tag) && U32At(info, tag) == TAG_END
    ensures Entries(info, tag) == []
  {
  }

  /** The tag after one that is not the last. */
  lemma NextTag(info: seq<byte>, tag: nat, all: seq<MmapEntry>, k: nat)
    requires TagsOk(info, tag) && U32At(info, tag) != TAG_END
    requires k <= |all| && Entries(info, tag) == all[k..]
    ensures U32At(info, tag + 4) >= 8 && TagsOk(info, tag + RoundUp8(U32At(info, tag + 4)))
    ensures U32At(info, tag) != TAG_MMAP ==> Entries(info, tag + RoundUp8(U32At(info, tag + 4))) == all[k..]
  {
    hide U32At, TagEntries;
    var next := tag + RoundUp8(U32At(info, tag + 4));
    assert [] + Entries(info, next) == Entries(info, next);
  }

  /** A memory-map tag contributes its entries when the entries from it on are `all[k..]`. */
  lemma MmapTag(info: seq<byte>, tag: nat, all: seq<MmapEntry>, k: nat)
    requires TagsOk(info, tag) && U32At(info, tag) == TAG_MMAP
    requires k <= |all| && Entries(info, tag) == all[k..] && EntriesFit(all)
    ensures U32At(info, tag + 4) >= 16 && tag + U32At(info, tag + 4) <= |info|
    ensures MmapTagOk(info, tag, U32At(info, tag + 4)) && TagsOk(info, tag + RoundUp8(U32At(info, tag + 4)))
    ensures U32At(info, tag + 8) >= 24 && (U32At(info, tag + 4) - 16) % U32At(info, tag + 8) == 0
    ensures var es := TagEntries(info, tag);
            && EntriesFit(es) && k + |es| <= |all|
            && all[..k + |es|] == all[..k] + es
            && Entries(info, tag + RoundUp8(U32At(info, tag + 4))) == all[k + |es|..]
  {
    hide U32At, TagEntries;
    SliceSplit(all, k, TagEntries(info, tag), Entries(info, tag + RoundUp8(U32At(info, tag + 4))));
  }

  lemma SliceSplit<T>(all: seq<T>, k: nat, a: seq<T>, b: seq<T>)
    requires k <= |all| && all[k..] == a + b
    ensures k + |a| <= |all| && all[k + |a|..] == b && all[..k + |a|] == all[..k] + a
    ensures forall i :: 0 <= i < |a| ==> all[k + i] == a[i]
  {
    assert all == all[..k] + a + b;
  }

  /** Entries are mapped in order, so a list can be cut anywhere. */
  lemma {:induction false} EntriesAppend(s: Tables, a: seq<MmapEntry>, b: seq<MmapEntry>)
    requires Wf(s) && MapEntries(s, a).Some?
    ensures MapEntries(s, a + b) == MapEntries(MapEntries(s, a).value, b)
    decreases |b|
  {
    hide MapEntry;
    if b == [] {
      assert a + b == a;
    } else {
      var init := b[..|b| - 1];
      EntriesAppend(s, a, init);
      assert (a + b)[..|a + b| - 1] == a + init;
    }
  }

  lemma EntryBounds(e: MmapEntry)
    requires e.base + e.length <= VIRT_LIMIT
    ensures var lo, hi := AlignDown(e.base, SIZE_2M), RoundUp2M((e.base + e.length) % U64);
            lo <= hi <= VIRT_LIMIT && (hi - lo) % U64 == hi - lo
  {
    hide AlignDown, RoundUp2M;
    var end := e.base + e.length;
    assert end % U64 == end;
    RoundUpFacts(end);
    RoundUpFacts(e.base);
  }

  lemma NoEntries(s: Tables)
    requires Wf(s)
    ensures MapEntries(s, []) == Some(s)
  {
  }

  lemma KernelSizeBound(kernelStart: nat, kernelEnd: nat)
    requires kernelStart <= kernelEnd <= VIRT_LIMIT - 2 * SIZE_2M
    ensures KernelMapSize(kernelStart, kernelEnd) <= VIRT_LIMIT
  {
    hide AlignDown, RoundUp2M;
    RoundUpFacts(kernelEnd - kernelStart);
    ExtraPage(RoundUp2M(kernelEnd - kernelStart));
  }
}
