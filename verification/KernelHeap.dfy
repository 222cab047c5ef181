/** The allocator as it runs, on the bytes of the heap. */
module KernelHeap {
  import opened Bits
  import opened HeapModel
  import opened LittleEndian
  import opened HeapMemory
  import opened KernelMemory

  lemma {:induction false} FirstFitFrom(bs: seq<Block>, n: nat, i: nat, k: nat)
    requires i <= k <= |bs| && (k < |bs| ==> Fits(bs[k], n)) && forall j :: i <= j < k ==> !Fits(bs[j], n)
    ensures FirstFit(bs, n, i) == k
  {
  }

  /** What `kmalloc` does to the list, and what it returns. */
  ghost predicate MallocResult(start: nat, bs: seq<Block>, size: nat, ptr: nat, bs': seq<Block>) {
    var n := Rounded(size);
    var k := FirstFit(bs, n, 0);
    if size == 0 || k == |bs| then ptr == NULL && bs' == bs
    else ptr == start + At(bs, k) + HEADER && bs' == Alloc(bs, k, n)
  }

  /** The bytes `kmalloc` may change: the headers of the block it takes and of the one it splits off. */
  ghost predicate MallocTouches(bs: seq<Block>, size: nat, x: nat) {
    var n := Rounded(size);
    var k := FirstFit(bs, n, 0);
    && size != 0 && k < |bs|
    && (At(bs, k) <= x < At(bs, k) + HEADER || At(bs, k) + HEADER + n <= x < At(bs, k) + HEADER + n + HEADER)
  }

  /** A successful `kmalloc` returns a payload of at least the rounded size, apart from every header. */
  lemma MallocPayload(bs: seq<Block>, k: nat, n: nat)
    requires k < |bs| && Fits(bs[k], n)
    ensures At(bs, k) + HEADER + n <= Total(bs)
    ensures forall j :: 0 <= j < |Alloc(bs, k, n)| ==> Apart(At(bs, k) + HEADER, n, At(Alloc(bs, k, n), j), HEADER)
  {
    hide Live, Total, Alloc;
    AllocKeeps(bs, k, n);
    var r := Alloc(bs, k, n);
    var p := (At(bs, k), r[k].size);
    PayloadsApart(r, p);
  }

  /** On a coalesced list the pass changes nothing. */
  lemma {:induction false} CoalescedFixed(bs: seq<Block>, i: nat)
    requires Coalesced(bs) && i <= |bs|
    ensures CoalesceFrom(bs, i) == bs
    decreases |bs| - i
  {
    if i < |bs| {
      CoalescedFixed(bs, i + 1);
    }
  }

  lemma FlagUnlinked(bs: seq<Block>, k: nat, x: nat)
    requires k < |bs| && Unlinked(bs, x)
    ensures Unlinked(bs[k := bs[k].(free := true)], x)
  {
    hide Total;
    var r := bs[k := bs[k].(free := true)];
    forall j | 0 <= j < |r|
      ensures !(At(r, j) + 8 <= x < At(r, j) + 24)
    {
      FlagOffsets(bs, k, j);
    }
  }

  lemma FlagOffsets(bs: seq<Block>, k: nat, j: nat)
    requires k < |bs| && j <= |bs|
    ensures At(bs[k := bs[k].(free := true)], j) == At(bs, j)
  {
    var r := bs[k := bs[k].(free := true)];
    if k < j {
      assert r[..j] == bs[..j][k := bs[k].(free := true)];
      MarkFree(bs[..j], k);
    } else {
      assert r[..j] == bs[..j];
    }
  }

  lemma BlockInside(bs: seq<Block>, k: nat)
    requires k < |bs|
    ensures At(bs, k + 1) == At(bs, k) + HEADER + bs[k].size <= Total(bs)
  {
    hide Total;
    Around(bs, k);
    WholeIsTotal(bs);
    Ordered(bs, k, |bs|);
  }

  lemma AllocTotal(bs: seq<Block>, k: nat, n: nat)
    requires k < |bs| && Fits(bs[k], n)
    ensures Total(Alloc(bs, k, n)) == Total(bs) && Alloc(bs, k, n) != []
  {
    AllocKeeps(bs, k, n);
  }

  /** A merged block ends where the absorbed one ended, so its size fits a word. */
  lemma MergeFits(bs: seq<Block>, i: nat)
    requires Mergeable(bs, i)
    ensures At(bs, i) + HEADER + bs[i].size + HEADER + bs[i + 1].size <= Total(bs)
  {
    hide Total;
    WholeIsTotal(bs);
    Around(bs, i);
    Ordered(bs, i + 1, |bs|);
  }

  class HeapAllocator {
    var start: nat
    var mem: array<byte>
    ghost var blocks: seq<Block>

    /** Before `kalloc_init` the list is empty and `start` null.  A heap that does not begin in the first
        bytes of the address space keeps the additions of the split test from wrapping. */
    ghost predicate Valid()
      reads this, mem
    {
      && start + mem.Length <= U64
      && if start == NULL then blocks == []
         else start > 8 && blocks != [] && Total(blocks) == mem.Length && Represents(mem[..], start, blocks)
    }

    constructor ()
      ensures Valid() && start == NULL && blocks == []
    {
      start, mem, blocks := NULL, new byte[0], [];
    }

    /** A store of `n` bytes. */
    method Store(a: nat, v: nat, n: nat)
      requires a + n <= mem.Length
      modifies mem
      ensures mem[..] == Put(old(mem[..]), a, Encoded(v, n))
    {
      ghost var s := Encoded(v, n);
      var i, w := 0, v;
      while i < n
        invariant 0 <= i <= n && Encoded(w, n - i) == s[i..]
        invariant forall k :: 0 <= k < mem.Length ==> mem[k] == if a <= k < a + i then s[k - a] else old(mem[k])
      {
        mem[a + i] := w % 256;
        w := w / 256;
        i := i + 1;
      }
    }

    method SetMagic(a: nat)
      requires a + HEADER <= mem.Length
      modifies mem
      ensures SameBut(old(mem[..]), mem[..], a, a + 4)
      ensures HeaderIn(mem[..], a) == HeaderIn(old(mem[..]), a).(magic := HEAP_MAGIC)
    {
      hide HeaderIn, Encoded, Put;
      StoredMagic(mem[..], a);
      Store(a, HEAP_MAGIC, 4);
    }

    method SetSize(a: nat, v: nat)
      requires a + HEADER <= mem.Length && v < U64
      modifies mem
      ensures SameBut(old(mem[..]), mem[..], a + 8, a + 24)
      ensures HeaderIn(mem[..], a) == HeaderIn(old(mem[..]), a).(size := v)
    {
      hide HeaderIn, Encoded, Put;
      StoredSize(mem[..], a, v);
      Store(a + 8, v, 8);
    }

    method SetNext(a: nat, v: nat)
      requires a + HEADER <= mem.Length && v < U64
      modifies mem
      ensures SameBut(old(mem[..]), mem[..], a + 8, a + 24)
      ensures HeaderIn(mem[..], a) == HeaderIn(old(mem[..]), a).(next := v)
    {
      hide HeaderIn, Encoded, Put;
      StoredNext(mem[..], a, v);
      Store(a + 16, v, 8);
    }

    method SetFree(a: nat, f: bool)
      requires a + HEADER <= mem.Length
      modifies mem
      ensures mem[..] == old(mem[..])[a + 24 := if f then 1 else 0]
      ensures SameBut(old(mem[..]), mem[..], a + 24, a + 25)
      ensures HeaderIn(mem[..], a) == HeaderIn(old(mem[..]), a).(free := f)
    {
      hide HeaderIn;
      StoredFree(mem[..], a, if f then 1 else 0);
      mem[a + 24] := if f then 1 else 0;
      assert mem[..] == old(mem[..])[a + 24 := if f then 1 else 0];
    }

    /** The four stores that make a free block. */
    method MakeHeader(a: nat, size: nat, next: nat)
      requires a + HEADER <= mem.Length && size < U64 && next < U64
      modifies mem
      ensures SameBut(old(mem[..]), mem[..], a, a + HEADER)
      ensures HeaderIn(mem[..], a) == Header(HEAP_MAGIC, size, next, true)
    {
      hide HeaderIn;
      SetMagic(a);
      SetSize(a, size);
      SetNext(a, next);
      SetFree(a, true);
    }

    /** `kalloc_init`: panics (`ok` false) on a heap that cannot hold one header. */
    method KallocInit(memory: array<byte>, base: nat) returns (ok: bool)
      requires base > 8 && base + memory.Length <= U64
      modifies this, memory
      ensures ok == (memory.Length >= HEADER)
      ensures !ok ==> start == old(start) && mem == old(mem) && blocks == old(blocks) && memory[..] == old(memory[..])
      ensures ok ==> Valid() && start == base && mem == memory && blocks == Fresh(memory.Length).blocks
    {
      hide HeaderIn;
      if memory.Length < HEADER {
        return false;
      }
      start, mem := base, memory;
      MakeHeader(0, memory.Length - HEADER, NULL);
      blocks := [Block(memory.Length - HEADER, true)];
      LiveOne(0, blocks[0]);
      assert HeaderAt(mem[..], start, blocks, 0);
      ok := true;
    }

    /** The stores that split `n` bytes off a free block at `a`: a new header, and the old one shortened. */
    method SplitHeader(a: nat, n: nat, h: Header)
      requires a + HEADER + n + HEADER <= mem.Length && h == HeaderIn(mem[..], a)
      requires h.size >= n + HEADER && h.size < U64 && h.next < U64 && start + mem.Length <= U64
      modifies mem
      ensures SameBut(old(mem[..]), mem[..], a, a + HEADER + n + HEADER)
      ensures SameBut(old(mem[..])[a..a + HEADER + n], mem[..][a..a + HEADER + n], 0, HEADER)
      ensures HeaderIn(mem[..], a + HEADER + n) == Header(HEAP_MAGIC, h.size - n - HEADER, h.next, true)
      ensures HeaderIn(mem[..], a) == Header(h.magic, n, start + a + HEADER + n, false)
    {
      hide HeaderIn;
      var rest := a + HEADER + n;
      ghost var m := mem[..];
      MakeHeader(rest, h.size - n - HEADER, h.next);
      ghost var m1 := mem[..];
      SameHeader(m, m1, rest, rest + HEADER, a);
      SetSize(a, n);
      SetNext(a, start + rest);
      SetFree(a, false);
      SameHeader(m1, mem[..], a, a + HEADER, rest);
    }

    /** Block `k`, which fits, taken: split if the rest can hold a header and 8 bytes. */
    method TakeBlock(ghost k: nat, a: nat, n: nat)
      requires Valid() && k < |blocks| && Fits(blocks[k], n) && a == At(blocks, k)
      requires a + HEADER <= mem.Length
      modifies mem, this`blocks
      ensures Valid() && blocks == Alloc(old(blocks), k, n)
      ensures forall x :: 0 <= x < mem.Length && !(a <= x < a + HEADER) && !(a + HEADER + n <= x < a + HEADER + n + HEADER) ==>
                mem[x] == old(mem[x])
    {
      hide At, Alloc, HeaderIn, Represents, Total, HeaderAt;
      ghost var bs, m := blocks, mem[..];
      FollowNext(m, start, bs, k);
      PointerFits(m, start, bs, k + 1);
      BlockInside(bs, k);
      AllocTotal(bs, k, n);
      var h := HeaderIn(mem[..], a);
      if h.size >= (n + HEADER + 8) % U64 {
        SplitHeader(a, n, h);
        TakeSplit(m, mem[..], start, bs, k, n);
      } else {
        SetFree(a, false);
        TakeWhole(m, mem[..], start, bs, k, n);
      }
      blocks := Alloc(blocks, k, n);
    }

    /** `kmalloc`: null, or the payload of the first block that fits. */
    method Kmalloc(size: nat) returns (ptr: nat)
      requires Valid()
      modifies mem, this`blocks
      ensures Valid() && MallocResult(start, old(blocks), size, ptr, blocks)
      ensures size == 0 ==> ptr == 0 && blocks == old(blocks)
      ensures forall x :: 0 <= x < mem.Length && !MallocTouches(old(blocks), size, x) ==> mem[x] == old(mem[x])
    {
      hide At, Represents, Alloc, HeaderIn, Total;
      if size == 0 {
        return NULL;
      }
      var n := Rounded(size);
      var current := start;
      ghost var i := 0;
      FirstPointer(start, blocks);
      while current != NULL
        invariant i <= |blocks| && current == Pointer(start, blocks, i) && (current == NULL <==> i == |blocks|)
        invariant forall j :: 0 <= j < i ==> !Fits(blocks[j], n)
        invariant Valid() && blocks == old(blocks) && mem[..] == old(mem[..])
        decreases |blocks| - i
      {
        FollowNext(mem[..], start, blocks, i);
        var h := HeaderIn(mem[..], current - start);
        if h.free && h.size >= n {
          FirstFitFrom(blocks, n, 0, i);
          TakeBlock(i, current - start, n);
          return current + HEADER;
        }
        current := h.next;
        i := i + 1;
      }
      FirstFitFrom(blocks, n, 0, |blocks|);
      ptr := NULL;
    }

    /** `kcalloc`: a block for the product, its bytes zero. */
    method Kcalloc(nmemb: nat, size: nat) returns (ptr: nat)
      requires Valid() && nmemb * size % U64 + 7 < U64
      modifies mem, this`blocks
      ensures var total := nmemb * size % U64;
              && Valid() && MallocResult(start, old(blocks), total, ptr, blocks)
              && (ptr != NULL ==> start <= ptr && ptr + total <= start + mem.Length
                                  && forall x :: ptr - start <= x < ptr - start + total ==> mem[x] == 0)
    {
      hide At, Represents, Alloc, HeaderIn, Total, Rounded;
      var total := nmemb * size % U64;
      ptr := Kmalloc(total);
      if ptr != NULL {
        RoundedFacts(total);
        ghost var n := Rounded(total);
        MallocPayload(old(blocks), FirstFit(old(blocks), n, 0), n);
        ghost var m := mem[..];
        MemSet(mem, ptr - start, 0, total);
        ApartStore(m, mem[..], start, blocks, ptr - start, total);
      }
    }

    /** A program writes to heap memory; away from the headers of the list this leaves it intact. */
    method PayloadWrite(ptr: nat, bytes: seq<byte>)
      requires Valid() && start <= ptr && ptr + |bytes| <= start + mem.Length
      requires forall j :: 0 <= j < |blocks| ==> Apart(ptr - start, |bytes|, At(blocks, j), HEADER)
      modifies mem
      ensures Valid() && mem[..] == Put(old(mem[..]), ptr - start, bytes)
    {
      hide At, Represents, HeaderIn, Total;
      var a := ptr - start;
      ghost var m := mem[..];
      var i := 0;
      while i < |bytes|
        invariant 0 <= i <= |bytes|
        invariant forall k :: 0 <= k < mem.Length ==> mem[k] == if a <= k < a + i then bytes[k - a] else m[k]
      {
        mem[a + i] := bytes[i];
        i := i + 1;
      }
      assert mem[..] == Put(m, a, bytes);
      if start != NULL {
        ApartStore(m, mem[..], start, blocks, a, |bytes|);
      }
    }

    /** The first half of `kfree`: a header without the magic is a panic (`ok` false); otherwise one byte
        is stored.  On a block of the list that sets its flag; elsewhere the list stays intact exactly
        when the store is harmless. */
    method Release(ptr: nat) returns (ok: bool)
      requires Valid() && start != NULL && start + HEADER <= ptr <= start + mem.Length
      modifies mem, this`blocks
      ensures var b := ptr - start - HEADER;
              var k := BlockAt(old(blocks), b, 0);
              && ok == (HeaderIn(old(mem[..]), b).magic == 0xF00D_F00D)
              && mem[..] == (if ok then old(mem[..])[b + 24 := 1] else old(mem[..]))
              && (k < |old(blocks)| ==> ok && Valid() && blocks == old(blocks)[k := old(blocks)[k].(free := true)])
              && (k == |old(blocks)| ==> blocks == old(blocks))
              && (k == |old(blocks)| && ok ==> (Valid() <==> Harmless(old(mem[..]), blocks, b + 24)))
              && (!ok ==> Valid())
    {
      hide At, Represents, HeaderIn, Total, BlockAt, Harmless;
      var b := ptr - start - HEADER;
      ghost var k, m := BlockAt(blocks, b, 0), mem[..];
      if k < |blocks| {
        FollowNext(m, start, blocks, k);
      }
      if HeaderIn(mem[..], b).magic != HEAP_MAGIC {
        return false;
      }
      SetFree(b, true);
      if k < |blocks| {
        Reflagged(m, mem[..], start, blocks, k, true);
        MarkFree(blocks, k);
        blocks := blocks[k := blocks[k].(free := true)];
      } else {
        FlagStoreHarmlessIff(m, start, blocks, b + 24);
      }
      ok := true;
    }

    /** `kfree`: null is ignored, a bad magic is a panic, a block of the list is freed and the list
        coalesced; so is the list on a pointer to a stale header whose flag store is harmless. */
    method Kfree(ptr: nat) returns (ok: bool)
      requires Valid() && (ptr == NULL || (start != NULL && start + HEADER <= ptr <= start + mem.Length))
      requires ptr != NULL ==>
                 var b := ptr - start - HEADER;
                 HeaderIn(mem[..], b).magic == HEAP_MAGIC && BlockAt(blocks, b, 0) == |blocks| ==> Harmless(mem[..], blocks, b + 24)
      modifies mem, this`blocks
      ensures Valid()
      ensures ptr == NULL ==> ok && blocks == old(blocks) && mem[..] == old(mem[..])
      ensures !ok ==> blocks == old(blocks) && mem[..] == old(mem[..])
      ensures ptr != NULL ==>
                var b := ptr - start - HEADER;
                var k := BlockAt(old(blocks), b, 0);
                && ok == (HeaderIn(old(mem[..]), b).magic == HEAP_MAGIC)
                && (k < |old(blocks)| ==> ok && blocks == Free(old(blocks), k))
                && (k == |old(blocks)| && ok ==> blocks == CoalesceFrom(old(blocks), 0))
                && (k == |old(blocks)| && Coalesced(old(blocks)) ==> blocks == old(blocks))
                && (forall x :: 0 <= x < mem.Length && Unlinked(old(blocks), x) && x != b + 24 ==> mem[x] == old(mem[x]))
    {
      hide At, Represents, HeaderIn, Total, BlockAt, Harmless;
      if ptr == NULL {
        return true;
      }
      ok := Release(ptr);
      if ok {
        ghost var k := BlockAt(old(blocks), ptr - start - HEADER, 0);
        forall x: nat | k < |old(blocks)| && Unlinked(old(blocks), x)
          ensures Unlinked(blocks, x)
        {
          FlagUnlinked(old(blocks), k, x);
        }
        if k == |blocks| && Coalesced(blocks) {
          CoalescedFixed(blocks, 0);
        }
        Coalesce();
      }
    }

    /** The pass over the whole list at the end of `kfree`; it stores to size and next fields only. */
    method Coalesce()
      requires Valid()
      modifies mem, this`blocks
      ensures Valid() && blocks == CoalesceFrom(old(blocks), 0)
      ensures forall x :: 0 <= x < mem.Length && Unlinked(old(blocks), x) ==> mem[x] == old(mem[x])
    {
      hide At, Represents, MergeAt, HeaderIn, Total;
      ghost var b0 := blocks;
      var current := start;
      ghost var i := 0;
      FirstPointer(start, blocks);
      while current != NULL
        invariant Valid() && i <= |blocks| && current == Pointer(start, blocks, i) && (current == NULL <==> i == |blocks|)
        invariant CoalesceFrom(blocks, i) == CoalesceFrom(b0, 0)
        invariant forall x: nat :: Unlinked(b0, x) ==> Unlinked(blocks, x)
        invariant forall x :: 0 <= x < mem.Length && Unlinked(b0, x) ==> mem[x] == old(mem[x])
        decreases |blocks| - i
      {
        FollowNext(mem[..], start, blocks, i);
        var h := HeaderIn(mem[..], current - start);
        if i + 1 < |blocks| {
          FollowNext(mem[..], start, blocks, i + 1);
        }
        if h.free && h.next != NULL && HeaderIn(mem[..], h.next - start).free {
          MergeBlocks(i, current - start);
          continue;
        }
        current := h.next;
        i := i + 1;
      }
    }

    /** The block at offset `a` absorbs the next one. */
    method MergeBlocks(ghost i: nat, a: nat)
      requires Valid() && Mergeable(blocks, i) && a == At(blocks, i)
      modifies mem, this`blocks
      ensures Valid() && blocks == MergeAt(old(blocks), i)
      ensures Pointer(start, blocks, i) == Pointer(start, old(blocks), i) && |blocks| == |old(blocks)| - 1
      ensures forall x: nat :: Unlinked(old(blocks), x) ==> Unlinked(blocks, x)
      ensures forall x :: 0 <= x < mem.Length && Unlinked(old(blocks), x) ==> mem[x] == old(mem[x])
    {
      hide At, Represents, MergeAt, HeaderIn, Total;
      ghost var bs, m := blocks, mem[..];
      FollowNext(m, start, bs, i);
      FollowNext(m, start, bs, i + 1);
      MergeFits(bs, i);
      PointerFits(m, start, bs, i + 2);
      var h := HeaderIn(mem[..], a);
      var h1 := HeaderIn(mem[..], h.next - start);
      SetSize(a, h.size + HEADER + h1.size);
      SetNext(a, h1.next);
      MergeStep(m, mem[..], start, bs, i);
      MergeLive(bs, i);
      MergedPointer(start, bs, i);
      forall x: nat | Unlinked(bs, x)
        ensures Unlinked(MergeAt(bs, i), x)
      {
        MergeUnlinked(bs, i, x);
      }
      blocks := MergeAt(bs, i);
    }
  }

  // ----- a double free -----------------------------------------------------

  lemma Offsets(bs: seq<Block>)
    ensures At(bs, 0) == 0
    ensures |bs| >= 1 ==> At(bs, 1) == HEADER + bs[0].size
    ensures |bs| >= 2 ==> At(bs, 2) == HEADER + bs[0].size + HEADER + bs[1].size
  {
    hide Total;
    WholeIsTotal(bs);
    if |bs| >= 1 {
      Around(bs, 0);
    }
    if |bs| >= 2 {
      Around(bs, 1);
    }
  }

  /** The lists of the run below. */
  lemma RunLists(z: nat)
    requires z >= 224
    ensures Alloc([Block(z, true)], 0, 16) == [Block(16, false), Block(z - 48, true)]
    ensures Alloc([Block(16, false), Block(z - 48, true)], 1, 16) == [Block(16, false), Block(16, false), Block(z - 96, true)]
    ensures Alloc([Block(z, true)], 0, 24) == [Block(24, false), Block(z - 56, true)]
  {
  }

  lemma RunFrees(z: nat)
    requires z >= 224
    ensures Free([Block(16, false), Block(16, false), Block(z - 96, true)], 0) == [Block(16, true), Block(16, false), Block(z - 96, true)]
    ensures Free([Block(16, true), Block(16, false), Block(z - 96, true)], 1) == [Block(z, true)]
  {
    var b1 := [Block(16, true), Block(16, false), Block(z - 96, true)];
    assert [Block(16, false), Block(16, false), Block(z - 96, true)][0 := Block(16, true)] == b1;
    assert CoalesceFrom(b1, 3) == b1;
    assert CoalesceFrom(b1, 2) == b1;
    assert CoalesceFrom(b1, 1) == b1;
    var b2 := b1[1 := Block(16, true)];
    var b3 := [Block(64, true), Block(z - 96, true)];
    assert MergeAt(b2, 0) == b3;
    assert MergeAt(b3, 0) == [Block(z, true)];
    var b4 := [Block(z, true)];
    assert CoalesceFrom(b4, 1) == b4;
    assert CoalesceFrom(b4, 0) == b4;
    assert CoalesceFrom(b3, 0) == b4;
    assert CoalesceFrom(b2, 0) == b4;
  }

  /** The flag byte of a stale header at offset 48 is the low byte of the last header's null link. */
  lemma StaleFlagBreaksLink(m: seq<byte>, start: nat, z: nat)
    requires Represents(m, start, [Block(24, false), Block(z, true)])
    ensures 88 <= |m| && !Harmless(m, [Block(24, false), Block(z, true)], 72)
    ensures HeaderIn(m[72 := 1], 56).next == 1
  {
    var bs := [Block(24, false), Block(z, true)];
    Offsets(bs);
    assert HeaderAt(m, start, bs, 1);
    var s := m[72..80];
    ZeroBytes(s);
    assert m[72] == s[0];
    assert Breaks(m, At(bs, 1), 72);
    var s' := m[72 := 1][72..80];
    assert s' == s[0 := 1] && s'[1..] == s[1..];
  }

  /** Bytes 48 to 51 lie outside the size and next fields of blocks of 16 bytes. */
  lemma MagicUnlinked(bs: seq<Block>)
    requires |bs| == 3 && bs[0].size == 16 && bs[1].size == 16
    ensures forall x: nat :: 48 <= x < 52 ==> Unlinked(bs, x)
  {
    hide At;
    Offsets(bs);
  }

  lemma MagicIs(m: seq<byte>, m': seq<byte>)
    requires 80 <= |m| == |m'| && HeaderIn(m, 48).magic == HEAP_MAGIC && forall x :: 48 <= x < 52 ==> m'[x] == m[x]
    ensures HeaderIn(m', 48).magic == HEAP_MAGIC
  {
    assert m'[48..52] == m[48..52];
  }

  lemma {:induction false} ZeroBytes(s: seq<byte>)
    requires Value(s) == 0 && s != []
    ensures s[0] == 0 && Value(s[1..]) == 0
  {
  }

  /** Two blocks allocated and freed, a larger one allocated over both, and the second pointer freed
      again: its stale header passes the magic test, and the flag store makes the last link point to
      address 1. */
  method DoubleFreeBreaksList(h: HeapAllocator, memory: array<byte>, base: nat)
    requires base > 8 && base + memory.Length <= U64 && memory.Length >= 256
    modifies h, memory
    ensures h.mem == memory && h.start == base && h.blocks == [Block(24, false), Block(memory.Length - 88, true)]
    ensures !h.Valid() && HeaderIn(memory[..], 56).next == 1
  {
    hide At, Represents, HeaderIn, Total, Alloc, Free, CoalesceFrom, Harmless;
    ghost var z := memory.Length - HEADER;
    RunLists(z);
    RunFrees(z);
    var ok := h.KallocInit(memory, base);
    Offsets(h.blocks);
    var p := h.Kmalloc(16);
    Offsets(h.blocks);
    var q := h.Kmalloc(16);
    Offsets(h.blocks);
    FollowNext(memory[..], base, h.blocks, 1);
    ghost var m := memory[..];
    MagicUnlinked(h.blocks);
    ok := h.Kfree(p);
    Offsets(h.blocks);
    MagicUnlinked(h.blocks);
    ok := h.Kfree(q);
    assert forall x :: 48 <= x < 52 ==> memory[x] == m[x];
    Offsets(h.blocks);
    var r := h.Kmalloc(24);
    assert forall x :: 48 <= x < 52 ==> memory[x] == m[x];
    MagicIs(m, memory[..]);
    Offsets(h.blocks);
    StaleFlagBreaksLink(memory[..], base, memory.Length - 88);
    ok := h.Release(q);
  }
}
