/** The kernel heap as the sequence of its blocks in address order: first fit with splitting, and a
    coalescing pass over the whole list on every free. */
module HeapModel {
  import opened Bits

  const HEADER: nat := 32

  datatype Block = Block(size: nat, free: bool)

  /** Bytes taken by a run of blocks, headers included. */
  function Total(bs: seq<Block>): (n: nat)
  {
    if bs == [] then 0 else HEADER + bs[0].size + Total(bs[1..])
  }

  /** Offset and payload size of every allocated block of a run that starts at `off`. */
  function Live(off: nat, bs: seq<Block>): (r: set<(nat, nat)>)
    decreases |bs|
  {
    if bs == [] then {}
    else (if bs[0].free then {} else {(off, bs[0].size)}) + Live(off + HEADER + bs[0].size, bs[1..])
  }

  lemma {:induction false} TotalAppend(a: seq<Block>, b: seq<Block>)
    ensures Total(a + b) == Total(a) + Total(b)
  {
    if a == [] {
      assert a + b == b;
    } else {
      assert (a + b)[1..] == a[1..] + b;
      TotalAppend(a[1..], b);
    }
  }

  lemma {:induction false} LiveAppend(off: nat, a: seq<Block>, b: seq<Block>)
    ensures Live(off, a + b) == Live(off, a) + Live(off + Total(a), b)
    decreases |a|
  {
    if a == [] {
      assert a + b == b;
    } else {
      assert (a + b)[1..] == a[1..] + b;
      LiveAppend(off + HEADER + a[0].size, a[1..], b);
    }
  }

  /** Offset of block `i`. */
  function At(bs: seq<Block>, i: nat): (off: nat)
    requires i <= |bs|
  {
    Total(bs[..i])
  }

  lemma Around(bs: seq<Block>, i: nat)
    requires i < |bs|
    ensures bs == bs[..i] + [bs[i]] + bs[i + 1..]
    ensures At(bs, i + 1) == At(bs, i) + HEADER + bs[i].size
  {
    assert bs[..i + 1] == bs[..i] + [bs[i]];
    TotalAppend(bs[..i], [bs[i]]);
    assert Total([bs[i]]) == HEADER + bs[i].size;
  }

  /** Blocks do not overlap: each ends before any later one begins. */
  lemma {:induction false} Ordered(bs: seq<Block>, i: nat, j: nat)
    requires i < j <= |bs|
    ensures At(bs, i) + HEADER + bs[i].size <= At(bs, j)
    decreases j - i
  {
    Around(bs, i);
    if i + 1 < j {
      Ordered(bs, i + 1, j);
    }
  }

  lemma WholeIsTotal(bs: seq<Block>)
    ensures At(bs, |bs|) == Total(bs) && At(bs, 0) == 0
  {
    assert bs[..|bs|] == bs;
  }

  // ----- operations --------------------------------------------------------

  /** `(size + 7) & ~7` in 64 bits. */
  function Rounded(size: nat): (n: nat) { (size + 7) % U64 / 8 * 8 }

  predicate Fits(b: Block, n: nat) { b.free && b.size >= n }

  /** The first block that fits, or the number of blocks. */
  function FirstFit(bs: seq<Block>, n: nat, i: nat): (k: nat)
    requires i <= |bs|
    ensures i <= k <= |bs|
    ensures k < |bs| ==> Fits(bs[k], n)
    ensures forall j :: i <= j < k ==> !Fits(bs[j], n)
    decreases |bs| - i
  {
    if i == |bs| || Fits(bs[i], n) then i else FirstFit(bs, n, i + 1)
  }

  /** Block `i` cut to `n` bytes and taken, the rest split off if it can hold a header and 8 bytes. */
  function Taken(b: Block, n: nat): (r: seq<Block>)
    requires Fits(b, n)
    ensures Total(r) == HEADER + b.size
  {
    if b.size >= n + HEADER + 8 then
      var r := [Block(n, false), Block(b.size - n - HEADER, true)];
      assert r[1..] == [Block(b.size - n - HEADER, true)];
      assert Total(r[1..]) == HEADER + r[1].size;
      r
    else
      assert Total([b.(free := false)]) == HEADER + b.size;
      [b.(free := false)]
  }

  function Alloc(bs: seq<Block>, i: nat, n: nat): (r: seq<Block>)
    requires i < |bs| && Fits(bs[i], n)
  {
    bs[..i] + Taken(bs[i], n) + bs[i + 1..]
  }

  function MergeAt(bs: seq<Block>, i: nat): (r: seq<Block>)
    requires i + 1 < |bs|
  {
    bs[..i] + [Block(bs[i].size + HEADER + bs[i + 1].size, true)] + bs[i + 2..]
  }

  predicate Mergeable(bs: seq<Block>, i: nat) { i + 1 < |bs| && bs[i].free && bs[i + 1].free }

  /** The coalescing pass from block `i` on: a merged block is looked at again before moving on. */
  function CoalesceFrom(bs: seq<Block>, i: nat): (r: seq<Block>)
    requires i <= |bs|
    decreases |bs| - i
  {
    if i == |bs| then bs
    else if Mergeable(bs, i) then CoalesceFrom(MergeAt(bs, i), i)
    else CoalesceFrom(bs, i + 1)
  }

  function Free(bs: seq<Block>, i: nat): (r: seq<Block>)
    requires i < |bs|
  {
    CoalesceFrom(bs[i := bs[i].(free := true)], 0)
  }

  // ----- what operations keep ----------------------------------------------

  /** No two neighbouring free blocks. */
  predicate Coalesced(bs: seq<Block>) { forall i :: 0 <= i < |bs| - 1 ==> !(bs[i].free && bs[i + 1].free) }

  /** Every block but the last has a size that keeps its successor aligned. */
  predicate Aligned(bs: seq<Block>) { forall i :: 0 <= i < |bs| - 1 ==> bs[i].size % 8 == 0 }

  /** Allocation keeps the extent, adds exactly one allocated block, which is fewer than 40 bytes larger than
      it need be, splits off at least 8 bytes or nothing, and never leaves two neighbouring free blocks
      although it does not merge. */
  lemma AllocKeeps(bs: seq<Block>, i: nat, n: nat)
    requires i < |bs| && Fits(bs[i], n)
    ensures var r := Alloc(bs, i, n);
            && Total(r) == Total(bs)
            && |r| > i && At(r, i) == At(bs, i)
            && n <= r[i].size < n + 40 && !r[i].free
            && (r[i].size > n ==> r[i].size == bs[i].size)
            && (|r| > |bs| ==> r[i + 1].free && r[i + 1].size >= 8)
            && Live(0, r) == Live(0, bs) + {(At(bs, i), r[i].size)}
            && (Coalesced(bs) ==> Coalesced(r))
            && (Aligned(bs) && n % 8 == 0 ==> Aligned(r))
  {
    var a, c, t := bs[..i], bs[i + 1..], Taken(bs[i], n);
    var r := Alloc(bs, i, n);
    Around(bs, i);
    LiveThree(0, a, t, c);
    LiveThree(0, a, [bs[i]], c);
    LiveOne(0, bs[i]);
    assert r[..i] == a && r[i] == t[0];
    assert |t| == 2 ==> r[i + 1] == t[1];
    AllocLive(bs, i, n);
    AllocShape(bs, i, n);
  }

  lemma LiveThree(off: nat, a: seq<Block>, b: seq<Block>, c: seq<Block>)
    ensures Live(off, a + b + c) == Live(off, a) + Live(off + Total(a), b) + Live(off + Total(a) + Total(b), c)
    ensures Total(a + b + c) == Total(a) + Total(b) + Total(c)
  {
    LiveAppend(off, a + b, c);
    LiveAppend(off, a, b);
    TotalAppend(a, b);
    TotalAppend(a + b, c);
  }

  lemma LiveOne(off: nat, b: Block)
    ensures Live(off, [b]) == if b.free then {} else {(off, b.size)}
    ensures Total([b]) == HEADER + b.size
  {
    assert Live(off + HEADER + b.size, []) == {};
  }

  lemma LiveTaken(off: nat, b: Block, n: nat)
    requires Fits(b, n)
    ensures Live(off, Taken(b, n)) == {(off, Taken(b, n)[0].size)}
  {
    var t := Taken(b, n);
    LiveOne(off, t[0]);
    if |t| == 2 {
      assert t == [t[0]] + [t[1]];
      LiveAppend(off, [t[0]], [t[1]]);
      LiveOne(off + HEADER + t[0].size, t[1]);
    } else {
      assert t == [t[0]];
    }
  }

  lemma AllocLive(bs: seq<Block>, i: nat, n: nat)
    requires i < |bs| && Fits(bs[i], n)
    ensures Live(0, Alloc(bs, i, n)) == Live(0, bs) + {(At(bs, i), Taken(bs[i], n)[0].size)}
  {
    hide Taken, Live, Total;
    var a, c, t := bs[..i], bs[i + 1..], Taken(bs[i], n);
    Around(bs, i);
    LiveThree(0, a, t, c);
    LiveThree(0, a, [bs[i]], c);
    LiveOne(At(bs, i), bs[i]);
    LiveTaken(At(bs, i), bs[i], n);
  }

  lemma AllocShape(bs: seq<Block>, i: nat, n: nat)
    requires i < |bs| && Fits(bs[i], n)
    ensures Coalesced(bs) ==> Coalesced(Alloc(bs, i, n))
    ensures Aligned(bs) && n % 8 == 0 ==> Aligned(Alloc(bs, i, n))
  {
    var r, t := Alloc(bs, i, n), Taken(bs[i], n);
    var d := |t| - 1;
    assert forall j :: 0 <= j < i ==> r[j] == bs[j];
    assert forall j :: i + |t| <= j < |r| ==> r[j] == bs[j - d];
    assert r[i] == t[0] && (d == 1 ==> r[i + 1] == t[1]);
    if Coalesced(bs) {
      forall j | 0 <= j < |r| - 1
        ensures !(r[j].free && r[j + 1].free)
      {
        if j >= i + |t| {
          assert bs[j - d] == r[j] && bs[j - d + 1] == r[j + 1];
        } else if j == i + d && j != i {
          assert r[j + 1] == bs[i + 1];
        } else if j < i {
          assert r[j] == bs[j];
        }
      }
    }
    if Aligned(bs) && n % 8 == 0 {
      forall j | 0 <= j < |r| - 1
        ensures r[j].size % 8 == 0
      {
        if j >= i + |t| {
          assert bs[j - d] == r[j];
        }
      }
    }
  }

  lemma MergeLive(bs: seq<Block>, i: nat)
    requires Mergeable(bs, i)
    ensures Total(MergeAt(bs, i)) == Total(bs)
    ensures Live(0, MergeAt(bs, i)) == Live(0, bs)
  {
    hide Live, Total;
    var a, c := bs[..i], bs[i + 2..];
    var x, y := bs[i], bs[i + 1];
    var m := Block(x.size + HEADER + y.size, true);
    var off := At(bs, i);
    assert bs == a + [x, y] + c && [x, y] == [x] + [y];
    LiveThree(0, a, [x, y], c);
    LiveThree(0, a, [m], c);
    LiveAppend(off, [x], [y]);
    TotalAppend([x], [y]);
    LiveOne(off, x);
    LiveOne(off + HEADER + x.size, y);
    LiveOne(off, m);
  }

  lemma SumOfEights(x: nat, y: nat)
    requires x % 8 == 0 && y % 8 == 0
    ensures (x + HEADER + y) % 8 == 0
  {
  }

  lemma MergeAligned(bs: seq<Block>, i: nat)
    requires Mergeable(bs, i) && Aligned(bs)
    ensures Aligned(MergeAt(bs, i))
  {
    var r := MergeAt(bs, i);
    forall j | 0 <= j < |r| - 1
      ensures r[j].size % 8 == 0
    {
      if j > i {
        assert r[j] == bs[j + 1];
      } else if j == i {
        SumOfEights(bs[i].size, bs[i + 1].size);
      }
    }
  }

  /** Up to block `i` the pass has left no two neighbouring free blocks. */
  predicate CoalescedTo(bs: seq<Block>, i: nat) {
    forall j :: 0 <= j < i && j + 1 < |bs| ==> !(bs[j].free && bs[j + 1].free)
  }

  lemma {:induction false} CoalesceKeeps(bs: seq<Block>, i: nat)
    requires i <= |bs| && CoalescedTo(bs, i)
    ensures var r := CoalesceFrom(bs, i);
            && Total(r) == Total(bs) && Live(0, r) == Live(0, bs)
            && Coalesced(r)
            && (Aligned(bs) ==> Aligned(r))
            && (bs != [] ==> r != [])
    decreases |bs| - i
  {
    hide Live, Total;
    if i == |bs| {
    } else if Mergeable(bs, i) {
      MergeLive(bs, i);
      if Aligned(bs) {
        MergeAligned(bs, i);
      }
      var m := MergeAt(bs, i);
      assert forall j :: 0 <= j < i ==> m[j] == bs[j];
      assert m[i].free && bs[i].free;
      CoalesceKeeps(m, i);
    } else {
      CoalesceKeeps(bs, i + 1);
    }
  }

  /** Freeing keeps the extent, removes exactly the freed block from the allocated ones, and leaves no
      two neighbouring free blocks whatever the list was. */
  lemma FreeKeeps(bs: seq<Block>, i: nat)
    requires i < |bs|
    ensures var r := Free(bs, i);
            && Total(r) == Total(bs)
            && Live(0, r) == Live(0, bs) - {(At(bs, i), bs[i].size)}
            && Coalesced(r)
            && (Aligned(bs) ==> Aligned(r))
            && r != []
  {
    hide Live, Total, CoalesceFrom;
    MarkFree(bs, i);
    CoalesceKeeps(bs[i := bs[i].(free := true)], 0);
  }

  /** Setting the free flag of block `i`. */
  lemma MarkFree(bs: seq<Block>, i: nat)
    requires i < |bs|
    ensures var bs' := bs[i := bs[i].(free := true)];
            && Total(bs') == Total(bs)
            && Live(0, bs') == Live(0, bs) - {(At(bs, i), bs[i].size)}
            && (Aligned(bs) ==> Aligned(bs'))
  {
    hide Live, Total;
    var f := bs[i].(free := true);
    var a, c, off := bs[..i], bs[i + 1..], At(bs, i);
    assert bs[i := f] == a + [f] + c;
    Around(bs, i);
    LiveThree(0, a, [f], c);
    LiveThree(0, a, [bs[i]], c);
    LiveOne(off, f);
    LiveOne(off, bs[i]);
    LiveOnce(bs, i);
  }

  lemma {:induction false} LiveBounds(off: nat, bs: seq<Block>)
    ensures forall p :: p in Live(off, bs) ==> off <= p.0 && p.0 + HEADER + p.1 <= off + Total(bs)
    decreases |bs|
  {
    if bs != [] {
      LiveBounds(off + HEADER + bs[0].size, bs[1..]);
    }
  }

  /** The offset of block `i` occurs once among the allocated blocks. */
  lemma LiveOnce(bs: seq<Block>, i: nat)
    requires i < |bs|
    ensures (At(bs, i), bs[i].size) !in Live(0, bs[..i])
    ensures (At(bs, i), bs[i].size) !in Live(At(bs, i) + HEADER + bs[i].size, bs[i + 1..])
  {
    hide Live, Total;
    LiveBounds(0, bs[..i]);
    LiveBounds(At(bs, i) + HEADER + bs[i].size, bs[i + 1..]);
  }

  // ----- where blocks and payloads are -------------------------------------

  /** Every allocated entry is a block of the list. */
  lemma {:induction false} LiveIndex(bs: seq<Block>, p: (nat, nat)) returns (i: nat)
    requires p in Live(0, bs)
    ensures i < |bs| && At(bs, i) == p.0 && bs[i].size == p.1 && !bs[i].free
  {
    i := LiveIndexFrom(bs, 0, p);
  }

  lemma {:induction false} LiveIndexFrom(bs: seq<Block>, k: nat, p: (nat, nat)) returns (i: nat)
    requires k <= |bs| && p in Live(At(bs, k), bs[k..])
    ensures k <= i < |bs| && At(bs, i) == p.0 && bs[i].size == p.1 && !bs[i].free
    decreases |bs| - k
  {
    Around(bs, k);
    assert bs[k..][1..] == bs[k + 1..];
    if !bs[k].free && p == (At(bs, k), bs[k].size) {
      i := k;
    } else {
      i := LiveIndexFrom(bs, k + 1, p);
    }
  }

  /** An allocated block of the list is an allocated entry. */
  lemma IndexLive(bs: seq<Block>, i: nat)
    requires i < |bs|
    ensures !bs[i].free ==> (At(bs, i), bs[i].size) in Live(0, bs)
  {
    hide Live, Total;
    Around(bs, i);
    LiveThree(0, bs[..i], [bs[i]], bs[i + 1..]);
    LiveOne(At(bs, i), bs[i]);
  }

  lemma {:induction false} OffsetsAligned(bs: seq<Block>, i: nat)
    requires Aligned(bs) && i < |bs|
    ensures At(bs, i) % 8 == 0
  {
    hide Total;
    if i > 0 {
      OffsetsAligned(bs, i - 1);
      Around(bs, i - 1);
      SumOfEights(At(bs, i - 1), bs[i - 1].size);
    } else {
      WholeIsTotal(bs);
    }
  }

  predicate Apart(a: nat, n: nat, b: nat, m: nat) { a + n <= b || b + m <= a }

  /** Payloads are aligned, inside the heap, and apart from every header and every other payload. */
  lemma PayloadsApart(bs: seq<Block>, p: (nat, nat))
    requires p in Live(0, bs)
    ensures Aligned(bs) ==> (p.0 + HEADER) % 8 == 0
    ensures p.0 + HEADER + p.1 <= Total(bs)
    ensures forall j :: 0 <= j < |bs| ==> Apart(p.0 + HEADER, p.1, At(bs, j), HEADER)
    ensures forall q :: q in Live(0, bs) && q.0 != p.0 ==> Apart(p.0, HEADER + p.1, q.0, HEADER + q.1)
  {
    hide Live, Total;
    var i := LiveIndex(bs, p);
    LiveBounds(0, bs);
    if Aligned(bs) {
      OffsetsAligned(bs, i);
    }
    forall j | 0 <= j < |bs|
      ensures Apart(p.0 + HEADER, p.1, At(bs, j), HEADER)
    {
      if i < j {
        Ordered(bs, i, j);
      } else if j < i {
        Ordered(bs, j, i);
      }
    }
    forall q | q in Live(0, bs) && q.0 != p.0
      ensures Apart(p.0, HEADER + p.1, q.0, HEADER + q.1)
    {
      var j := LiveIndex(bs, q);
      if i < j {
        Ordered(bs, i, j);
      } else {
        Ordered(bs, j, i);
      }
    }
  }

  // ----- failure is complete -----------------------------------------------

  /** `n` consecutive bytes of the heap from `a` that no allocated block uses, header included. */
  predicate UnusedRange(bs: seq<Block>, a: nat, n: nat) {
    && a + n <= Total(bs)
    && forall p :: p in Live(0, bs) ==> Apart(a, n, p.0, HEADER + p.1)
  }

  lemma {:induction false} Containing(bs: seq<Block>, a: nat, k: nat) returns (i: nat)
    requires k <= |bs| && At(bs, k) <= a < Total(bs)
    ensures k <= i < |bs| && At(bs, i) <= a < At(bs, i) + HEADER + bs[i].size
    decreases |bs| - k
  {
    WholeIsTotal(bs);
    Around(bs, k);
    if a < At(bs, k + 1) {
      i := k;
    } else {
      i := Containing(bs, a, k + 1);
    }
  }

  /** In a coalesced heap an unused range lies inside one free block. */
  lemma UnusedInOneBlock(bs: seq<Block>, a: nat, n: nat) returns (i: nat)
    requires Coalesced(bs) && n > 0 && UnusedRange(bs, a, n)
    ensures i < |bs| && bs[i].free && At(bs, i) <= a && a + n <= At(bs, i) + HEADER + bs[i].size
  {
    hide Live, Total;
    WholeIsTotal(bs);
    i := Containing(bs, a, 0);
    Around(bs, i);
    IndexLive(bs, i);
    if i + 1 < |bs| {
      IndexLive(bs, i + 1);
    }
  }

  lemma BlockUnused(bs: seq<Block>, i: nat, n: nat)
    requires i < |bs| && bs[i].free && n <= bs[i].size
    ensures UnusedRange(bs, At(bs, i), HEADER + n)
  {
    hide Live, Total;
    WholeIsTotal(bs);
    Ordered(bs, i, |bs|);
    forall p | p in Live(0, bs)
      ensures Apart(At(bs, i), HEADER + n, p.0, HEADER + p.1)
    {
      var j := LiveIndex(bs, p);
      if i < j {
        Ordered(bs, i, j);
      } else {
        Ordered(bs, j, i);
      }
    }
  }

  /** Room for a request of `n` bytes and its header. */
  predicate Room(bs: seq<Block>, a: nat, n: nat) { UnusedRange(bs, a, HEADER + n) }

  lemma RoomFits(bs: seq<Block>, a: nat, n: nat) returns (i: nat)
    requires Coalesced(bs) && Room(bs, a, n)
    ensures i < |bs| && Fits(bs[i], n)
  {
    i := UnusedInOneBlock(bs, a, HEADER + n);
  }

  /** In a coalesced heap first fit fails exactly when no gap between allocated blocks, however it was
      formed, has room for the request and its header. */
  lemma FailureIsComplete(bs: seq<Block>, n: nat)
    requires Coalesced(bs)
    ensures FirstFit(bs, n, 0) == |bs| <==> !exists a :: Room(bs, a, n)
  {
    var k := FirstFit(bs, n, 0);
    if exists a :: Room(bs, a, n) {
      var a :| Room(bs, a, n);
      var i := RoomFits(bs, a, n);
    } else if k < |bs| {
      BlockUnused(bs, k, n);
      assert Room(bs, At(bs, k), n);
    }
  }

  /** With nothing allocated a coalesced heap is one free block. */
  lemma NothingAllocated(bs: seq<Block>)
    requires bs != [] && Coalesced(bs) && Live(0, bs) == {}
    ensures bs == [Block(Total(bs) - HEADER, true)]
  {
    forall i: nat | i < |bs|
      ensures bs[i].free
    {
      IndexLive(bs, i);
    }
    if |bs| > 1 {
      FirstPair(bs);
    }
    assert bs == [bs[0]];
  }

  lemma FirstPair(bs: seq<Block>)
    requires Coalesced(bs) && |bs| > 1
    ensures !(bs[0].free && bs[1].free)
  {
    assert bs[1] == bs[0 + 1];
  }

  // ----- runs --------------------------------------------------------------

  /** The heap with, for each live pointer (by block offset), the size that was asked for. */
  datatype Heap = Heap(blocks: seq<Block>, asked: map<nat, nat>)

  datatype Op = Malloc(size: nat) | Kfree(off: nat)

  /** The block at an offset, found by walking the list; `|bs|` if the offset is no block's. */
  function BlockAt(bs: seq<Block>, off: nat, i: nat): (k: nat)
    requires i <= |bs|
    ensures i <= k <= |bs|
    ensures k < |bs| ==> At(bs, k) == off
    ensures k == |bs| ==> forall j :: i <= j < |bs| ==> At(bs, j) != off
    decreases |bs| - i
  {
    if i == |bs| || At(bs, i) == off then i else BlockAt(bs, off, i + 1)
  }

  function Malloced(h: Heap, size: nat): (h': Heap)
  {
    var n := Rounded(size);
    var k := FirstFit(h.blocks, n, 0);
    if size == 0 || k == |h.blocks| then h
    else Heap(Alloc(h.blocks, k, n), h.asked[At(h.blocks, k) := size])
  }

  function Freed(h: Heap, off: nat): (h': Heap)
  {
    var k := BlockAt(h.blocks, off, 0);
    if k == |h.blocks| then h else Heap(Free(h.blocks, k), h.asked - {off})
  }

  /** Any request, and frees of live pointers. */
  predicate Legal(h: Heap, op: Op) { op.Kfree? ==> op.off in h.asked }

  function Apply(h: Heap, op: Op): (h': Heap)
  {
    match op
    case Malloc(size) => Malloced(h, size)
    case Kfree(off) => Freed(h, off)
  }

  /** The blocks tile the heap, are coalesced and aligned, and the allocated ones are those asked for. */
  ghost predicate Tiled(h: Heap, total: nat) {
    && h.blocks != [] && Total(h.blocks) == total
    && Coalesced(h.blocks) && Aligned(h.blocks)
    && (forall p :: p in Live(0, h.blocks) ==> p.0 in h.asked)
    && (forall off :: off in h.asked ==> exists z: nat :: (off, z) in Live(0, h.blocks))
  }

  /** Every block whose request did not wrap in rounding is as large as asked. */
  ghost predicate Sized(h: Heap) {
    forall p :: p in Live(0, h.blocks) && p.0 in h.asked && h.asked[p.0] + 7 < U64 ==> h.asked[p.0] <= p.1
  }

  ghost predicate HeapInv(h: Heap, total: nat) { Tiled(h, total) && Sized(h) }

  lemma RoundedFacts(size: nat)
    ensures Rounded(size) % 8 == 0
    ensures size + 7 < U64 ==> size <= Rounded(size) < size + 8
    ensures U64 <= size + 7 < U64 + 7 ==> Rounded(size) == 0
  {
  }

  lemma MallocKeeps(h: Heap, size: nat, total: nat)
    requires HeapInv(h, total)
    ensures HeapInv(Malloced(h, size), total)
  {
    hide Live, Total, Alloc, Coalesced, Aligned, Rounded;
    var n := Rounded(size);
    var k := FirstFit(h.blocks, n, 0);
    if size != 0 && k < |h.blocks| {
      RoundedFacts(size);
      AllocKeeps(h.blocks, k, n);
      var h' := Malloced(h, size);
      var off, z := At(h.blocks, k), h'.blocks[k].size;
      FreeNotLive(h.blocks, k);
      assert (off, z) in Live(0, h'.blocks);
      forall o | o in h'.asked
        ensures exists z: nat :: (o, z) in Live(0, h'.blocks)
      {
        if o != off {
          var y: nat :| (o, y) in Live(0, h.blocks);
          assert (o, y) in Live(0, h'.blocks);
        }
      }
    }
  }

  /** The offset of a free block is not the offset of an allocated one. */
  lemma FreeNotLive(bs: seq<Block>, k: nat)
    requires k < |bs| && bs[k].free
    ensures forall p :: p in Live(0, bs) ==> p.0 != At(bs, k)
  {
    hide Live, Total;
    forall p | p in Live(0, bs)
      ensures p.0 != At(bs, k)
    {
      var j := LiveIndex(bs, p);
      if j < k {
        Ordered(bs, j, k);
      } else {
        Ordered(bs, k, j);
      }
    }
  }

  lemma SameOffset(bs: seq<Block>, i: nat, j: nat)
    requires i < |bs| && j < |bs| && At(bs, i) == At(bs, j)
    ensures i == j
  {
    hide Total;
    if i < j {
      Ordered(bs, i, j);
    } else if j < i {
      Ordered(bs, j, i);
    }
  }

  lemma LiveUnique(bs: seq<Block>, p: (nat, nat), q: (nat, nat))
    requires p in Live(0, bs) && q in Live(0, bs) && p.0 == q.0
    ensures p == q
  {
    hide Live, Total;
    var i := LiveIndex(bs, p);
    var j := LiveIndex(bs, q);
    SameOffset(bs, i, j);
  }

  lemma FreeStepKeeps(h: Heap, off: nat, total: nat)
    requires HeapInv(h, total) && off in h.asked
    ensures HeapInv(Freed(h, off), total)
    ensures Freed(h, off).asked == h.asked - {off}
  {
    hide Live, Total, Free, Coalesced, Aligned;
    var z: nat :| (off, z) in Live(0, h.blocks);
    var i := LiveIndex(h.blocks, (off, z));
    var k := BlockAt(h.blocks, off, 0);
    SameOffset(h.blocks, i, k);
    FreeKeeps(h.blocks, k);
    var h' := Freed(h, off);
    forall p | p in Live(0, h'.blocks)
      ensures p.0 in h'.asked
    {
      if p.0 == off {
        LiveUnique(h.blocks, p, (off, z));
      }
    }
    forall o | o in h'.asked
      ensures exists z: nat :: (o, z) in Live(0, h'.blocks)
    {
      var y: nat :| (o, y) in Live(0, h.blocks);
      assert (o, y) in Live(0, h'.blocks);
    }
  }

  predicate LegalRun(h: Heap, run: seq<Op>)
    decreases |run|
  {
    run == [] || (Legal(h, run[0]) && LegalRun(Apply(h, run[0]), run[1..]))
  }

  function After(h: Heap, run: seq<Op>): (h': Heap)
    decreases |run|
  {
    if run == [] then h else After(Apply(h, run[0]), run[1..])
  }

  function Fresh(total: nat): (h: Heap)
    requires total >= HEADER
  {
    Heap([Block(total - HEADER, true)], map[])
  }

  lemma FreshInv(total: nat)
    requires total >= HEADER
    ensures HeapInv(Fresh(total), total)
  {
    LiveOne(0, Block(total - HEADER, true));
  }

  /** Every run of allocations, of any size, and frees of live pointers keeps the blocks tiling the heap,
      coalesced and aligned, with every block as large as asked unless its request wrapped; and when
      everything has been freed the heap is one free block. */
  lemma {:induction false} RunKeeps(h: Heap, run: seq<Op>, total: nat)
    requires HeapInv(h, total) && LegalRun(h, run)
    ensures HeapInv(After(h, run), total)
    ensures After(h, run).asked == map[] ==> After(h, run).blocks == [Block(total - HEADER, true)]
    decreases |run|
  {
    hide Live, Total, Coalesced, Aligned, Malloced, Freed;
    if run == [] {
      if h.asked == map[] {
        assert Live(0, h.blocks) == {};
        NothingAllocated(h.blocks);
      }
    } else {
      match run[0] {
        case Malloc(size) => MallocKeeps(h, size, total);
        case Kfree(off) => FreeStepKeeps(h, off, total);
      }
      RunKeeps(Apply(h, run[0]), run[1..], total);
    }
  }

  /** So from the fresh heap: and all live payloads are aligned, inside the heap, and apart from every
      header and every other block. */
  lemma FreshRunKeeps(total: nat, run: seq<Op>)
    requires total >= HEADER && LegalRun(Fresh(total), run)
    ensures var h := After(Fresh(total), run);
            && HeapInv(h, total) && (h.asked == map[] ==> h == Fresh(total))
            && forall p :: p in Live(0, h.blocks) ==>
                 && (p.0 + HEADER) % 8 == 0 && p.0 + HEADER + p.1 <= total
                 && (forall j :: 0 <= j < |h.blocks| ==> Apart(p.0 + HEADER, p.1, At(h.blocks, j), HEADER))
                 && (forall q :: q in Live(0, h.blocks) && q.0 != p.0 ==> Apart(p.0, HEADER + p.1, q.0, HEADER + q.1))
  {
    hide Live, Total, Coalesced, At, After, LegalRun, Sized;
    FreshInv(total);
    RunKeeps(Fresh(total), run, total);
    var h := After(Fresh(total), run);
    forall p | p in Live(0, h.blocks)
      ensures (p.0 + HEADER) % 8 == 0 && p.0 + HEADER + p.1 <= total
      ensures forall j :: 0 <= j < |h.blocks| ==> Apart(p.0 + HEADER, p.1, At(h.blocks, j), HEADER)
      ensures forall q :: q in Live(0, h.blocks) && q.0 != p.0 ==> Apart(p.0, HEADER + p.1, q.0, HEADER + q.1)
    {
      PayloadsApart(h.blocks, p);
    }
  }

  /** A successful request gets at least what it asked for exactly when rounding it does not wrap. */
  lemma BigEnoughIff(h: Heap, size: nat, total: nat)
    requires Total(h.blocks) == total < U64 && 0 < size < U64
    requires FirstFit(h.blocks, Rounded(size), 0) < |h.blocks|
    ensures var k := FirstFit(h.blocks, Rounded(size), 0);
            Alloc(h.blocks, k, Rounded(size))[k].size >= size <==> size + 7 < U64
  {
    hide Live, Total, Coalesced, Aligned;
    var n := Rounded(size);
    var k := FirstFit(h.blocks, n, 0);
    RoundedFacts(size);
    AllocKeeps(h.blocks, k, n);
    WholeIsTotal(h.blocks);
    Ordered(h.blocks, k, |h.blocks|);
    assert Alloc(h.blocks, k, n)[k].size <= h.blocks[k].size;
  }

  /** A request that wraps: of the largest number of bytes, on any fresh heap, succeeds with none. */
  lemma HugeRequestSucceeds(total: nat)
    requires HEADER + HEADER + 8 <= total < U64
    ensures var h := Fresh(total);
            var n := Rounded(U64 - 1);
            FirstFit(h.blocks, n, 0) == 0 && Alloc(h.blocks, 0, n)[0] == Block(0, false)
  {
    assert Rounded(U64 - 1) == 0;
  }

  /** `kcalloc` multiplies in 64 bits: the block holds the whole array exactly when neither the product
      nor its rounding wraps. */
  lemma CallocBigEnoughIff(h: Heap, nmemb: nat, size: nat, total: nat)
    requires Total(h.blocks) == total < U64
    requires nmemb * size % U64 > 0
    requires FirstFit(h.blocks, Rounded(nmemb * size % U64), 0) < |h.blocks|
    ensures var n := Rounded(nmemb * size % U64);
            var k := FirstFit(h.blocks, n, 0);
            Alloc(h.blocks, k, n)[k].size >= nmemb * size <==> nmemb * size + 7 < U64
  {
    hide Live, Total, Coalesced, Aligned, Rounded;
    var product := nmemb * size;
    var n := Rounded(product % U64);
    var k := FirstFit(h.blocks, n, 0);
    AllocKeeps(h.blocks, k, n);
    WholeIsTotal(h.blocks);
    Ordered(h.blocks, k, |h.blocks|);
    assert Alloc(h.blocks, k, n)[k].size <= h.blocks[k].size;
    if product < U64 {
      assert product % U64 == product;
      BigEnoughIff(h, product, total);
    }
  }

  /** A product that wraps: 2^61 + 1 elements of 8 bytes get one of 8 bytes. */
  lemma WrappingProductSucceeds(total: nat)
    requires HEADER + 8 + HEADER + 8 <= total < U64
    ensures var h := Fresh(total);
            var n := Rounded(0x2000_0000_0000_0001 * 8 % U64);
            FirstFit(h.blocks, n, 0) == 0 && Alloc(h.blocks, 0, n)[0] == Block(8, false)
  {
    assert 0x2000_0000_0000_0001 * 8 % U64 == 8;
    assert Rounded(8) == 8;
  }
}
