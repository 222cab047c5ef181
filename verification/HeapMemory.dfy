/** The heap as bytes: block headers of four fields at their offsets, linked by address. */
module HeapMemory {
  import opened Bits
  import opened LittleEndian
  import opened HeapModel

  const HEAP_MAGIC: nat := 0xF00DF00D
  const NULL: nat := 0

  /** `m` with the bytes `b` stored from `a` on. */
  function Put(m: seq<byte>, a: nat, b: seq<byte>): (r: seq<byte>)
    requires a + |b| <= |m|
    ensures |r| == |m|
    ensures forall k :: 0 <= k < |m| ==> r[k] == if a <= k < a + |b| then b[k - a] else m[k]
  {
    m[..a] + b + m[a + |b|..]
  }

  /** The bytes from `lo` to `hi` may differ, and no other. */
  ghost predicate SameBut(m: seq<byte>, m': seq<byte>, lo: nat, hi: nat) {
    |m'| == |m| && forall k :: 0 <= k < |m| && !(lo <= k < hi) ==> m'[k] == m[k]
  }

  // ----- headers -----------------------------------------------------------

  datatype Header = Header(magic: nat, size: nat, next: nat, free: bool)

  /** The header at offset `a`: magic in bytes 0-3, size in 8-15, next in 16-23, flag in byte 24. */
  function HeaderIn(m: seq<byte>, a: nat): (h: Header)
    requires a + HEADER <= |m|
  {
    Header(Value(m[a..a + 4]), Value(m[a + 8..a + 16]), Value(m[a + 16..a + 24]), m[a + 24] != 0)
  }

  lemma SameHeader(m: seq<byte>, m': seq<byte>, lo: nat, hi: nat, a: nat)
    requires SameBut(m, m', lo, hi) && a + HEADER <= |m| && (hi <= a || a + HEADER <= lo)
    ensures HeaderIn(m', a) == HeaderIn(m, a)
  {
    assert m'[a..a + 4] == m[a..a + 4];
    assert m'[a + 8..a + 16] == m[a + 8..a + 16];
    assert m'[a + 16..a + 24] == m[a + 16..a + 24];
  }

  lemma StoredMagic(m: seq<byte>, a: nat)
    requires a + HEADER <= |m|
    ensures var m' := Put(m, a, Encoded(HEAP_MAGIC, 4));
            SameBut(m, m', a, a + 4) && HeaderIn(m', a) == HeaderIn(m, a).(magic := HEAP_MAGIC)
  {
    hide Encoded, Limit, Value;
    var m' := Put(m, a, Encoded(HEAP_MAGIC, 4));
    Limits();
    EncodedValue(HEAP_MAGIC, 4);
    assert m'[a..a + 4] == Encoded(HEAP_MAGIC, 4);
    assert m'[a + 8..a + 16] == m[a + 8..a + 16];
    assert m'[a + 16..a + 24] == m[a + 16..a + 24];
  }

  lemma StoredSize(m: seq<byte>, a: nat, v: nat)
    requires a + HEADER <= |m| && v < U64
    ensures var m' := Put(m, a + 8, Encoded(v, 8));
            SameBut(m, m', a + 8, a + 24) && HeaderIn(m', a) == HeaderIn(m, a).(size := v)
  {
    hide Encoded, Limit, Value;
    var m' := Put(m, a + 8, Encoded(v, 8));
    Limits();
    EncodedValue(v, 8);
    assert m'[a..a + 4] == m[a..a + 4];
    assert m'[a + 8..a + 16] == Encoded(v, 8);
    assert m'[a + 16..a + 24] == m[a + 16..a + 24];
  }

  lemma StoredNext(m: seq<byte>, a: nat, v: nat)
    requires a + HEADER <= |m| && v < U64
    ensures var m' := Put(m, a + 16, Encoded(v, 8));
            SameBut(m, m', a + 8, a + 24) && HeaderIn(m', a) == HeaderIn(m, a).(next := v)
  {
    hide Encoded, Limit, Value;
    var m' := Put(m, a + 16, Encoded(v, 8));
    Limits();
    EncodedValue(v, 8);
    assert m'[a..a + 4] == m[a..a + 4];
    assert m'[a + 8..a + 16] == m[a + 8..a + 16];
    assert m'[a + 16..a + 24] == Encoded(v, 8);
  }

  lemma StoredFree(m: seq<byte>, a: nat, b: byte)
    requires a + HEADER <= |m|
    ensures SameBut(m, m[a + 24 := b], a + 24, a + 25) && HeaderIn(m[a + 24 := b], a) == HeaderIn(m, a).(free := b != 0)
  {
    hide Value;
    var m' := m[a + 24 := b];
    assert m'[a..a + 4] == m[a..a + 4];
    assert m'[a + 8..a + 16] == m[a + 8..a + 16];
    assert m'[a + 16..a + 24] == m[a + 16..a + 24];
  }

  // ----- the list in memory ------------------------------------------------

  /** The header that block `i` must have: `next` is the end of the block, or null for the last. */
  function HeaderOf(start: nat, bs: seq<Block>, i: nat): (h: Header)
    requires i < |bs|
  {
    Header(HEAP_MAGIC, bs[i].size, if i + 1 < |bs| then start + At(bs, i + 1) else NULL, bs[i].free)
  }

  predicate HeaderAt(m: seq<byte>, start: nat, bs: seq<Block>, i: nat)
    requires i < |bs|
  {
    At(bs, i) + HEADER <= |m| && HeaderIn(m, At(bs, i)) == HeaderOf(start, bs, i)
  }

  predicate Represents(m: seq<byte>, start: nat, bs: seq<Block>) {
    forall i :: 0 <= i < |bs| ==> HeaderAt(m, start, bs, i)
  }

  /** Pointer to block `i`, null past the end. */
  function Pointer(start: nat, bs: seq<Block>, i: nat): (p: nat)
    requires i <= |bs|
  {
    if i < |bs| then start + At(bs, i) else NULL
  }

  /** `bs` with blocks `i..i+w` replaced by `mid`. */
  function Replaced(bs: seq<Block>, i: nat, w: nat, mid: seq<Block>): (r: seq<Block>)
    requires i + w <= |bs|
  {
    bs[..i] + mid + bs[i + w..]
  }

  lemma SplitPrefix(bs: seq<Block>, i: nat, w: nat, m: nat)
    requires i + w + m <= |bs|
    ensures bs[..i + w + m] == bs[..i] + bs[i..i + w] + bs[i + w..][..m]
  {
    var r := bs[..i] + bs[i..i + w] + bs[i + w..][..m];
    forall k | 0 <= k < i + w + m
      ensures r[k] == bs[k]
    {
      if k >= i + w {
        assert bs[i + w..][..m][k - i - w] == bs[k];
      }
    }
  }

  lemma ReplacedPrefix(bs: seq<Block>, i: nat, w: nat, mid: seq<Block>, m: nat)
    requires i + w + m <= |bs|
    ensures |Replaced(bs, i, w, mid)| == i + |mid| + (|bs| - i - w)
    ensures Replaced(bs, i, w, mid)[..i + |mid| + m] == bs[..i] + mid + bs[i + w..][..m]
  {
  }

  lemma ReplacedStart(bs: seq<Block>, i: nat, w: nat, mid: seq<Block>, j: nat)
    requires j <= i && i + w <= |bs|
    ensures |Replaced(bs, i, w, mid)| == i + |mid| + (|bs| - i - w)
    ensures Replaced(bs, i, w, mid)[..j] == bs[..j]
  {
  }

  /** Offsets of the blocks after an operation that replaces blocks by others of equal extent. */
  lemma ReplacedOffsets(bs: seq<Block>, i: nat, w: nat, mid: seq<Block>, j: nat)
    requires i + w <= |bs| && Total(mid) == Total(bs[i..i + w])
    requires j <= i || j >= i + |mid|
    requires j <= i + |mid| + (|bs| - i - w)
    ensures var r := Replaced(bs, i, w, mid);
            && |r| == i + |mid| + (|bs| - i - w)
            && At(r, j) == At(bs, if j <= i then j else j - |mid| + w)
  {
    hide Total, Replaced, Live;
    if j <= i {
      ReplacedStart(bs, i, w, mid, j);
    } else {
      var a, m := bs[..i], j - i - |mid|;
      var c := bs[i + w..][..m];
      ReplacedPrefix(bs, i, w, mid, m);
      SplitPrefix(bs, i, w, m);
      LiveThree(0, a, mid, c);
      LiveThree(0, a, bs[i..i + w], c);
    }
  }

  /** Blocks outside the replaced ones keep their header and address. */
  lemma OutsideHeader(start: nat, bs: seq<Block>, i: nat, w: nat, mid: seq<Block>, j: nat)
    requires i + w <= |bs| && Total(mid) == Total(bs[i..i + w]) && mid != [] && w > 0
    requires j < i || i + |mid| <= j < |Replaced(bs, i, w, mid)|
    ensures var r := Replaced(bs, i, w, mid);
            var k := if j < i then j else j - |mid| + w;
            && 0 <= k < |bs| && (k < i || i + w <= k) && At(r, j) == At(bs, k)
            && HeaderOf(start, r, j) == HeaderOf(start, bs, k)
  {
    hide Total;
    ReplacedOffsets(bs, i, w, mid, j);
    ReplacedOffsets(bs, i, w, mid, j + 1);
  }

  lemma MovedHeader(m: seq<byte>, start: nat, bs: seq<Block>, k: nat, r: seq<Block>, j: nat)
    requires k < |bs| && j < |r| && At(r, j) == At(bs, k) && HeaderOf(start, r, j) == HeaderOf(start, bs, k)
    requires HeaderAt(m, start, bs, k)
    ensures HeaderAt(m, start, r, j)
  {
  }

  /** Replacing blocks in the list and their headers in memory, everything else being left alone. */
  lemma ReplaceKeeps(m: seq<byte>, m': seq<byte>, start: nat, bs: seq<Block>, i: nat, w: nat, mid: seq<Block>)
    requires Represents(m, start, bs)
    requires i + w <= |bs| && Total(mid) == Total(bs[i..i + w]) && mid != [] && w > 0
    requires SameBut(m, m', At(bs, i), At(bs, i + w))
    requires forall j :: i <= j < i + |mid| ==> HeaderAt(m', start, Replaced(bs, i, w, mid), j)
    ensures Represents(m', start, Replaced(bs, i, w, mid))
  {
    hide Total, HeaderOf, At, HeaderIn, SameBut;
    var r := Replaced(bs, i, w, mid);
    forall j | 0 <= j < |r|
      ensures HeaderAt(m', start, r, j)
    {
      if j < i || i + |mid| <= j {
        OutsideHeader(start, bs, i, w, mid, j);
        var k := if j < i then j else j - |mid| + w;
        OtherHeader(m, m', start, bs, i, w, k);
        MovedHeader(m', start, bs, k, r, j);
      }
    }
  }

  lemma OtherHeader(m: seq<byte>, m': seq<byte>, start: nat, bs: seq<Block>, i: nat, w: nat, k: nat)
    requires Represents(m, start, bs) && i + w <= |bs| && k < |bs| && (k < i || i + w <= k)
    requires SameBut(m, m', At(bs, i), At(bs, i + w))
    ensures HeaderAt(m', start, bs, k)
  {
    hide Total, At, HeaderIn;
    assert HeaderAt(m, start, bs, k);
    if k < i {
      Ordered(bs, k, i);
    } else if i + w < k {
      Ordered(bs, i + w, k);
    }
    SameHeader(m, m', At(bs, i), At(bs, i + w), At(bs, k));
  }

  /** Block `i` given a new flag. */
  lemma Reflagged(m: seq<byte>, m': seq<byte>, start: nat, bs: seq<Block>, i: nat, f: bool)
    requires Represents(m, start, bs) && i < |bs| && At(bs, i) + HEADER <= |m|
    requires SameBut(m, m', At(bs, i), At(bs, i) + HEADER)
    requires HeaderIn(m', At(bs, i)) == HeaderIn(m, At(bs, i)).(free := f)
    ensures Represents(m', start, bs[i := bs[i].(free := f)])
  {
    hide Total, At, HeaderIn;
    assert HeaderAt(m, start, bs, i);
    var b := bs[i].(free := f);
    assert bs[i..i + 1] == [bs[i]];
    LiveOne(0, b);
    LiveOne(0, bs[i]);
    var r := Replaced(bs, i, 1, [b]);
    assert r == bs[i := b];
    ReplacedOffsets(bs, i, 1, [b], i);
    ReplacedOffsets(bs, i, 1, [b], i + 1);
    Around(bs, i);
    assert HeaderAt(m', start, r, i);
    ReplaceKeeps(m, m', start, bs, i, 1, [b]);
  }

  /** Taking block `i` whole. */
  lemma TakeWhole(m: seq<byte>, m': seq<byte>, start: nat, bs: seq<Block>, i: nat, n: nat)
    requires Represents(m, start, bs) && i < |bs| && Fits(bs[i], n) && bs[i].size < n + HEADER + 8
    requires At(bs, i) + HEADER <= |m| && SameBut(m, m', At(bs, i), At(bs, i) + HEADER)
    requires HeaderIn(m', At(bs, i)) == HeaderIn(m, At(bs, i)).(free := false)
    ensures Represents(m', start, Alloc(bs, i, n))
  {
    hide Total, At, HeaderIn, Represents;
    assert Alloc(bs, i, n) == bs[i := bs[i].(free := false)];
    Reflagged(m, m', start, bs, i, false);
  }

  /** Splitting block `i`: a new header inside its payload, and the old one shortened. */
  lemma TakeSplit(m: seq<byte>, m': seq<byte>, start: nat, bs: seq<Block>, i: nat, n: nat)
    requires Represents(m, start, bs) && i < |bs| && Fits(bs[i], n) && bs[i].size >= n + HEADER + 8
    requires At(bs, i + 1) <= |m| && SameBut(m, m', At(bs, i), At(bs, i + 1))
    requires var a := At(bs, i);
             var rest := a + HEADER + n;
             && rest + HEADER <= |m|
             && HeaderIn(m', rest) == Header(HEAP_MAGIC, bs[i].size - n - HEADER, HeaderIn(m, a).next, true)
             && HeaderIn(m', a) == Header(HEAP_MAGIC, n, start + rest, false)
    ensures Represents(m', start, Alloc(bs, i, n))
  {
    hide Total, At, HeaderIn;
    assert HeaderAt(m, start, bs, i);
    var t := Taken(bs[i], n);
    assert bs[i..i + 1] == [bs[i]];
    LiveOne(0, bs[i]);
    var r := Replaced(bs, i, 1, t);
    assert r == Alloc(bs, i, n);
    assert r[i] == t[0] && r[i + 1] == t[1];
    ReplacedOffsets(bs, i, 1, t, i);
    ReplacedOffsets(bs, i, 1, t, i + 2);
    Around(r, i);
    assert HeaderAt(m', start, r, i);
    assert HeaderAt(m', start, r, i + 1);
    ReplaceKeeps(m, m', start, bs, i, 1, t);
  }

  /** Absorbing block `i + 1` into block `i`. */
  lemma MergeStep(m: seq<byte>, m': seq<byte>, start: nat, bs: seq<Block>, i: nat)
    requires Represents(m, start, bs) && Mergeable(bs, i)
    requires At(bs, i) + HEADER <= |m| && At(bs, i + 1) + HEADER <= |m|
    requires SameBut(m, m', At(bs, i) + 8, At(bs, i) + 24)
    requires var h, h1 := HeaderIn(m, At(bs, i)), HeaderIn(m, At(bs, i + 1));
             HeaderIn(m', At(bs, i)) == h.(size := h.size + HEADER + h1.size, next := h1.next)
    ensures Represents(m', start, MergeAt(bs, i))
  {
    hide Total, At, HeaderIn;
    assert HeaderAt(m, start, bs, i) && HeaderAt(m, start, bs, i + 1);
    var b := Block(bs[i].size + HEADER + bs[i + 1].size, true);
    assert bs[i..i + 2] == [bs[i]] + [bs[i + 1]];
    LiveOne(0, bs[i]);
    LiveOne(0, bs[i + 1]);
    LiveOne(0, b);
    TotalAppend([bs[i]], [bs[i + 1]]);
    var r := Replaced(bs, i, 2, [b]);
    assert r == MergeAt(bs, i) && r[i] == b;
    ReplacedOffsets(bs, i, 2, [b], i);
    ReplacedOffsets(bs, i, 2, [b], i + 1);
    Ordered(bs, i, i + 2);
    assert HeaderAt(m', start, r, i);
    ReplaceKeeps(m, m', start, bs, i, 2, [b]);
  }

  /** A store that touches no header of the list. */
  lemma ApartStore(m: seq<byte>, m': seq<byte>, start: nat, bs: seq<Block>, lo: nat, n: nat)
    requires Represents(m, start, bs) && SameBut(m, m', lo, lo + n)
    requires forall j :: 0 <= j < |bs| ==> Apart(lo, n, At(bs, j), HEADER)
    ensures Represents(m', start, bs)
  {
    hide At, HeaderIn;
    forall j | 0 <= j < |bs|
      ensures HeaderAt(m', start, bs, j)
    {
      assert HeaderAt(m, start, bs, j) && Apart(lo, n, At(bs, j), HEADER);
      SameHeader(m, m', lo, lo + n, At(bs, j));
    }
  }

  // ----- the flag store of `kfree` -----------------------------------------

  /** Storing 1 at byte `x` changes what the header at `o` says: the byte belongs to its magic, size or
      next field and is not 1 already, or is its flag and is 0. */
  predicate Breaks(m: seq<byte>, o: nat, x: nat)
    requires x < |m|
  {
    ((o <= x < o + 4 || o + 8 <= x < o + 24) && m[x] != 1) || (x == o + 24 && m[x] == 0)
  }

  lemma BreaksHeader(m: seq<byte>, o: nat, x: nat)
    requires o + HEADER <= |m| && x < |m|
    ensures HeaderIn(m[x := 1], o) == HeaderIn(m, o) <==> !Breaks(m, o, x)
  {
    hide Value;
    var m' := m[x := 1];
    FieldBroken(m, o, 4, x);
    FieldBroken(m, o + 8, 8, x);
    FieldBroken(m, o + 16, 8, x);
  }

  lemma FieldBroken(m: seq<byte>, a: nat, n: nat, x: nat)
    requires a + n <= |m| && x < |m|
    ensures Value(m[x := 1][a..a + n]) == Value(m[a..a + n]) <==> !(a <= x < a + n && m[x] != 1)
  {
    hide Value;
    if a <= x < a + n {
      assert m[x := 1][a..a + n] == m[a..a + n][x - a := 1];
      ValueChanges(m[a..a + n], x - a, 1);
    } else {
      assert m[x := 1][a..a + n] == m[a..a + n];
    }
  }

  predicate Harmless(m: seq<byte>, bs: seq<Block>, x: nat)
    requires x < |m|
  {
    forall j :: 0 <= j < |bs| ==> !Breaks(m, At(bs, j), x)
  }

  /** The flag store of `kfree`, wherever its pointer leads, leaves the list intact if and only if it
      hits no byte of a list header that it would change. */
  lemma FlagStoreHarmlessIff(m: seq<byte>, start: nat, bs: seq<Block>, x: nat)
    requires Represents(m, start, bs) && x < |m|
    ensures Represents(m[x := 1], start, bs) <==> Harmless(m, bs, x)
  {
    hide At, HeaderIn, Breaks;
    forall j | 0 <= j < |bs|
      ensures HeaderAt(m, start, bs, j) && (HeaderAt(m[x := 1], start, bs, j) <==> !Breaks(m, At(bs, j), x))
    {
      assert HeaderAt(m, start, bs, j);
      BreaksHeader(m, At(bs, j), x);
    }
  }

  // ----- reading the list --------------------------------------------------

  /** Null ends the list, and only there. */
  lemma FollowNext(m: seq<byte>, start: nat, bs: seq<Block>, i: nat)
    requires Represents(m, start, bs) && start > 0 && i < |bs|
    ensures At(bs, i) + HEADER <= |m| && Pointer(start, bs, i) == start + At(bs, i)
    ensures HeaderIn(m, At(bs, i)) == Header(HEAP_MAGIC, bs[i].size, Pointer(start, bs, i + 1), bs[i].free)
    ensures Pointer(start, bs, i + 1) == NULL <==> i + 1 == |bs|
  {
    assert HeaderAt(m, start, bs, i);
  }

  lemma PointerFits(m: seq<byte>, start: nat, bs: seq<Block>, i: nat)
    requires Represents(m, start, bs) && start + |m| <= U64 && i <= |bs|
    ensures Pointer(start, bs, i) < U64
  {
    if i < |bs| {
      assert HeaderAt(m, start, bs, i);
    }
  }

  lemma FirstPointer(start: nat, bs: seq<Block>)
    requires bs != [] ==> start > 0
    requires bs == [] ==> start == NULL
    ensures Pointer(start, bs, 0) == start
  {
  }

  lemma MergedPointer(start: nat, bs: seq<Block>, i: nat)
    requires Mergeable(bs, i)
    ensures |MergeAt(bs, i)| == |bs| - 1
    ensures Pointer(start, MergeAt(bs, i), i) == Pointer(start, bs, i)
  {
    assert MergeAt(bs, i)[..i] == bs[..i];
  }

  /** Byte `x` is outside the size and next fields of every header of the list. */
  ghost predicate Unlinked(bs: seq<Block>, x: nat) {
    forall j :: 0 <= j < |bs| ==> !(At(bs, j) + 8 <= x < At(bs, j) + 24)
  }

  /** Merging makes no new headers. */
  lemma MergeUnlinked(bs: seq<Block>, i: nat, x: nat)
    requires Mergeable(bs, i) && Unlinked(bs, x)
    ensures Unlinked(MergeAt(bs, i), x)
  {
    hide Total, At;
    var b := Block(bs[i].size + HEADER + bs[i + 1].size, true);
    var r := MergeAt(bs, i);
    assert r == Replaced(bs, i, 2, [b]);
    assert bs[i..i + 2] == [bs[i]] + [bs[i + 1]];
    LiveOne(0, bs[i]);
    LiveOne(0, bs[i + 1]);
    LiveOne(0, b);
    TotalAppend([bs[i]], [bs[i + 1]]);
    forall j | 0 <= j < |r|
      ensures !(At(r, j) + 8 <= x < At(r, j) + 24)
    {
      ReplacedOffsets(bs, i, 2, [b], j);
    }
  }
}
