/** The Multiboot2 information structure (section 3.6 of the Multiboot2 specification) as bytes, and
    the memory-map entries that a walk over its tags meets. */
module BootInfo {
  import opened Bits

  const TAG_END: nat := 0
  const TAG_MMAP: nat := 6
  const USABLE_RAM: nat := 1

  datatype MmapEntry = MmapEntry(base: nat, length: nat, kind: nat)

  function U32At(info: seq<byte>, off: nat): (r: nat)
    requires off + 4 <= |info|
    ensures r < U32
  {
    var b0: nat, b1: nat, b2: nat, b3: nat := info[off], info[off + 1], info[off + 2], info[off + 3];
    b0 + 0x100 * b1 + 0x1_0000 * b2 + 0x100_0000 * b3
  }

  function U64At(info: seq<byte>, off: nat): (r: nat)
    requires off + 8 <= |info|
    ensures r < U64
  {
    U32At(info, off) + U32 * U32At(info, off + 4)
  }

  function RoundUp8(n: nat): (r: nat)
    ensures n <= r < n + 8 && r % 8 == 0
  {
    (n + 7) / 8 * 8
  }

  /** What the walk relies on: complete tags up to an end tag, and whole memory-map entries. */
  predicate TagsOk(info: seq<byte>, off: nat)
    decreases |info| - off
  {
    && |info| + 8 < U32
    && off + 8 <= |info|
    && (U32At(info, off) == TAG_END ||
        var size := U32At(info, off + 4);
        && size >= 8
        && off + RoundUp8(size) <= |info|
        && (U32At(info, off) == TAG_MMAP ==> MmapTagOk(info, off, size))
        && TagsOk(info, off + RoundUp8(size)))
  }

  predicate MmapTagOk(info: seq<byte>, off: nat, size: nat)
    requires off + 8 <= off + size <= |info|
  {
    && size >= 16
    && U32At(info, off + 8) >= 24
    && (size - 16) % U32At(info, off + 8) == 0
  }

  function EntryAt(info: seq<byte>, p: nat): (e: MmapEntry)
    requires p + 24 <= |info|
  {
    MmapEntry(U64At(info, p), U64At(info, p + 8), U32At(info, p + 16))
  }

  /** The entries of one memory-map tag, from `p` up to `end`. */
  function EntriesOfTag(info: seq<byte>, p: nat, end: nat, stride: nat): (es: seq<MmapEntry>)
    requires p <= end <= |info| && stride >= 24 && (end - p) % stride == 0
    decreases end - p
  {
    if p == end then []
    else
      StrideFits(end - p, stride);
      [EntryAt(info, p)] + EntriesOfTag(info, p + stride, end, stride)
  }

  lemma StrideFits(d: nat, stride: nat)
    requires d > 0 && stride > 0 && d % stride == 0
    ensures d >= stride && (d - stride) % stride == 0
  {
    var q := d / stride;
    assert d == stride * q;
    assert q >= 1;
    assert d - stride == stride * (q - 1);
    DivModUnique(d - stride, stride, q - 1, 0);
  }

  /** The entries of the memory-map tag at `off`. */
  function TagEntries(info: seq<byte>, off: nat): (es: seq<MmapEntry>)
    requires off + 8 <= |info|
    requires U32At(info, off + 4) >= 8 && off + U32At(info, off + 4) <= |info|
    requires MmapTagOk(info, off, U32At(info, off + 4))
  {
    EntriesOfTag(info, off + 16, off + U32At(info, off + 4), U32At(info, off + 8))
  }

  /** All memory-map entries from the tag at `off` on, in the order in which they are met. */
  function Entries(info: seq<byte>, off: nat): (es: seq<MmapEntry>)
    requires TagsOk(info, off)
    decreases |info| - off
  {
    if U32At(info, off) == TAG_END then []
    else
      var size := U32At(info, off + 4);
      (if U32At(info, off) == TAG_MMAP then TagEntries(info, off) else [])
      + Entries(info, off + RoundUp8(size))
  }
}
