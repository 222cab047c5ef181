/** The Multiboot2 information structure written out byte by byte (section 3.6 of the Multiboot2
    specification): the tag walk recovers exactly the entries that were written. */
module BootEncoding {
  import opened Bits
  import opened LittleEndian
  import opened PageEntries
  import opened PageTables
  import opened PagingInit
  import opened BootInfo

  /** A memory-map tag, whose entries are each followed by reserved bytes, or any other tag. */
  datatype Tag =
    | MemoryMap(entries: seq<MmapEntry>, reserved: seq<byte>, version: nat)
    | OtherTag(kind: nat, body: seq<byte>)

  /** Base and length in eight bytes each, type in four. */
  function EncodeEntry(e: MmapEntry, reserved: seq<byte>): (s: seq<byte>)
    ensures |s| == 20 + |reserved|
  {
    Encoded(e.base, 8) + (Encoded(e.length, 8) + (Encoded(e.kind, 4) + reserved))
  }

  function EncodeEntries(es: seq<MmapEntry>, reserved: seq<byte>): (s: seq<byte>)
  {
    if es == [] then [] else EncodeEntry(es[0], reserved) + EncodeEntries(es[1..], reserved)
  }

  function Zeros(n: nat): (s: seq<byte>)
    ensures |s| == n
  {
    seq(n, _ => 0)
  }

  /** What follows the type and size words of a tag. */
  function Body(t: Tag): (s: seq<byte>)
  {
    match t
    case MemoryMap(es, reserved, version) =>
      Encoded(20 + |reserved|, 4) + (Encoded(version, 4) + EncodeEntries(es, reserved))
    case OtherTag(_, body) => body
  }

  function KindOf(t: Tag): (k: nat) { if t.MemoryMap? then 6 else t.kind }

  /** Type, size, body, and zeros up to the next multiple of eight. */
  function EncodeTag(t: Tag): (s: seq<byte>)
  {
    var size := 8 + |Body(t)|;
    Encoded(KindOf(t), 4) + (Encoded(size, 4) + (Body(t) + Zeros((8 - size % 8) % 8)))
  }

  /** All tags, then the end tag of type 0. */
  function EncodeTags(ts: seq<Tag>): (s: seq<byte>)
  {
    if ts == [] then Encoded(0, 4) + Encoded(8, 4) else EncodeTag(ts[0]) + EncodeTags(ts[1..])
  }

  predicate EntryInRange(e: MmapEntry) { e.base < U64 && e.length < U64 && e.kind < U32 }

  predicate TagInRange(t: Tag) {
    match t
    case MemoryMap(es, reserved, version) =>
      4 <= |reserved| < U32 - 20 && version < U32 && forall i :: 0 <= i < |es| ==> EntryInRange(es[i])
    case OtherTag(kind, _) => kind != 0 && kind != 6 && kind < U32
  }

  function AllEntries(ts: seq<Tag>): (es: seq<MmapEntry>)
  {
    if ts == [] then [] else (if ts[0].MemoryMap? then ts[0].entries else []) + AllEntries(ts[1..])
  }

  // ----- reading words back ------------------------------------------------

  lemma ReadsU32(m: seq<byte>, off: nat, v: nat)
    requires Holds(m, off, Encoded(v, 4)) && v < U32
    ensures off + 4 <= |m| && U32At(m, off) == v
  {
    Limits();
    EncodedValue(v, 4);
    FourBytes(m[off..off + 4]);
  }

  lemma FourBytes(s: seq<byte>)
    requires |s| == 4
    ensures var b0: nat, b1: nat, b2: nat, b3: nat := s[0], s[1], s[2], s[3];
            Value(s) == b0 + 0x100 * b1 + 0x1_0000 * b2 + 0x100_0000 * b3
  {
    var b2: nat, b3: nat := s[2], s[3];
    assert s[1..][1..] == s[2..] && s[2..][1..] == s[3..] && s[3..][1..] == [];
    assert Value(s[3..]) == b3;
    assert Value(s[2..]) == b2 + 256 * b3;
    assert Value(s[1..]) == s[1] + 256 * Value(s[2..]);
  }

  /** The low `a` bytes of a word are those of its remainder, the others those of its quotient. */
  lemma {:induction false} EncodedSplit(v: nat, a: nat, b: nat, q: nat, r: nat)
    requires v == Limit(a) * q + r && r < Limit(a)
    ensures Encoded(v, a + b) == Encoded(r, a) + Encoded(q, b)
    decreases a
  {
    hide Limit;
    LimitStep(a);
    if a == 0 {
      assert Encoded(r, 0) + Encoded(q, b) == Encoded(q, b);
    } else {
      ByteStep(v, Limit(a - 1), q, r);
      EncodedSplit(v / 256, a - 1, b, q, r / 256);
      var low, high := Encoded(r / 256, a - 1), Encoded(q, b);
      assert [v % 256] + (low + high) == ([v % 256] + low) + high;
    }
  }

  lemma LimitStep(n: nat)
    ensures Limit(n) == if n == 0 then 1 else 256 * Limit(n - 1)
  {
  }

  lemma ByteStep(v: nat, m: nat, q: nat, r: nat)
    requires v == 256 * m * q + r && r < 256 * m
    ensures v % 256 == r % 256 && v / 256 == m * q + r / 256 && 0 <= r / 256 < m
  {
    var r1, r0 := r / 256, r % 256;
    assert r == 256 * r1 + r0;
    assert 256 * m * q == 256 * (m * q);
    DivModUnique(v, 256, m * q + r1, r0);
  }

  lemma ReadsU64(m: seq<byte>, off: nat, v: nat)
    requires Holds(m, off, Encoded(v, 8)) && v < U64
    ensures off + 8 <= |m| && U64At(m, off) == v
  {
    hide Encoded, Limit;
    Limits();
    var q, r := v / U32, v % U32;
    EncodedSplit(v, 4, 4, q, r);
    HoldsParts(m, off, Encoded(r, 4), Encoded(q, 4));
    ReadsU32(m, off, r);
    ReadsU32(m, off + 4, q);
  }

  // ----- entries -----------------------------------------------------------

  lemma ReadsEntry(m: seq<byte>, p: nat, e: MmapEntry, reserved: seq<byte>)
    requires Holds(m, p, EncodeEntry(e, reserved)) && EntryInRange(e) && |reserved| >= 4
    ensures p + 24 <= |m| && EntryAt(m, p) == e
  {
    hide Encoded, U32At, U64At;
    var c := Encoded(e.kind, 4) + reserved;
    HoldsParts(m, p, Encoded(e.base, 8), Encoded(e.length, 8) + c);
    HoldsParts(m, p + 8, Encoded(e.length, 8), c);
    HoldsParts(m, p + 16, Encoded(e.kind, 4), reserved);
    ReadsU64(m, p, e.base);
    ReadsU64(m, p + 8, e.length);
    ReadsU32(m, p + 16, e.kind);
  }

  lemma {:induction false} ReadsEntries(m: seq<byte>, p: nat, es: seq<MmapEntry>, reserved: seq<byte>)
    requires Holds(m, p, EncodeEntries(es, reserved)) && |reserved| >= 4
    requires forall i :: 0 <= i < |es| ==> EntryInRange(es[i])
    ensures |EncodeEntries(es, reserved)| % (20 + |reserved|) == 0
    ensures EntriesOfTag(m, p, p + |EncodeEntries(es, reserved)|, 20 + |reserved|) == es
    decreases |es|
  {
    hide EncodeEntry, EntryAt;
    if es != [] {
      var stride, rest := 20 + |reserved|, EncodeEntries(es[1..], reserved);
      HoldsParts(m, p, EncodeEntry(es[0], reserved), rest);
      ReadsEntry(m, p, es[0], reserved);
      ReadsEntries(m, p + stride, es[1..], reserved);
      ModShift(|rest|, stride, 1);
      assert es == [es[0]] + es[1..];
    }
  }

  // ----- tags --------------------------------------------------------------

  lemma PaddedSize(size: nat)
    ensures size + (8 - size % 8) % 8 == RoundUp8(size)
  {
    var q, r := size / 8, size % 8;
    if r == 0 {
      DivModUnique(size + 7, 8, q, 7);
    } else {
      DivModUnique(size + 7, 8, q + 1, r - 1);
    }
  }

  /** The words of a tag, its size, and where the next one begins. */
  lemma ReadsTag(m: seq<byte>, off: nat, t: Tag)
    requires Holds(m, off, EncodeTag(t)) && TagInRange(t) && |m| + 8 < U32
    ensures var size := 8 + |Body(t)|;
            && off + 8 <= off + size <= off + RoundUp8(size) <= |m| && |EncodeTag(t)| == RoundUp8(size)
            && U32At(m, off) == KindOf(t) && U32At(m, off + 4) == size
            && Holds(m, off + 8, Body(t))
  {
    hide Encoded, U32At, Body;
    var size := 8 + |Body(t)|;
    var pad := Zeros((8 - size % 8) % 8);
    PaddedSize(size);
    HoldsParts(m, off, Encoded(KindOf(t), 4), Encoded(size, 4) + (Body(t) + pad));
    HoldsParts(m, off + 4, Encoded(size, 4), Body(t) + pad);
    HoldsParts(m, off + 8, Body(t), pad);
    ReadsU32(m, off, KindOf(t));
    ReadsU32(m, off + 4, size);
  }

  lemma MapBody(t: Tag)
    requires t.MemoryMap? && TagInRange(t)
    ensures var es := EncodeEntries(t.entries, t.reserved);
            && Body(t) == Encoded(20 + |t.reserved|, 4) + (Encoded(t.version, 4) + es) && |Body(t)| == 8 + |es|
            && 4 <= |t.reserved| < U32 - 20 && forall i :: 0 <= i < |t.entries| ==> EntryInRange(t.entries[i])
  {
  }

  lemma ReadsMap(m: seq<byte>, off: nat, t: Tag)
    requires t.MemoryMap? && TagInRange(t) && Holds(m, off + 8, Body(t)) && |m| + 8 < U32
    requires off + 8 + |Body(t)| <= |m| && U32At(m, off + 4) == 8 + |Body(t)|
    ensures MmapTagOk(m, off, 8 + |Body(t)|) && TagEntries(m, off) == t.entries
  {
    hide Encoded, U32At, EncodeEntries, EntriesOfTag, Body, Holds, TagInRange;
    MapBody(t);
    var stride, es := 20 + |t.reserved|, EncodeEntries(t.entries, t.reserved);
    HoldsParts(m, off + 8, Encoded(stride, 4), Encoded(t.version, 4) + es);
    HoldsParts(m, off + 12, Encoded(t.version, 4), es);
    ReadsEntries(m, off + 16, t.entries, t.reserved);
    ReadsU32(m, off + 8, stride);
  }

  lemma {:induction false} ReadsTags(m: seq<byte>, off: nat, ts: seq<Tag>)
    requires Holds(m, off, EncodeTags(ts)) && |m| + 8 < U32 && forall i :: 0 <= i < |ts| ==> TagInRange(ts[i])
    ensures TagsOk(m, off) && Entries(m, off) == AllEntries(ts)
    decreases |ts|
  {
    hide Encoded, U32At, EncodeTag, TagEntries, MmapTagOk, Body;
    if ts == [] {
      HoldsParts(m, off, Encoded(0, 4), Encoded(8, 4));
      ReadsU32(m, off, 0);
    } else {
      var t := ts[0];
      HoldsParts(m, off, EncodeTag(t), EncodeTags(ts[1..]));
      ReadsTag(m, off, t);
      ReadsTags(m, off + |EncodeTag(t)|, ts[1..]);
      if t.MemoryMap? {
        ReadsMap(m, off, t);
      }
    }
  }

  /** Whatever tags a boot loader writes after the eight-byte header, the walk of `paging_init` meets exactly
      the entries of the memory-map tags, in order. */
  lemma EntriesOfEncoding(header: seq<byte>, ts: seq<Tag>)
    requires |header| == 8 && |header + EncodeTags(ts)| + 8 < U32 && forall i :: 0 <= i < |ts| ==> TagInRange(ts[i])
    ensures var info := header + EncodeTags(ts);
            TagsOk(info, 8) && Entries(info, 8) == AllEntries(ts)
  {
    var info := header + EncodeTags(ts);
    assert info[8..8 + |EncodeTags(ts)|] == EncodeTags(ts);
    ReadsTags(info, 8, ts);
  }

  // ----- what is mapped, told from the bytes -------------------------------

  /** Byte `a` belongs to an entry of type 1 of some memory-map tag. */
  predicate UsableIn(ts: seq<Tag>, a: nat) {
    exists k, i :: 0 <= k < |ts| && ts[k].MemoryMap? && 0 <= i < |ts[k].entries| && UsableEntry(ts[k].entries[i], a)
  }

  predicate UsableEntry(e: MmapEntry, a: nat) { e.kind == 1 && e.base <= a < e.base + e.length }

  lemma {:induction false} UsableListed(ts: seq<Tag>, k: nat, i: nat, a: nat)
    requires k < |ts| && ts[k].MemoryMap? && i < |ts[k].entries| && UsableEntry(ts[k].entries[i], a)
    ensures UsableByte(AllEntries(ts), a)
    decreases |ts|
  {
    var first := if ts[0].MemoryMap? then ts[0].entries else [];
    var all, rest := AllEntries(ts), AllEntries(ts[1..]);
    if k == 0 {
      assert all[i] == ts[0].entries[i];
    } else {
      UsableListed(ts[1..], k - 1, i, a);
      var j :| 0 <= j < |rest| && rest[j].kind == USABLE_RAM && rest[j].base <= a < rest[j].base + rest[j].length;
      assert all[|first| + j] == rest[j];
    }
  }

  /** After a `paging_init` that does not panic, on the bytes a boot loader writes, every byte of every entry
      of type 1 is mapped onto itself and writable. */
  lemma EncodedMemoryMapped(s: Tables, kernelStart: nat, kernelEnd: nat, header: seq<byte>, ts: seq<Tag>, a: nat)
    requires Wf(s) && s.used == 0 && kernelStart <= kernelEnd <= VIRT_LIMIT - 2 * SIZE_2M
    requires |header| == 8 && |header + EncodeTags(ts)| + 8 < U32 && forall i :: 0 <= i < |ts| ==> TagInRange(ts[i])
    requires EntriesFit(AllEntries(ts)) && TagsOk(header + EncodeTags(ts), 8)
    requires Init(s, kernelStart, kernelEnd, Entries(header + EncodeTags(ts), 8)).Some?
    requires a < VIRT_LIMIT && UsableIn(ts, a)
    ensures Identity(Init(s, kernelStart, kernelEnd, Entries(header + EncodeTags(ts), 8)).value, a)
  {
    hide Init, Identity, EncodeTags, AllEntries, Entries, TagsOk, UsableByte, EntriesFit;
    EntriesOfEncoding(header, ts);
    var k, i :| 0 <= k < |ts| && ts[k].MemoryMap? && 0 <= i < |ts[k].entries| && UsableEntry(ts[k].entries[i], a);
    UsableListed(ts, k, i, a);
    InitMapsEverything(s, kernelStart, kernelEnd, AllEntries(ts));
  }
}
