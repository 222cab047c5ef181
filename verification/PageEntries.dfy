/** 64-bit page-table entries: the flag and address fields of section 4.5 of Intel SDM volume 3A,
    and the values the kernel composes for tables and for 4 KiB and 2 MiB leaves. */
module PageEntries {
  import opened Bits

  const PAGE_PRESENT: nat := 0x1
  const PAGE_WRITABLE: nat := 0x2
  const PAGE_CACHE_DISABLE: nat := 0x10
  const PAGE_HUGE: nat := 0x80

  const SIZE_4K: nat := 0x1000
  const SIZE_2M: nat := 0x20_0000
  const SIZE_1G: nat := 0x4000_0000
  /** One past the largest physical address an entry can hold (bits 51:0). */
  const PHYS_LIMIT: nat := 0x10_0000_0000_0000

  /** Bits 51:12 of an entry, in place. */
  function AddressField(e: nat): (r: nat) { e / 4096 % 0x100_0000_0000 * 4096 }

  /** Bits 11:0 and bits 63:52 of an entry: everything that is not address. */
  function LowFlags(e: nat): (r: nat) { e % 4096 }
  function HighFlags(e: nat): (r: nat) { e / PHYS_LIMIT }

  predicate Present(e: nat) { LowFlags(e) % 2 == 1 }
  predicate Writable(e: nat) { LowFlags(e) / 2 % 2 == 1 }
  predicate CacheDisabled(e: nat) { LowFlags(e) / 16 % 2 == 1 }
  predicate Huge(e: nat) { LowFlags(e) / 128 % 2 == 1 }

  /** Flags that stay out of the address bits of an entry. */
  predicate FlagsOnly(flags: nat) { flags < U64 && flags / 4096 % 0x100_0000_0000 == 0 }

  function AlignDown(a: nat, size: nat): (r: nat)
    requires size > 0
  {
    a - a % size
  }

  /** The masks in the source clear the offset within a page. */
  lemma {:induction false} AlignDownIsMask(a: nat)
    requires a < U64
    ensures And(a, 0xFFFF_FFFF_FFFF_F000) == AlignDown(a, SIZE_4K)
    ensures And(a, 0xFFFF_FFFF_FFE0_0000) == AlignDown(a, SIZE_2M)
    ensures And(a, 0x1FF) == a % 512
  {
    Powers();
    AndHighMask(a, 12, 64);
    FieldsAreDivMod(a, 12);
    AndHighMask(a, 21, 64);
    FieldsAreDivMod(a, 21);
    AndLowMask(a, 9);
    FieldsAreDivMod(a, 9);
  }

  function TableEntry(table: nat): (e: nat) { Or(Or(table, PAGE_PRESENT), PAGE_WRITABLE) }

  function Leaf4K(phys: nat, flags: nat): (e: nat)
  {
    Or(Or(AlignDown(phys, SIZE_4K), flags), PAGE_PRESENT)
  }

  function Leaf2M(phys: nat, flags: nat): (e: nat)
  {
    Or(Or(Or(AlignDown(phys, SIZE_2M), flags), PAGE_PRESENT), PAGE_HUGE)
  }

  /** `|`-ing a page-aligned address with flags: the parts of the result. */
  lemma {:induction false} AddressOrFlags(a: nat, flags: nat)
    requires a % 4096 == 0 && a < PHYS_LIMIT && FlagsOnly(flags)
    ensures Or(a, flags) == a + flags
  {
    Powers();
    var lo, rest := flags % 4096, flags / 4096;
    OrFields(a, flags, 12);
    FieldsAreDivMod(a, 12);
    FieldsAreDivMod(flags, 12);
    FieldsAreDivMod(Or(a, flags), 12);
    OrComm(a / 4096, rest);
    FieldsAreDivMod(rest, 40);
    OrDisjoint(rest, a / 4096, 40);
  }

  lemma {:induction false} OrComm(a: nat, b: nat)
    ensures Or(a, b) == Or(b, a)
    decreases a
  {
    if a > 0 && b > 0 {
      OrComm(a / 2, b / 2);
    }
  }

  lemma {:induction false} OrAssoc(a: nat, b: nat, c: nat)
    ensures Or(Or(a, b), c) == Or(a, Or(b, c))
    decreases a
  {
    if a > 0 {
      OrAssoc(a / 2, b / 2, c / 2);
      OrDouble(a, b);
      OrDouble(b, c);
      OrDouble(Or(a, b), c);
      OrDouble(a, Or(b, c));
    }
  }

  lemma {:induction false} OrLowBitParts(x: nat, bit: nat)
    requires bit < 4096
    ensures Or(x, bit) / 4096 == x / 4096
    ensures Or(x, bit) % 4096 == Or(x % 4096, bit)
  {
    Powers();
    OrFields(x, bit, 12);
    FieldsAreDivMod(x, 12);
    FieldsAreDivMod(bit, 12);
    FieldsAreDivMod(Or(x, bit), 12);
  }

  lemma SameUpper(a: nat, b: nat)
    requires FlagsOnly(a) && a / 4096 == b / 4096
    ensures FlagsOnly(b) && HighFlags(a) == HighFlags(b)
  {
    assert HighFlags(a) == a / 4096 / 0x100_0000_0000;
    assert HighFlags(b) == b / 4096 / 0x100_0000_0000;
  }

  /** Setting one of the low twelve bits of a flag word. */
  lemma {:induction false} OrLowBit(flags: nat, bit: nat)
    requires FlagsOnly(flags) && bit < 4096
    ensures FlagsOnly(Or(flags, bit))
    ensures LowFlags(Or(flags, bit)) == Or(LowFlags(flags), bit)
    ensures HighFlags(Or(flags, bit)) == HighFlags(flags)
  {
    OrLowBitParts(flags, bit);
    SameUpper(flags, Or(flags, bit));
  }

  lemma {:induction false} PresentBit(f: nat)
    ensures Or(f, 1) % 2 == 1
    ensures Or(f, 1) / 2 == f / 2
  {
    OrDouble(f, 1);
  }

  lemma {:induction false} HugeBit(f: nat)
    ensures Or(f, 128) / 128 % 2 == 1
    ensures Or(f, 128) % 2 == f % 2
    ensures Or(f, 128) / 2 % 2 == f / 2 % 2
  {
    assert Or(f, 128) / 128 % 2 == 1 by {
      Powers();
      OrFields(f, 128, 7);
      FieldsAreDivMod(f, 7);
      FieldsAreDivMod(128, 7);
      FieldsAreDivMod(Or(f, 128), 7);
      OrDouble(f / 128, 1);
    }
    OrDouble(f, 128);
    OrDouble(f / 2, 64);
  }

  /** The fields of a word made of a page-aligned address and flags. */
  lemma SumFields(p: nat, flags: nat)
    requires p % 4096 == 0 && p < PHYS_LIMIT && FlagsOnly(flags)
    ensures AddressField(p + flags) == p
    ensures LowFlags(p + flags) == LowFlags(flags)
    ensures HighFlags(p + flags) == HighFlags(flags)
    ensures p + flags < U64
  {
    var e := p + flags;
    var g := flags / PHYS_LIMIT;
    assert flags == PHYS_LIMIT * g + flags % 4096;
    assert e / 4096 == p / 4096 + 0x100_0000_0000 * g;
  }

  lemma {:induction false} TableEntryFields(table: nat)
    requires table % 4096 == 0 && table < PHYS_LIMIT
    ensures TableEntry(table) == table + 3
    ensures Present(TableEntry(table)) && Writable(TableEntry(table)) && !Huge(TableEntry(table))
    ensures AddressField(TableEntry(table)) == table
    ensures AlignDown(TableEntry(table), SIZE_4K) == table
    ensures TableEntry(table) < U64
  {
    OrAssoc(table, 1, 2);
    assert Or(1, 2) == 3;
    AddressOrFlags(table, 3);
    SumFields(table, 3);
  }

  /** `|`-ing several words onto a page-aligned address amounts to one flag word beside it. */
  lemma {:induction false} ComposeFields(p: nat, f: nat)
    requires p % 4096 == 0 && p < PHYS_LIMIT && FlagsOnly(f)
    ensures AddressField(Or(p, f)) == p
    ensures LowFlags(Or(p, f)) == LowFlags(f)
    ensures HighFlags(Or(p, f)) == HighFlags(f)
    ensures Or(p, f) < U64
  {
    AddressOrFlags(p, f);
    SumFields(p, f);
  }

  lemma AlignDownFacts(a: nat)
    requires a < PHYS_LIMIT
    ensures AlignDown(a, SIZE_4K) % 4096 == 0 && AlignDown(a, SIZE_4K) <= a
    ensures AlignDown(a, SIZE_2M) % 4096 == 0 && AlignDown(a, SIZE_2M) <= a
  {
    assert AlignDown(a, SIZE_4K) == 4096 * (a / 4096);
    ModShift(0, 4096, a / 4096);
    assert AlignDown(a, SIZE_2M) == 4096 * (512 * (a / 0x20_0000));
    ModShift(0, 4096, 512 * (a / 0x20_0000));
  }

  /** What the present bit adds to the low flags. */
  lemma {:induction false} PresentFlags(e: nat, flags: nat)
    requires LowFlags(e) == Or(LowFlags(flags), PAGE_PRESENT)
    ensures Present(e) && Writable(e) == Writable(flags)
  {
    PresentBit(LowFlags(flags));
  }

  lemma {:induction false} HugeFlags(e: nat, flags: nat)
    requires LowFlags(e) == Or(LowFlags(flags), PAGE_HUGE)
    ensures Huge(e) && Present(e) == Present(flags) && Writable(e) == Writable(flags)
  {
    HugeBit(LowFlags(flags));
  }

  /** A 4 KiB leaf holds exactly the requested frame and flags. */
  lemma {:induction false} Leaf4KFields(phys: nat, flags: nat)
    requires phys < PHYS_LIMIT && FlagsOnly(flags)
    ensures AddressField(Leaf4K(phys, flags)) == AlignDown(phys, SIZE_4K)
    ensures LowFlags(Leaf4K(phys, flags)) == Or(LowFlags(flags), PAGE_PRESENT)
    ensures HighFlags(Leaf4K(phys, flags)) == HighFlags(flags)
    ensures Present(Leaf4K(phys, flags))
    ensures Writable(Leaf4K(phys, flags)) == Writable(flags)
    ensures Leaf4K(phys, flags) < U64
  {
    var p, f := AlignDown(phys, SIZE_4K), Or(flags, PAGE_PRESENT);
    AlignDownFacts(phys);
    assert Leaf4K(phys, flags) == Or(p, f) by { OrAssoc(p, flags, PAGE_PRESENT); }
    OrLowBit(flags, PAGE_PRESENT);
    ComposeFields(p, f);
    PresentFlags(Or(p, f), flags);
  }

  /** A 2 MiB leaf holds exactly the requested frame and flags, and is marked huge. */
  lemma {:induction false} Leaf2MFields(phys: nat, flags: nat)
    requires phys < PHYS_LIMIT && FlagsOnly(flags)
    ensures AddressField(Leaf2M(phys, flags)) == AlignDown(phys, SIZE_2M)
    ensures LowFlags(Leaf2M(phys, flags)) == Or(Or(LowFlags(flags), PAGE_PRESENT), PAGE_HUGE)
    ensures HighFlags(Leaf2M(phys, flags)) == HighFlags(flags)
    ensures Present(Leaf2M(phys, flags)) && Huge(Leaf2M(phys, flags))
    ensures Writable(Leaf2M(phys, flags)) == Writable(flags)
    ensures Leaf2M(phys, flags) < U64
  {
    var p, f := AlignDown(phys, SIZE_2M), Or(flags, PAGE_PRESENT);
    var g := Or(f, PAGE_HUGE);
    AlignDownFacts(phys);
    assert Leaf2M(phys, flags) == Or(p, g) by {
      OrAssoc(p, flags, PAGE_PRESENT);
      OrAssoc(p, f, PAGE_HUGE);
    }
    OrLowBit(flags, PAGE_PRESENT);
    OrLowBit(f, PAGE_HUGE);
    ComposeFields(p, g);
    PresentFlags(f, flags);
    HugeFlags(Or(p, g), f);
  }
}
