/** Page-table entries of kernel/src/arch/x86_64/Memory/PageTables.cpp, as the bit fields of a 64-bit word. */
module PageEntries {

  // What the mapping functions write and what the processor reads: Intel SDM volume 3A, sections 4.5 and 4.6.

  /** Bits 0-11, the 40 address bits 12-51 as a number, and bits 52-63. */
  datatype Entry = Entry(low: bv12, frame: nat, high: bv12)

  const ZERO := Entry(0, 0, 0)

  /** The frame numbers a 52-bit address can hold. */
  const FRAMES: nat := 0x100_0000_0000

  predicate Present(e: Entry) { e.low & 1 != 0 }

  predicate Write(e: Entry) { e.low & 2 != 0 }

  predicate User(e: Entry) { e.low & 4 != 0 }

  predicate PageSize(e: Entry) { e.low & 0x80 != 0 }

  predicate NoExecute(e: Entry) { e.high & 0x800 != 0 }

  /** The low bits that the 32-bit flags argument contributes under a mask of at most 12 bits. */
  function LowBits(flags: bv32, mask: bv12): bv12 { ((flags & 0xFFF) as bv12) & mask }

  /** Bit 27 of the flags becomes bit 63 of a leaf. */
  function NoExecuteBit(flags: bv32): bv12 { if flags & 0x0800_0000 != 0 then 0x800 else 0 }

  /** What MapPage writes at level 1, for a physical page number. */
  function LeafEntry(phys: nat, flags: bv32): Entry {
    Entry(LowBits(flags, 0xFFF) | 1, phys % FRAMES, NoExecuteBit(flags))
  }

  /** The pages of a leaf at depth `d`: 4 for 4 KiB, 3 for 2 MiB, 2 for 1 GiB. */
  function Pages(d: nat): (n: nat)
    ensures n > 0
  {
    if d == 2 then 262144 else if d == 3 then 512 else 1
  }

  /** What Map2MiBPage and Map1GiBPage write: bit 12 of the flags lands in the lowest address bit. */
  function LargeEntry(phys: nat, flags: bv32, d: nat): Entry {
    var p := phys % FRAMES;
    Entry(LowBits(flags, 0xFFF) | 1 | 0x80, p - p % Pages(d) + (if flags & 0x1000 != 0 then 1 else 0), NoExecuteBit(flags))
  }

  /** What RemapPage makes of a leaf. */
  function Reflagged(raw: Entry, flags: bv32): Entry {
    Entry(LowBits(flags, 0xFFF) | 1, raw.frame, NoExecuteBit(flags))
  }

  /** The entry for a new table. */
  function TableEntry(frame: nat, flags: bv32): Entry {
    Entry(LowBits(flags, 0xF67) | 1, frame, 0)
  }

  /** What passing through a table's entry makes of it. */
  function Widened(raw: Entry, flags: bv32): Entry {
    Entry(raw.low | LowBits(flags, 0xF67), raw.frame, 0)
  }

  /** A frame that can hold a table: within 52 bits, and not the null pointer. */
  predicate Aligned(frame: nat) { 0 < frame < FRAMES }

  /** An entry written as a child may not grant more than its parent. */
  predicate Within(child: Entry, parent: Entry) {
    (Write(child) ==> Write(parent)) && (User(child) ==> User(parent))
  }

  /** The rights the flags ask for are granted by the entry. */
  predicate Grants(e: Entry, flags: bv32) {
    (flags & 2 != 0 ==> Write(e)) && (flags & 4 != 0 ==> User(e))
  }

  /** The entry has no rights but those the flags ask for. */
  predicate Asked(e: Entry, flags: bv32) {
    (Write(e) ==> flags & 2 != 0) && (User(e) ==> flags & 4 != 0)
  }

  /** The entry has exactly the rights the flags ask for. */
  predicate RightsOf(e: Entry, flags: bv32) {
    (Write(e) <==> flags & 2 != 0) && (User(e) <==> flags & 4 != 0)
  }

  /** The caching bits, the accessed, dirty and global bits and those left to software are those of the flags. */
  predicate OthersOf(e: Entry, flags: bv32, mask: bv32)
    requires mask <= 0xFFF
  {
    e.low & (mask as bv12) == (flags & mask) as bv12
  }

  lemma TableEntryBits(frame: nat, flags: bv32)
    ensures var e := TableEntry(frame, flags);
      Present(e) && !PageSize(e) && e.frame == frame && e.high == 0 && !NoExecute(e) && Grants(e, flags) && Asked(e, flags)
    ensures OthersOf(TableEntry(frame, flags), flags, 0xF60) && TableEntry(frame, flags).low & 0x98 == 0
  {
  }

  lemma WidenedLow(x: bv12, flags: bv32)
    ensures var y := x | LowBits(flags, 0xF67);
      && (x & 1 != 0 ==> y & 1 != 0) && y & 0x80 == x & 0x80
      && (y & 2 != 0 <==> x & 2 != 0 || flags & 2 != 0) && (y & 4 != 0 <==> x & 4 != 0 || flags & 4 != 0)
  {
  }

  lemma WidenedRest(x: bv12, flags: bv32)
    ensures var y := x | LowBits(flags, 0xF67); y & 0x98 == x & 0x98 && y & 0xF60 == (x & 0xF60) | ((flags & 0xF60) as bv12)
  {
  }

  /** Passing through adds rights, takes none, and leaves the address and the size bit alone. */
  lemma WidenedBits(raw: Entry, flags: bv32)
    ensures var e := Widened(raw, flags);
      && (Present(raw) ==> Present(e)) && PageSize(e) == PageSize(raw) && e.frame == raw.frame && !NoExecute(e)
      && Grants(e, flags) && Within(raw, e) && e.high == 0 && e.low & 0x98 == raw.low & 0x98
      && e.low & 0xF60 == (raw.low & 0xF60) | ((flags & 0xF60) as bv12)
      && (Write(e) ==> Write(raw) || flags & 2 != 0) && (User(e) ==> User(raw) || flags & 4 != 0)
  {
    WidenedLow(raw.low, flags);
    WidenedRest(raw.low, flags);
    hide LowBits;
  }

  lemma LeafEntryBits(phys: nat, flags: bv32)
    ensures var e := LeafEntry(phys, flags);
      && Present(e) && e.frame == phys % FRAMES && RightsOf(e, flags) && (NoExecute(e) <==> flags & 0x0800_0000 != 0)
      && OthersOf(e, flags, 0xFF8) && e.high & 0x7FF == 0
  {
  }

  lemma LargeEntryBits(phys: nat, flags: bv32, d: nat)
    ensures var e := LargeEntry(phys, flags, d);
      && Present(e) && PageSize(e) && RightsOf(e, flags) && (NoExecute(e) <==> flags & 0x0800_0000 != 0)
      && OthersOf(e, flags, 0xF78) && e.high & 0x7FF == 0
  {
  }

  lemma ReflaggedBits(raw: Entry, flags: bv32)
    ensures var e := Reflagged(raw, flags);
      && Present(e) && e.frame == raw.frame && RightsOf(e, flags) && (NoExecute(e) <==> flags & 0x0800_0000 != 0)
      && OthersOf(e, flags, 0xFF8) && e.high & 0x7FF == 0
  {
  }
}
