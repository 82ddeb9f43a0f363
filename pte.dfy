/**
 * Page-table entries of the 32-bit x86 paging structures.
 * A PTE is one 32-bit word: the upper 20 bits hold the physical frame
 * address, the lower 12 bits hold the flag bits.
 */
module Pte {
  const Present: bv32 := 0x001
  const Writable: bv32 := 0x002
  const User: bv32 := 0x004
  const WriteThrough: bv32 := 0x008
  const CacheDisable: bv32 := 0x010
  const Accessed: bv32 := 0x020
  const Dirty: bv32 := 0x040
  const Pat: bv32 := 0x080
  const Global: bv32 := 0x100
  const Lv4Global: bv32 := 0x200

  const FrameMask: bv32 := 0xFFFF_F000

  /** The frame address: the entry rounded down to a 4 KiB boundary. */
  function FrameAddr(pte: bv32): (r: bv32)
    ensures r % 0x1000 == 0
    ensures r <= pte && pte - r < 0x1000
  {
    pte & FrameMask
  }

  /** The flag part: the entry's offset inside its 4 KiB frame. */
  function Flags(pte: bv32): (r: bv32)
    ensures r == pte % 0x1000
  {
    pte & !FrameMask
  }

  /** The frame and flag parts are disjoint and together make up the entry. */
  lemma FrameFlagsSplit(pte: bv32)
    ensures FrameAddr(pte) & Flags(pte) == 0
    ensures FrameAddr(pte) | Flags(pte) == pte
  {
  }

  predicate IsPresent(pte: bv32) { pte & Present != 0 }
  predicate IsWritable(pte: bv32) { pte & Writable != 0 }
  predicate IsDirty(pte: bv32) { pte & Dirty != 0 }

  /** pte_create: the word pte_set_flags would store over the frame address itself. */
  function Create(frame: bv32, flags: bv32): (r: bv32)
    ensures FrameAddr(r) == FrameAddr(frame)
    ensures Flags(r) == Flags(flags)
  {
    WithFlags(frame, flags)
  }

  /** The value pte_set_flags stores: same frame, flag part replaced. */
  function WithFlags(pte: bv32, flags: bv32): (r: bv32)
    ensures FrameAddr(r) == FrameAddr(pte)
    ensures Flags(r) == Flags(flags)
  {
    (pte & FrameMask) | (flags & !FrameMask)
  }

  /** Setting the same flags twice is the same as setting them once. */
  lemma WithFlagsIdempotent(pte: bv32, flags: bv32)
    ensures WithFlags(WithFlags(pte, flags), flags) == WithFlags(pte, flags)
  {
  }

  /** The value pte_clear_flags stores: only the named low-12 bits are cleared. */
  function WithoutFlags(pte: bv32, flags: bv32): (r: bv32)
    ensures FrameAddr(r) == FrameAddr(pte)
    ensures Flags(r) & Flags(flags) == 0
    ensures Flags(r) | (Flags(pte) & Flags(flags)) == Flags(pte)
  {
    pte & !(flags & !FrameMask)
  }

  /** pte_set_flags, writing through a pointer into a page table. */
  method SetFlags(table: array<bv32>, i: nat, flags: bv32)
    requires i < table.Length
    modifies table
    ensures table[..] == old(table[..])[i := WithFlags(old(table[i]), flags)]
  {
    table[i] := (table[i] & FrameMask) | (flags & !FrameMask);
  }

  /** pte_clear_flags, writing through a pointer into a page table. */
  method ClearFlags(table: array<bv32>, i: nat, flags: bv32)
    requires i < table.Length
    modifies table
    ensures table[..] == old(table[..])[i := WithoutFlags(old(table[i]), flags)]
  {
    table[i] := table[i] & !(flags & !FrameMask);
  }

  /** PTE_SET_PRESENT: only bit 0 changes, and it becomes set. */
  function SetPresent(pte: bv32): (r: bv32)
    ensures IsPresent(r)
    ensures r & !Present == pte & !Present
  {
    pte | Present
  }

  /** PTE_UNSET_PRESENT: only bit 0 changes, and it becomes clear. */
  function UnsetPresent(pte: bv32): (r: bv32)
    ensures !IsPresent(r)
    ensures r & !Present == pte & !Present
  {
    pte & !Present
  }

  function SetWritable(pte: bv32): (r: bv32)
    ensures IsWritable(r)
    ensures r & !Writable == pte & !Writable
  {
    pte | Writable
  }

  function UnsetWritable(pte: bv32): (r: bv32)
    ensures !IsWritable(r)
    ensures r & !Writable == pte & !Writable
  {
    pte & !Writable
  }

  function SetDirty(pte: bv32): (r: bv32)
    ensures IsDirty(r)
    ensures r & !Dirty == pte & !Dirty
  {
    pte | Dirty
  }

  function UnsetDirty(pte: bv32): (r: bv32)
    ensures !IsDirty(r)
    ensures r & !Dirty == pte & !Dirty
  {
    pte & !Dirty
  }
}
