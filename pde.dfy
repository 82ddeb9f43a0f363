/**
 * Page-directory entries of the 32-bit x86 paging structures.
 * A PDE is one 32-bit word: the upper 20 bits hold the address of a page
 * table, the lower 12 bits hold the flag bits.
 */
module Pde {
  const Present: bv32 := 0x001
  const Writable: bv32 := 0x002
  const User: bv32 := 0x004
  const WriteThrough: bv32 := 0x008
  const CacheDisable: bv32 := 0x010
  const Accessed: bv32 := 0x020
  const Dirty: bv32 := 0x040
  const Size4MB: bv32 := 0x080
  const Global: bv32 := 0x100
  const Lv4Global: bv32 := 0x200
  const FrameMask: bv32 := 0xFFFF_F000

  /** The page-table address: the entry rounded down to a 4 KiB boundary. */
  function PTableAddr(pde: bv32): (r: bv32)
    ensures r % 0x1000 == 0
    ensures r <= pde && pde - r < 0x1000
  {
    pde & FrameMask
  }

  /** The flag part: the entry's offset inside its 4 KiB frame. */
  function Flags(pde: bv32): (r: bv32)
    ensures r == pde % 0x1000
  {
    pde & !FrameMask
  }

  /** The table-address and flag parts are disjoint and together make up the entry. */
  lemma AddrFlagsSplit(pde: bv32)
    ensures PTableAddr(pde) & Flags(pde) == 0
    ensures PTableAddr(pde) | Flags(pde) == pde
  {
  }

  /** Bit k of an entry, counting from the least significant bit. */
  predicate Bit(pde: bv32, k: nat)
    requires k < 32
  {
    (pde >> k) & 1 == 1
  }

  function IsPresent(pde: bv32): (r: bool)
    ensures r <==> Bit(pde, 0)
  {
    pde & Present != 0
  }

  function IsWritable(pde: bv32): (r: bool)
    ensures r <==> Bit(pde, 1)
  {
    pde & Writable != 0
  }

  function IsUser(pde: bv32): (r: bool)
    ensures r <==> Bit(pde, 2)
  {
    pde & User != 0
  }

  function IsDirty(pde: bv32): (r: bool)
    ensures r <==> Bit(pde, 6)
  {
    pde & Dirty != 0
  }

  function Is4MB(pde: bv32): (r: bool)
    ensures r <==> Bit(pde, 7)
  {
    pde & Size4MB != 0
  }

  /** pde_create: the word pde_set_flags would store over the page-table address itself. */
  function Create(ptable: bv32, flags: bv32): (r: bv32)
    ensures PTableAddr(r) == PTableAddr(ptable)
    ensures Flags(r) == Flags(flags)
  {
    WithFlags(ptable, flags)
  }

  /** The value pde_set_flags stores: same table address, flag part replaced. */
  function WithFlags(pde: bv32, flags: bv32): (r: bv32)
    ensures PTableAddr(r) == PTableAddr(pde)
    ensures Flags(r) == Flags(flags)
  {
    (pde & FrameMask) | (flags & !FrameMask)
  }

  /** The value pde_clear_flags stores: only the named low-12 bits are cleared. */
  function WithoutFlags(pde: bv32, flags: bv32): (r: bv32)
    ensures PTableAddr(r) == PTableAddr(pde)
    ensures Flags(r) & Flags(flags) == 0
    ensures Flags(r) | (Flags(pde) & Flags(flags)) == Flags(pde)
  {
    pde & !(flags & !FrameMask)
  }

  /** pde_set_flags, writing through a pointer into a page directory. */
  method SetFlags(dir: array<bv32>, i: nat, flags: bv32)
    requires i < dir.Length
    modifies dir
    ensures dir[..] == old(dir[..])[i := WithFlags(old(dir[i]), flags)]
  {
    dir[i] := (dir[i] & FrameMask) | (flags & !FrameMask);
  }

  /** pde_clear_flags, writing through a pointer into a page directory. */
  method ClearFlags(dir: array<bv32>, i: nat, flags: bv32)
    requires i < dir.Length
    modifies dir
    ensures dir[..] == old(dir[..])[i := WithoutFlags(old(dir[i]), flags)]
  {
    dir[i] := dir[i] & !(flags & !FrameMask);
  }
}
