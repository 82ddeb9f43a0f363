/**
 * Virtual-address decomposition for two-level 32-bit paging: a directory
 * index (bits 31..22), a table index (bits 21..12) and a page offset
 * (bits 11..0).
 */
module Vmm {
  const PageSize: nat := 4096
  const PagesPerTable: nat := 1024
  const PagesPerDir: nat := 1024

  const DirIndexMask: bv32 := 0xFFC0_0000
  const TableIndexMask: bv32 := 0x003F_F000
  const PageOffsetMask: bv32 := 0x0000_0FFF

  function DirIndex(addr: bv32): (r: bv32)
    ensures r < 1024
    ensures r == addr / 0x40_0000
  {
    (addr & DirIndexMask) >> 22
  }

  function TableIndex(addr: bv32): (r: bv32)
    ensures r < 1024
    ensures r == (addr / 0x1000) % 1024
  {
    (addr & TableIndexMask) >> 12
  }

  function PageOffset(addr: bv32): (r: bv32)
    ensures r < 0x1000
    ensures r == addr % 0x1000
  {
    addr & PageOffsetMask
  }

  /** The three masks are pairwise disjoint and together cover all 32 bits. */
  lemma MasksPartition()
    ensures DirIndexMask & TableIndexMask == 0
    ensures DirIndexMask & PageOffsetMask == 0
    ensures TableIndexMask & PageOffsetMask == 0
    ensures DirIndexMask | TableIndexMask | PageOffsetMask == 0xFFFF_FFFF
  {
  }

  /** An address is rebuilt from its three parts. */
  lemma Recompose(addr: bv32)
    ensures addr == (DirIndex(addr) << 22) | (TableIndex(addr) << 12) | PageOffset(addr)
  {
  }

  /** One page table spans PagesPerTable pages of PageSize bytes: 4 MiB. */
  lemma TableSpan()
    ensures PagesPerTable * PageSize == 0x40_0000
    ensures PagesPerDir * PagesPerTable * PageSize == 0x1_0000_0000
  {
  }

  lemma KnownDirIndices()
    ensures DirIndex(0x4000_0000) == 256
    ensures DirIndex(0x8000_0000) == 512
    ensures DirIndex(0xA000_0000) == 640
    ensures DirIndex(0x4040_0000) == 257
  {
  }

  /** The next page of a page-aligned address stays in the same page table unless it is the table's last page. */
  lemma NextPageSameTable(addr: bv32)
    requires PageOffset(addr) == 0 && TableIndex(addr) < 1023
    ensures DirIndex(addr + 0x1000) == DirIndex(addr)
    ensures TableIndex(addr + 0x1000) == TableIndex(addr) + 1
  {
  }

  /** Moving 4 MiB forward moves to the next directory entry and keeps the table index and offset. */
  lemma NextTableNextDirIndex(addr: bv32)
    requires DirIndex(addr) < 1023
    ensures DirIndex(addr + 0x40_0000) == DirIndex(addr) + 1
    ensures TableIndex(addr + 0x40_0000) == TableIndex(addr)
    ensures PageOffset(addr + 0x40_0000) == PageOffset(addr)
  {
  }
}
