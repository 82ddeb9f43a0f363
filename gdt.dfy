/**
 * Global descriptor table set-up for flat protected mode: packing a
 * segment base and limit into the split fields of an 8-byte segment
 * descriptor (Intel SDM Vol. 3A, section 3.4.5), and the initial task
 * state segment.
 */
module Gdt {
  import Utils

  /** One 8-byte segment descriptor, field by field. */
  datatype GdtEntry = GdtEntry(
    limitLow: bv16,
    baseLow: bv16,
    baseMiddle: bv8,
    access: bv8,
    granularity: bv8,
    baseHigh: bv8)

  const GdtEntrySize: nat := 8
  const GdtEntries: nat := 6
  const NullEntry: nat := 0
  const KernelCodeEntry: nat := 1
  const KernelDataEntry: nat := 2
  const UserCodeEntry: nat := 3
  const UserDataEntry: nat := 4
  const TssEntry: nat := 5

  /** Granularity byte of the flat segments: 4 KiB units, 32-bit operands. */
  const GdtGranularity: bv8 := 0xCF
  const TssGranularity: bv8 := 0x00
  const FlatBase: bv32 := 0
  const FlatLimit: bv32 := 0xFFFF_FFFF

  /** The base address the processor reads back from a descriptor. */
  function EntryBase(e: GdtEntry): bv32
  {
    ((e.baseHigh as bv32) << 24) | ((e.baseMiddle as bv32) << 16) | (e.baseLow as bv32)
  }

  /** The 20-bit limit the processor reads back from a descriptor. */
  function EntryLimit(e: GdtEntry): bv32
  {
    (((e.granularity & 0x0F) as bv32) << 16) | (e.limitLow as bv32)
  }

  /** The descriptor create_gdt_entry fills in. */
  function MakeEntry(base: bv32, limit: bv32, access: bv8, granularity: bv8): (e: GdtEntry)
    ensures EntryBase(e) == base
    ensures EntryLimit(e) == limit & 0xF_FFFF
    ensures e.granularity & 0xF0 == granularity & 0xF0
    ensures e.access == access
  {
    GdtEntry(
      limitLow := (limit & 0xFFFF) as bv16,
      baseLow := (base & 0xFFFF) as bv16,
      baseMiddle := ((base >> 16) & 0xFF) as bv8,
      access := access,
      granularity := ((limit >> 16) & 0x0F) as bv8 | (granularity & 0xF0),
      baseHigh := ((base >> 24) & 0xFF) as bv8)
  }

  /** create_gdt_entry, writing through a pointer into the table. */
  method CreateEntry(gdt: array<GdtEntry>, i: nat, base: bv32, limit: bv32, access: bv8, granularity: bv8)
    requires i < gdt.Length
    modifies gdt
    ensures gdt[..] == old(gdt[..])[i := MakeEntry(base, limit, access, granularity)]
  {
    var gran := ((limit >> 16) & 0x0F) as bv8;
    gran := gran | (granularity & 0xF0);
    gdt[i] := GdtEntry(
      limitLow := (limit & 0xFFFF) as bv16,
      baseLow := (base & 0xFFFF) as bv16,
      baseMiddle := ((base >> 16) & 0xFF) as bv8,
      access := access,
      granularity := gran,
      baseHigh := ((base >> 24) & 0xFF) as bv8);
  }

  /** GDT_SEG_OFFSET: the byte offset of an entry, which is also its selector with RPL 0. */
  function SegOffset(entry: nat): (r: nat)
    ensures r / 8 == entry && r % 8 == 0
  {
    entry * 8
  }

  /** A segment selector: the entry's byte offset with a requested privilege level in the low two bits. */
  function Selector(entry: nat, rpl: nat): (s: nat)
    requires entry < 8192 && rpl < 4
    ensures s < 0x1_0000
    ensures s / 8 == entry && s % 4 == rpl && (s / 4) % 2 == 0
  {
    var s := SegOffset(entry) + rpl;
    Utils.DivModUnique(s, 8, entry, rpl);
    Utils.DivModUnique(s, 4, 2 * entry, rpl);
    Utils.DivModUnique(2 * entry, 2, entry, 0);
    s
  }

  /** The TSS (x86 task-state segment), 104 bytes, all 32-bit fields but the last two. */
  datatype Tss = Tss(
    prevTss: bv32, esp0: bv32, ss0: bv32, esp1: bv32, ss1: bv32, esp2: bv32, ss2: bv32,
    cr3: bv32, eip: bv32, eflags: bv32,
    eax: bv32, ecx: bv32, edx: bv32, ebx: bv32, esp: bv32, ebp: bv32, esi: bv32, edi: bv32,
    es: bv32, cs: bv32, ss: bv32, ds: bv32, fs: bv32, gs: bv32, ldt: bv32,
    trap: bv16, iomapBase: bv16)

  const TssSize: nat := 25 * 4 + 2 * 2

  /** The state memset leaves behind. */
  const ZeroTss: Tss := Tss(0, 0, 0, 0, 0, 0, 0, 0, 0, 0, 0, 0, 0, 0, 0, 0, 0, 0, 0, 0, 0, 0, 0, 0, 0, 0, 0)

  /** The access bytes of the five non-null descriptors (their macros live in a header that is not part of this model). */
  datatype AccessBytes = AccessBytes(kernelCode: bv8, kernelData: bv8, userCode: bv8, userData: bv8, tss: bv8)

  /** The selectors the kernel loads: its data segment, its code and data segments at RPL 3, and the TSS at RPL 3. */
  lemma SelectorValues()
    ensures Selector(KernelDataEntry, 0) == 0x10
    ensures Selector(KernelCodeEntry, 3) == 0x0B
    ensures Selector(KernelDataEntry, 3) == 0x13
    ensures Selector(TssEntry, 3) == 0x2B
  {
  }

  /**
   * The TSS gdt_init_flat_protected leaves: zero but for the ring-0 stack
   * segment (the kernel data selector) and the segment registers, which
   * hold the kernel code and data selectors at RPL 3 (values in SelectorValues).
   */
  function InitialTss(): (t: Tss)
    ensures t.ss0 == 0x10 && t.cs == 0x0B
    ensures t.ss == 0x13 && t.ds == t.ss
    ensures t.es == t.ss && t.fs == t.ss && t.gs == t.ss
    ensures t.(ss0 := 0, cs := 0, ss := 0, ds := 0, es := 0, fs := 0, gs := 0) == ZeroTss
  {
    var kdata := SegOffset(KernelDataEntry) as bv32;
    var kcode := SegOffset(KernelCodeEntry) as bv32;
    ZeroTss.(ss0 := kdata, esp0 := 0, cs := kcode | 3, ss := kdata | 3, ds := kdata | 3,
             es := kdata | 3, fs := kdata | 3, gs := kdata | 3)
  }

  /** The GDT, its pointer, the TSS and the selector handed to tss_flush. */
  class DescriptorTables {
    const gdt: array<GdtEntry>
    var gdtLimit: bv16
    var gdtBase: bv32
    var tss: Tss
    var tssSelector: bv16

    constructor ()
      ensures gdt.Length == GdtEntries && fresh(gdt)
    {
      gdt := new GdtEntry[GdtEntries](_ => GdtEntry(0, 0, 0, 0, 0, 0));
      tss := ZeroTss;
    }

    /** The TSS part of gdt_init_flat_protected: zero it, then set the ring-0 stack segment and the RPL-3 selectors. */
    method InitTss()
      modifies this`tss
      ensures tss == InitialTss()
    {
      tss := ZeroTss;
      var kdata := SegOffset(KernelDataEntry) as bv32;
      tss := tss.(ss0 := kdata, esp0 := 0);
      tss := tss.(cs := SegOffset(KernelCodeEntry) as bv32 | 3);
      tss := tss.(ss := kdata | 3, ds := kdata | 3);
      tss := tss.(es := kdata | 3, fs := kdata | 3, gs := kdata | 3);
    }

    /**
     * gdt_init_flat_protected: a null descriptor, four flat 4 GiB segments,
     * the TSS descriptor, the TSS fields and the TSS selector.
     * The addresses of the static table and of the TSS are parameters.
     */
    method InitFlatProtected(gdtAddr: bv32, tssAddr: bv32, acc: AccessBytes)
      requires gdt.Length == GdtEntries
      modifies this, gdt
      ensures gdtLimit == 47 && gdtBase == gdtAddr
      ensures gdt[NullEntry] == MakeEntry(0, 0, 0, 0)
      ensures gdt[KernelCodeEntry] == MakeEntry(FlatBase, FlatLimit, acc.kernelCode, GdtGranularity)
      ensures gdt[KernelDataEntry] == MakeEntry(FlatBase, FlatLimit, acc.kernelData, GdtGranularity)
      ensures gdt[UserCodeEntry] == MakeEntry(FlatBase, FlatLimit, acc.userCode, GdtGranularity)
      ensures gdt[UserDataEntry] == MakeEntry(FlatBase, FlatLimit, acc.userData, GdtGranularity)
      ensures gdt[TssEntry] == MakeEntry(tssAddr, (TssSize - 1) as bv32, acc.tss, TssGranularity)
      ensures tss == InitialTss()
      ensures tssSelector == 0x2B
    {
      gdtLimit := (8 * GdtEntries - 1) as bv16;
      assert gdtLimit == 47;
      var selector := (SegOffset(TssEntry) as bv16) | 3;
      assert selector == 0x2B;
      gdtBase := gdtAddr;
      CreateEntry(gdt, NullEntry, 0, 0, 0, 0);
      CreateEntry(gdt, KernelCodeEntry, FlatBase, FlatLimit, acc.kernelCode, GdtGranularity);
      CreateEntry(gdt, KernelDataEntry, FlatBase, FlatLimit, acc.kernelData, GdtGranularity);
      CreateEntry(gdt, UserCodeEntry, FlatBase, FlatLimit, acc.userCode, GdtGranularity);
      CreateEntry(gdt, UserDataEntry, FlatBase, FlatLimit, acc.userData, GdtGranularity);
      InitTss();
      CreateEntry(gdt, TssEntry, tssAddr, (TssSize - 1) as bv32, acc.tss, TssGranularity);
      tssSelector := selector;
    }
  }

  /** The pointer limit 47 is the table size less one, and the TSS is 104 bytes. */
  lemma TableConstants()
    ensures GdtEntrySize * GdtEntries - 1 == 47
    ensures TssSize == 104
  {
  }

  /** Every flat segment starts at 0 and, in 4 KiB units, spans the whole 4 GiB address space. */
  lemma FlatSegmentsSpanAddressSpace(access: bv8)
    ensures EntryBase(MakeEntry(FlatBase, FlatLimit, access, GdtGranularity)) == 0
    ensures (EntryLimit(MakeEntry(FlatBase, FlatLimit, access, GdtGranularity)) as nat + 1) * 4096 == 0x1_0000_0000
    ensures MakeEntry(FlatBase, FlatLimit, access, GdtGranularity).granularity & 0x80 != 0
  {
  }
}
