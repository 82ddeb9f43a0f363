# LeanixOS kernel core in Dafny

This project models the sequential core of the LeanixOS kernel, a small
32-bit x86 hobby kernel written in C, and proves properties of that model.
It has one Dafny module per source file:

- **Fat12** (`fs/fat12.c`) covers the FAT12 driver's decoding:
  - 12-bit allocation-table entries;
  - 8.3 names in both directions;
  - cluster-to-sector arithmetic and the volume geometry computed at mount;
  - the root-directory scan;
  - the offset/size clamping and per-cluster copy loop of a file read.
- **Vfs** (`fs/vfs.c`) covers the virtual filesystem layer:
  - the growable mount table;
  - mount and unmount;
  - the split of an absolute path into a mountpoint name and a relative path;
  - file handles whose offset reads and writes advance.

  Filesystem drivers are opaque functions.
- **Block** (`driver/block.c`) is the block-device registry. It is a bounded, name-keyed table with range-guarded reads and writes.
- **List** (`libc/kernel/list.c`) is the intrusive doubly linked list. It is a class over `Element` objects, with a ghost sequence of the elements and a validity invariant tying `head`, `tail`, `size` and every `next`/`prev` link to it.
- **Bitmap** (`libc/include/kernel/bitmap.h`) covers set, unset, test and first-free over 32-bit words.
- **Hfs** (`include/fs/hfs.h`) covers the HFS on-disk records and their little-endian encodings, the geometry constants, and the direct/single-indirect block map. It also has a byte-level reference model of file writes and reads, which pins the behaviour that `tests/fs/test_hfs.c` asserts.
- **Pte**, **Pde**, **Vmm** (`include/mm/`) are the x86 paging bit encodings, on `bv32`.
- **Utils** (`include/utils.h`) covers the alignment and byte macros. `PAGE_ALIGN_UP` rounds down and `PAGE_ALIGN_DWN` rounds up, and the model keeps that behaviour under the source's names.
- **Fdc** (`driver/fdc.c`) covers:
  - LBA to cylinder/head/sector for a 2-head, 18-sector floppy;
  - drive selection;
  - the DOR and SPECIFY bytes.
- **Ide** (`driver/ide.c`) covers:
  - IDENTIFY DEVICE parsing: the model string, total sectors and the ATA/ATAPI bit;
  - the device-signature check;
  - the LBA28 task-file registers and the guards of sector reads and writes.
- **Gdt** (`init/gdt.c`) covers segment-descriptor packing, selectors and the initial TSS.
- **TestMain** (`tests/testmain.c`) covers the test harness's `utoa`, bounded command reading, first-match dispatch and message framing.

Integers are unbounded in Dafny. Where the C code relies on 8-, 16- or
32-bit arithmetic, the model writes the truncation out (`% 0x1_0000_0000`,
subset types such as `u16`, or bit-vector types). Port I/O, disk sectors and
driver callbacks are parameters: given data or opaque functions.

## Model

| member | source | states |
|---|---|---|
| Utils.ClearLowBits | include/utils.h:170-175 | clearing the bits below a power-of-two alignment gives a multiple of it, at most the value and less than one alignment below it |
| Utils.Align | include/utils.h:170-175 | `ALIGN`/`ALIGN_SIZE` give a multiple of 2^k; without 32-bit overflow the result is the value rounded up, below value + 2^k |
| Utils.AlignOfAligned | include/utils.h:170-180 | aligning an already-aligned address leaves it unchanged |
| Utils.AlignIsAligned | include/utils.h:170-180 | `IS_ALIGNED(ALIGN(x, 2^k), 2^k)` always holds |
| Utils.PageAlignUp | include/utils.h:182-183 | `PAGE_ALIGN_UP` rounds down to a page boundary: a multiple of 4096, at most the address, less than a page below it |
| Utils.PageAlignDwn | include/utils.h:185-186 | `PAGE_ALIGN_DWN` rounds up to a page boundary, less than a page above; in the last page of the address space it wraps to 0 |
| Utils.LowByte | include/utils.h:209 | the low byte is the value modulo 256 |
| Utils.HighByte | include/utils.h:210 | the high byte is the value divided by 256 |
| Utils.BytesRecombine | include/utils.h:209-210 | the high byte shifted left by 8, ORed with the low byte, gives back every 16-bit x |
| Pte.FrameAddr | include/mm/pte.h:18-24 | the frame part is page-aligned and lies within 4 KiB below the entry |
| Pte.Flags | include/mm/pte.h:25 | the flag part is the low 12 bits |
| Pte.FrameFlagsSplit | include/mm/pte.h:18-25 | frame and flag parts are disjoint and together give back the entry |
| Pte.Create | include/mm/pte.h:68-71 | the new entry's frame is the frame of the given address and its flags are the low 12 bits of the given flags |
| Pte.WithFlags | include/mm/pte.h:46-48 | setting flags keeps the frame and makes the flag part exactly the low 12 bits of the flags |
| Pte.WithFlagsIdempotent | include/mm/pte.h:46-48 | setting the same flags twice is the same as once |
| Pte.WithoutFlags | include/mm/pte.h:56-58 | clearing keeps the frame, turns off the given flags, and keeps every other flag |
| Pte.SetFlags | include/mm/pte.h:46-48 | `pte_set_flags` through a pointer changes only that table slot, to WithFlags of its old value |
| Pte.ClearFlags | include/mm/pte.h:56-58 | `pte_clear_flags` changes only that slot, to WithoutFlags of its old value |
| Pte.SetPresent | include/mm/pte.h:31 | the present bit becomes set and no other bit changes |
| Pte.UnsetPresent | include/mm/pte.h:32 | the present bit becomes clear and no other bit changes |
| Pte.SetWritable | include/mm/pte.h:34 | the writable bit becomes set and no other bit changes |
| Pte.UnsetWritable | include/mm/pte.h:35 | the writable bit becomes clear and no other bit changes |
| Pte.SetDirty | include/mm/pte.h:37 | the dirty bit becomes set and no other bit changes |
| Pte.UnsetDirty | include/mm/pte.h:38 | the dirty bit becomes clear and no other bit changes |
| Pde.PTableAddr | include/mm/pde.h:17-23 | the page-table address is page-aligned and lies within 4 KiB below the entry |
| Pde.Flags | include/mm/pde.h:24 | the flag part is the low 12 bits |
| Pde.AddrFlagsSplit | include/mm/pde.h:17-24 | address and flag parts are disjoint and together give back the entry |
| Pde.IsPresent | include/mm/pde.h:27 | tests exactly bit 0 |
| Pde.IsWritable | include/mm/pde.h:26 | tests exactly bit 1 |
| Pde.IsUser | include/mm/pde.h:29 | tests exactly bit 2 |
| Pde.IsDirty | include/mm/pde.h:28 | tests exactly bit 6 |
| Pde.Is4MB | include/mm/pde.h:30 | tests exactly bit 7 |
| Pde.Create | include/mm/pde.h:59-62 | the new entry's table address is that of the given address and its flags are the low 12 bits of the given flags |
| Pde.WithFlags | include/mm/pde.h:38-40 | setting flags keeps the table address and replaces the flag part by the low 12 bits of the flags |
| Pde.WithoutFlags | include/mm/pde.h:48-50 | clearing keeps the table address, turns off the given flags and keeps the others |
| Pde.SetFlags | include/mm/pde.h:38-40 | `pde_set_flags` changes only that directory slot, to WithFlags of its old value |
| Pde.ClearFlags | include/mm/pde.h:48-50 | `pde_clear_flags` changes only that slot, to WithoutFlags of its old value |
| Vmm.DirIndex | include/mm/vmm.h:40 | the directory index is below 1024: the address divided by 4 MiB |
| Vmm.TableIndex | include/mm/vmm.h:42 | the table index is below 1024: the page number modulo 1024 |
| Vmm.PageOffset | include/mm/vmm.h:44 | the page offset is below 4096: the address modulo 4096 |
| Vmm.MasksPartition | include/mm/vmm.h:31-35 | the three masks are pairwise disjoint and cover all 32 bits |
| Vmm.Recompose | include/mm/vmm.h:31-44 | every address is its directory index << 22, table index << 12 and offset, ORed |
| Vmm.TableSpan | include/mm/vmm.h:26-28 | one page table spans 4 MiB, and a directory spans the 4 GiB address space |
| Vmm.KnownDirIndices | tests/mm/test_vmm.c:336-338 | 0x40000000, 0x80000000, 0xA0000000 and 0x40400000 have directory indices 256, 512, 640 and 257 |
| Vmm.NextPageSameTable | include/mm/vmm.h:40-44 | the next page of a page-aligned address below the last table slot keeps the directory index, and its table index is one higher |
| Vmm.NextTableNextDirIndex | include/mm/vmm.h:40-44 | adding 4 MiB raises the directory index by one and keeps table index and offset |
| Gdt.MakeEntry | init/gdt.c:53-66 | the packed descriptor's base fields recombine to base, its limit fields to the low 20 bits of limit; the granularity high nibble and the access byte are as given |
| Gdt.CreateEntry | init/gdt.c:53-66 | `create_gdt_entry` changes only slot i of the table, to MakeEntry of its arguments |
| Gdt.SegOffset | init/gdt.c:44 | the byte offset of entry i is 8·i |
| Gdt.Selector | init/gdt.c:106-114 | a selector below 2^16 whose index is the entry, whose RPL is the requested level, and whose table-indicator bit is 0 (GDT) |
| Gdt.SelectorValues | init/gdt.c:106-125 | the kernel data, user code, user data and TSS selectors are 0x10, 0x0B, 0x13 and 0x2B |
| Gdt.InitialTss | init/gdt.c:102-114 | the TSS is zero except ss0 = 0x10, cs = 0x0B and ss/ds/es/fs/gs = 0x13 |
| Gdt.DescriptorTables.constructor | init/gdt.c:49 | a fresh table of six descriptors |
| Gdt.DescriptorTables.InitTss | init/gdt.c:102-114 | the TSS field becomes InitialTss |
| Gdt.DescriptorTables.InitFlatProtected | init/gdt.c:69-127 | the GDT pointer has limit 47 and the table's base; the six slots hold the null, flat kernel/user code/data and TSS descriptors; the TSS is initialised; the TSS selector is 0x2B |
| Gdt.TableConstants | init/gdt.c:72-73 | six 8-byte entries give limit 47; the TSS is 104 bytes |
| Gdt.FlatSegmentsSpanAddressSpace | init/gdt.c:77-98 | a flat segment has base 0, a limit of 2^20 4-KiB units (4 GiB), and page granularity |
| Fdc.LbaToChs | driver/fdc.c:495-507 | head < 2, 1 ≤ sector ≤ 18, cylinder truncated to 8 bits; for every LBA of the 2880-sector disk, (cyl·2 + head)·18 + sector − 1 = lba |
| Fdc.LbaToChsInto | driver/fdc.c:495-507 | nothing is written when any out-pointer is NULL; otherwise the three outputs hold LbaToChs (the last write wins where pointers alias) |
| Fdc.LbaToChsInjective | driver/fdc.c:503-506 | distinct LBAs of the disk have distinct CHS addresses |
| Fdc.EndOfTrack | driver/fdc.c:257 | the end-of-track parameter is sector + 1, capped at 18 |
| Fdc.HeadDriveByte | driver/fdc.c:251 | the head/drive byte carries the drive in bits 0-1 and the head in bit 2 |
| Fdc.Controller.constructor | driver/fdc.c:26 | the current drive starts at 0 |
| Fdc.Controller.SetDrive | driver/fdc.c:509-518 | drives above 3 are ignored; others become current |
| Fdc.Controller.GetDrive | driver/fdc.c:520-523 | returns the current drive |
| Fdc.SetThenGet | driver/fdc.c:509-523 | after setting drive d ≤ 3 the getter returns d; after d > 3 it returns the previous drive |
| Fdc.MotorDor | driver/fdc.c:190-207 | no DOR write for a drive above 3; enabling writes motor bit 4+d, the drive number, DMA/IRQ and not-reset; disabling writes 0x0C |
| Fdc.SpecifyBytes | driver/fdc.c:326-338 | the first SPECIFY byte has step rate and unload time nibbles; the second has the load time above a no-DMA bit that is 0 exactly when DMA is used |
| Fdc.ResetSpecifyBytes | driver/fdc.c:434 | the values the reset path sends give bytes 0x30 and 0x20 |
| Ide.IdeDevice.constructor | driver/ide.c:122 | a device that is not present, with a zeroed 41-byte model buffer |
| Ide.ModelBytes | driver/ide.c:368-372 | the 40 model bytes hold word 27+i's high byte at 2i and its low byte at 2i+1 |
| Ide.TrimmedLength | driver/ide.c:375-382 | the trimmed length leaves only spaces after it and no space just before it |
| Ide.ModelField | driver/ide.c:368-382 | the model field is 41 bytes and NUL-terminated at byte 40 |
| Ide.ModelFieldKeepsName | driver/ide.c:373-382 | the model field keeps the model bytes up to the trimmed length and is zero after them |
| Ide.FillModel | driver/ide.c:368-382 | the copy and trim loops leave exactly ModelField in the device's buffer |
| Ide.TotalSectors | driver/ide.c:384-386 | total sectors has word 61 as high half and word 60 as low half |
| Ide.IsHddFromConfig | driver/ide.c:357-366 | a device is a hard disk exactly when bit 15 of word 0 is clear |
| Ide.CheckType | driver/ide.c:270-293 | the signature (0, 0) is a hard disk, and the ATAPI signature (0x14, 0xEB) is not |
| Ide.Identify | driver/ide.c:298-401 | the device is present exactly when the IDENTIFY exchange succeeded; on failure nothing else changes; on success type, model, total sectors and CHS geometry come from the data words |
| Ide.SelectRegister | driver/ide.c:188-195 | 0xE0 selects the master, 0xF0 the slave |
| Ide.DeviceRegister | driver/ide.c:445-447 | the device register's high nibble is the select value and its low nibble is LBA bits 24-27 |
| Ide.LbaRegistersReassemble | driver/ide.c:205-214 | the LBA low/mid/high registers and the device-register nibble reassemble to lba mod 2^28 |
| Ide.ReadSector | driver/ide.c:406-447 | a read is issued exactly when the device is present, a hard disk, the sector is in range and the drive is ready; it programs one sector at that LBA with READ SECTORS |
| Ide.WriteSector | driver/ide.c:484-525 | the same guards for a write, with WRITE SECTORS |
| TestMain.DigitChar | tests/testmain.c:25-28 | a digit value maps to a character '0'..'9' |
| TestMain.DigitValue | tests/testmain.c:25-28 | the inverse of DigitChar |
| TestMain.Digits | tests/testmain.c:25-32 | the digits of v are decimal characters, empty exactly for 0, with no leading zero |
| TestMain.DecimalText | tests/testmain.c:15-34 | `utoa`'s text is non-empty decimal characters without a leading zero |
| TestMain.ParseDigits | tests/testmain.c:25-32 | reading the digits of v back gives v |
| TestMain.DecimalTextRoundTrip | tests/testmain.c:15-34 | reading `utoa`'s text back gives the value |
| TestMain.U32Digits | tests/testmain.c:16-28 | a 32-bit value has at most 10 digits, so the 16-character buffer never fills |
| TestMain.Reversed | tests/testmain.c:30-33 | position k holds the character at mirrored position |
| TestMain.LowDigitsFirst | tests/testmain.c:25-28 | the digit loop leaves the digits of a nonzero value least significant first |
| TestMain.Utoa | tests/testmain.c:15-34 | the buffer starts with the decimal text, then NUL, and is unchanged after that |
| TestMain.CopyReversed | tests/testmain.c:30-33 | the copy loop writes the reversal of the first n characters and nothing after them |
| TestMain.LineLength | tests/testmain.c:280-287 | the line ends at the first NUL, '\n' or '\r' |
| TestMain.CommandOf | tests/testmain.c:275-298 | the kept command is a prefix of the input without terminators, at most 127 characters, the whole line unless it was longer |
| TestMain.ReadCommand | tests/testmain.c:275-298 | the buffer holds the kept command followed by NULs; the returned size is its length; the whole line and its terminator are consumed |
| TestMain.ShortLineKept | tests/testmain.c:283-291 | a line shorter than the buffer is kept whole |
| TestMain.Dispatch | tests/testmain.c:239-267 | an empty command is ignored; otherwise the first entry with that name runs; without one the reply is "Unknown command" |
| TestMain.FirstIndex | tests/testmain.c:251-259 | None exactly when the name is absent, else the first index holding it |
| TestMain.FirstIndexAt | tests/testmain.c:251-259 | an index preceded by no other occurrence is the one found |
| TestMain.DuplicateEntryShadowed | tests/testmain.c:57-59 | the duplicated "intr_unreg" entry resolves to its first occurrence, index 8 |
| TestMain.Framed | tests/testmain.c:303-306 | a message is sent followed by exactly one '*' |
| TestMain.Unframe | tests/testmain.c:303-306 | the receiver's reading: the text before the first '*', None when there is none |
| TestMain.UnframeFramed | tests/testmain.c:303-306 | a message without '*' is read back exactly |
| Block.Names | driver/block.c:90-101 | the names of the registered devices, in order |
| Block.Lookup | driver/block.c:90-101 | None exactly when no device has the name, else a registered device with that name |
| Block.LookupAfterAppend | driver/block.c:83-103 | after registering a new name, it finds the new device and every other name as before |
| Block.Registry.constructor | driver/block.c:26-41 | an empty registry |
| Block.Registry.Register | driver/block.c:23-81 | succeeds (0) exactly when the table has room, the allocation succeeds and the name is new; then the device is appended with its fields verbatim; on -1 nothing changes; names stay unique |
| Block.Registry.GetByName | driver/block.c:83-103 | NULL for a NULL name, else Lookup on the table |
| Block.BlockSize | driver/block.c:105-113 | 0 for NULL, else the stored block size |
| Block.NumBlocks | driver/block.c:115-123 | 0 for NULL, else the stored block count |
| Block.RegisteredGeometry | driver/block.c:69-74 | a newly registered device reports the block size and count it was registered with |
| Block.ReadRoutine | driver/block.c:125-140 | the driver's read routine is used exactly when device, ops and routine exist and lba < num_blocks |
| Block.WriteRoutine | driver/block.c:142-157 | the same guard for the write routine |
| Block.BlkRead | driver/block.c:125-140 | -1 without calling the driver when the guard fails; otherwise the driver's result for driver_private and lba |
| Block.BlkWrite | driver/block.c:142-157 | the same for writes |
| Block.DriverCallsInRange | driver/block.c:132-136 | the driver is only ever called for an existing device and an LBA below its block count |
| Bitmap.Pos | libc/include/kernel/bitmap.h:14 | the bit position is the index modulo 32 |
| Bitmap.SetBit | libc/include/kernel/bitmap.h:13-15 | setting keeps the number of words |
| Bitmap.UnsetBit | libc/include/kernel/bitmap.h:17-19 | unsetting keeps the number of words |
| Bitmap.SetBitAt | libc/include/kernel/bitmap.h:13-23 | after setting bit i, bit j tests true exactly when j = i or it did before |
| Bitmap.UnsetBitAt | libc/include/kernel/bitmap.h:17-23 | after unsetting bit i, bit j tests true exactly when j ≠ i and it did before |
| Bitmap.SetBitEffect | libc/include/kernel/bitmap.h:13-15 | the same as SetBitAt for all bits at once: only bit i changes |
| Bitmap.UnsetBitEffect | libc/include/kernel/bitmap.h:17-19 | only bit i changes, to clear |
| Bitmap.SetThenUnsetRestores | libc/include/kernel/bitmap.h:13-19 | setting then unsetting a clear bit restores the bitmap |
| Bitmap.Set | libc/include/kernel/bitmap.h:13-15 | `bitmap_set` in place leaves SetBit of the old words |
| Bitmap.Unset | libc/include/kernel/bitmap.h:17-19 | `bitmap_unset` in place leaves UnsetBit of the old words |
| Bitmap.TestAfterUpdate | libc/include/kernel/bitmap.h:13-23 | a bit tests true after being set and false after being unset |
| Bitmap.FirstFree | libc/include/kernel/bitmap.h:26-37 | -1 exactly when all of the first max_bits bits are set; otherwise the smallest clear index |
| List.SortedPosition | libc/kernel/list.c:248-257 | the insertion point: every element before it compares below e, and the element at it does not |
| List.InsertSortedKeepsOrder | libc/kernel/list.c:236-261 | inserting at SortedPosition keeps a list sorted by a total preorder sorted |
| List.Element.constructor | libc/include/kernel/list.h:38-45 | a new element has no links |
| List.LinkedList.constructor | libc/include/kernel/list.h:49-60 | a list header with the given fields and no elements |
| List.LinkedList.Init | libc/kernel/list.c:32-42 | the list becomes valid and empty |
| List.LinkedList.IsEmpty | libc/kernel/list.c:272-279 | empty exactly when there are no elements |
| List.LinkedList.Size | libc/kernel/list.c:286-293 | the size field is the number of elements |
| List.LinkedList.Append | libc/kernel/list.c:49-67 | a NULL element changes nothing; otherwise the elements become old ++ [e], e is the tail, and the list stays valid |
| List.LinkedList.Prepend | libc/kernel/list.c:120-138 | the elements become [e] ++ old, e is the head, and the list stays valid |
| List.LinkedList.RemoveHead | libc/kernel/list.c:69-90 | NULL and no change on an empty list; otherwise returns the first element, leaves the rest, clears the removed element's links |
| List.LinkedList.RemoveTail | libc/kernel/list.c:92-113 | the mirror of RemoveHead at the tail |
| List.LinkedList.Remove | libc/kernel/list.c:145-176 | removes exactly e from the sequence, fixes head/tail, nulls e's links, keeps the list valid |
| List.LinkedList.InsertAfter | libc/kernel/list.c:184-202 | e goes immediately after the anchor, becoming the tail when the anchor was last |
| List.LinkedList.InsertBefore | libc/kernel/list.c:210-228 | e goes immediately before the anchor, becoming the head when the anchor was first |
| List.LinkedList.InsertSorted | libc/kernel/list.c:236-261 | e goes at SortedPosition: before the first element it does not compare above, else at the end |
| List.ListIsEmpty | libc/kernel/list.c:272-279 | true for a NULL or empty list |
| List.ListSize | libc/kernel/list.c:286-293 | 0 for NULL, else the number of elements |
| List.ListHead | libc/kernel/list.c:300-307 | NULL for a NULL or empty list, else the first element |
| List.ListTail | libc/kernel/list.c:314-321 | NULL for a NULL or empty list, else the last element |
| List.ListNext | libc/kernel/list.c:328-335 | NULL for NULL, else the element's next link |
| List.ListPrev | libc/kernel/list.c:342-349 | NULL for NULL, else the element's prev link |
| List.WalkVisitsInOrder | libc/kernel/list.c:328-349 | following next from element i reaches element i+1 (NULL after the last), and prev reaches element i−1 (NULL before the first) |
| Hfs.Le32RoundTrip | include/fs/hfs.h:51-61 | decoding the 4 little-endian bytes of a 32-bit field gives it back |
| Hfs.FromLe32RoundTrip | include/fs/hfs.h:51-61 | every 4 bytes are the encoding of the value they decode to |
| Hfs.Le16RoundTrip | include/fs/hfs.h:102 | the same for 16-bit indirect pointers |
| Hfs.Le32sRoundTrip | include/fs/hfs.h:99 | a run of 32-bit words decodes back to itself |
| Hfs.Le16sRoundTrip | include/fs/hfs.h:102 | a run of 16-bit pointers decodes back to itself |
| Hfs.SuperblockRoundTrip | include/fs/hfs.h:51-61 | a superblock's 28 bytes decode back to it and fit in one block |
| Hfs.MagicOnDisk | include/fs/hfs.h:41 | the magic is stored as the bytes of "1SFH" |
| Hfs.InodeRoundTrip | include/fs/hfs.h:64-76 | an inode (size, directory flag, 13 direct pointers, one indirect pointer) decodes back from its 64 bytes |
| Hfs.EntryRoundTrip | include/fs/hfs.h:79-84 | a directory entry (inode number and 28-byte name) decodes back from its 32 bytes |
| Hfs.Geometry | include/fs/hfs.h:27-39 | 64-byte inodes, 8 per block; 32-byte entries, 16 per block; 128 bitmap words, 4096 flags; 256 indirect pointers per block |
| Hfs.InodesRoundTrip | include/fs/hfs.h:98 | an inode block decodes back to its inodes |
| Hfs.EntriesRoundTrip | include/fs/hfs.h:87-91 | a directory block decodes back to its entries |
| Hfs.EncodeBlock | include/fs/hfs.h:95-103 | every view of `union block` except the superblock is exactly 512 bytes; the superblock is 28 |
| Hfs.BlockRoundTrip | include/fs/hfs.h:95-103 | every well-sized block view decodes back from its bytes |
| Hfs.SlotOf | include/fs/hfs.h:31-32 | an offset has a block slot exactly when it is below (13 + 256)·512, and the slot's block contains it |
| Hfs.SlotOfStart | include/fs/hfs.h:31-32 | the slot of a byte in a block is that block: the map is inverse to slot starts |
| Hfs.DirectReach | tests/fs/test_hfs.c:322-324 | direct pointers cover 6656 bytes, so byte 6656 and the end of an 8 KiB file need the indirect block |
| Hfs.Write | include/fs/hfs.h:129 | the size becomes max(old, off+len); the range holds the data; other bytes are kept; a hole reads as zero |
| Hfs.Read | include/fs/hfs.h:128 | the bytes from the offset, clipped to the file size |
| Hfs.ReadInside | tests/fs/test_hfs.c:543-597 | a read inside the file returns exactly that range |
| Hfs.ReadAfterWrite | tests/fs/test_hfs.c:83-107 | reading back what was just written gives the data |
| Hfs.WriteKeepsOthers | tests/fs/test_hfs.c:1251-1306 | a write does not change what a read of a disjoint range returns |
| Hfs.OverwriteLonger | tests/fs/test_hfs.c:480-509 | overwriting a file from 0 with longer data leaves exactly the new data |
| Hfs.WriteAtEnd | tests/fs/test_hfs.c:1121-1167 | writing at the end of a file appends |
| Hfs.WriteAtOffsetExample | tests/fs/test_hfs.c:512-540 | ten A's, then five B's at offset 5, read back as "AAAAABBBBB" |
| Hfs.ExpandExample | tests/fs/test_hfs.c:1000-1048 | the overwrite-and-expand sequence leaves 512 A's, 512 B's, 512 C's and 512 B's |
| Hfs.SparseExample | tests/fs/test_hfs.c:797-845 | writes at 0, 2048 and 5120 each read back intact, and the size is 5123 |
| Hfs.AppendsConcat | tests/fs/test_hfs.c:1121-1167 | consecutive writes, each at the end of the last, leave the concatenation of the chunks |
| Hfs.AppendsReadBack | tests/fs/test_hfs.c:1121-1167 | reading the whole file after them gives the concatenation |
| Hfs.ConcatCopiesLength | tests/fs/test_hfs.c:313-370 | n copies of a pattern are n times its length |
| Hfs.ConcatCopiesSplit | tests/fs/test_hfs.c:313-370 | n copies are b copies, the pattern, then the remaining copies |
| Hfs.PatternBlocksExample | tests/fs/test_hfs.c:313-370 | sixteen 512-byte pattern writes give an 8 KiB file that reaches indirect block 2; every block reads back as the pattern |
| Vfs.InitialTable | fs/vfs.c:52-59 | `vfs_init` leaves 16 NULL cells, none of them scanned |
| Vfs.FirstEmpty | fs/vfs.c:300-307 | the first NULL cell among the first n, None when there is none |
| Vfs.FirstNamed | fs/vfs.c:113-131 | the first scanned cell holding a filesystem whose covered vnode has the name, None when there is none |
| Vfs.Realloc | fs/vfs.c:309-316 | realloc keeps the common prefix and leaves cells beyond the old block unwritten |
| Vfs.AddAsWritten | fs/vfs.c:298-320 | `_add_to_mpoints` as written (see Findings) |
| Vfs.Add | fs/vfs.c:298-320 | reuse of the first NULL scanned cell; otherwise growth by exactly 5 with the entry at the old size, existing cells kept and the other new cells NULL; no change when realloc fails; the table stays scannable |
| Vfs.AddMountsOneMore | fs/vfs.c:298-320 | a successful add mounts one more copy of the filesystem and changes no other filesystem's count |
| Vfs.GrowthLeavesUnwrittenCells | fs/vfs.c:309-318 | as written, the sixth mount leaves scanned cells 6-9 unwritten |
| Vfs.UnmountedAsWritten | fs/vfs.c:110-135 | as written, unmount leaves the table as it was |
| Vfs.Unmounted | fs/vfs.c:110-135 | with the slot released, only the found cell can change, and only to NULL after a successful driver unmount |
| Vfs.UnmountAsWrittenKeepsFreed | fs/vfs.c:119-129 | as written, the freed filesystem is still found under its name after a successful unmount |
| Vfs.UnmountForgets | fs/vfs.c:110-135 | with the slot released, the name no longer finds that cell, and exactly one copy of the filesystem leaves the table |
| Vfs.FindType | fs/vfs.c:64-76 | the first supported type with the name, None when no type has it |
| Vfs.VnodeName | fs/vfs.c:96 | the name `strncpy` leaves in the 28-byte field: the path itself when it fits, else its first 28 characters |
| Vfs.SearchName | fs/vfs.c:282-283 | the path without one leading '/' |
| Vfs.LeadingSlashes | fs/vfs.c:344 | the run of '/' that `strtok_r` skips |
| Vfs.SegmentLength | fs/vfs.c:344 | the run of non-'/' characters that forms the token |
| Vfs.MountToken | fs/vfs.c:339-349 | the first token of the bounded copy of the path: non-empty and without '/', None when there is none |
| Vfs.MountTokenInPath | fs/vfs.c:375 | the computed relative start never passes the end of the path |
| Vfs.Bounded | fs/vfs.c:379-384 | what `strncpy` plus the forced terminator leaves: a prefix shorter than the buffer, the whole string when it fits |
| Vfs.Resolve | fs/vfs.c:325-389 | no root vnode for a NULL path, a zero-size buffer, a relative path, no token or no matching mount; otherwise the root of the first filesystem mounted under the path's token, and a relative path that fits the buffer |
| Vfs.ResolveSplitsPath | fs/vfs.c:373-384 | "/" + name + rest resolves to the mount's root with rest as relative path ("/" when rest is empty) |
| Vfs.MountTokenOf | fs/vfs.c:339-349 | the token of "/" + name + rest is name |
| Vfs.SegmentOf | fs/vfs.c:344 | the token of name + rest stops at the end of name |
| Vfs.OpenFile.constructor | fs/vfs.c:211-214 | a new handle has the vnode, offset 0 and the given flags |
| Vfs.Advance | fs/vfs.c:249-251 | the offset moves by a positive count, modulo 2^32, and stays put otherwise |
| Vfs.AdvanceTwice | fs/vfs.c:249-251 | two transfers advance the offset by their sum when it stays below 2^32 |
| Vfs.Transfer | fs/vfs.c:236-276 | `vfs_read`/`vfs_write`: -1 with the offset unchanged for a NULL file, vnode or buffer or size 0; otherwise the driver's count, by which the offset advances when positive |
| Vfs.Close | fs/vfs.c:221-233 | -1 for a NULL file or vnode, otherwise the driver's close status |
| Vfs.VfsState.constructor | fs/vfs.c:52-59 | the table is InitialTable |
| Vfs.VfsState.AddToMountpoints | fs/vfs.c:298-320 | corrected (see Findings): the scanning loop and growth leave Add of the old table, whose grown cells are NULL |
| Vfs.VfsState.Mount | fs/vfs.c:61-108 | corrected (see Findings), through Add: -1 with no change exactly for an unsupported type or a failed driver mount; otherwise 0, with the filesystem, covering a directory vnode named after the path without its first character, added |
| Vfs.VfsState.FindNamed | fs/vfs.c:113-119 | the lookup loop finds FirstNamed |
| Vfs.VfsState.Unmount | fs/vfs.c:110-135 | corrected (see Findings): -1 when nothing is mounted under the name; otherwise the driver's status; the table becomes Unmounted, with the found cell cleared |
| Vfs.VfsState.GetMounted | fs/vfs.c:279-294 | NULL for a NULL path; otherwise the first filesystem mounted under the search name |
| Vfs.VfsState.ResolveMountpoint | fs/vfs.c:325-389 | the loop finds Resolve on the current table |
| Vfs.VfsState.Open | fs/vfs.c:196-218 | NULL when the path does not resolve or the driver cannot open it; otherwise a fresh handle at offset 0 with the flags |
| Vfs.VfsState.PathOperation | fs/vfs.c:137-193 | `vfs_create`/`vfs_mkdir`/`vfs_remove`: -1 when the path does not resolve or the driver fails, else 0 |
| Fat12.FatEntry | fs/fat12.c:63-85 | every FAT entry is below 0x1000 |
| Fat12.EvenEntry | fs/fat12.c:73-84 | entry 2k is byte 3k plus the low nibble of byte 3k+1 as bits 8-11 |
| Fat12.OddEntry | fs/fat12.c:73-84 | entry 2k+1 is the high nibble of byte 3k+1 plus byte 3k+2 as bits 4-11 |
| Fat12.EntryPairOwnsBytes | fs/fat12.c:73-84 | entries 2k and 2k+1 depend only on bytes 3k..3k+2 |
| Fat12.FatEntryOfPackedPair | fs/fat12.c:73-84 | two 12-bit values packed in the FAT layout read back as entries 2k and 2k+1 |
| Fat12.PrefixWithout | fs/fat12.c:92-93 | the longest prefix up to a bound without a given character |
| Fat12.To83 | fs/fat12.c:110-132 | the 8.3 form is always 11 characters |
| Fat12.From83 | fs/fat12.c:87-108 | the usual form is at most 12 characters |
| Fat12.To83OfDotted | fs/fat12.c:110-132 | an 8.3-sized base.ext converts to the base and the extension, each padded with spaces |
| Fat12.From83OfPadded | fs/fat12.c:87-108 | padded base and extension convert back to base.ext, or the base alone without an extension |
| Fat12.From83To83 | fs/fat12.c:87-132 | a name that 8.3 can hold survives conversion to 8.3 and back |
| Fat12.To83From83 | fs/fat12.c:87-132 | an 8.3 name survives conversion to the usual form and back |
| Fat12.CopyUntil | fs/fat12.c:118-130 | the copying loop copies up to a bound, stopping before a stop character or at the end, and writes nothing else |
| Fat12.NormalTo83 | fs/fat12.c:110-132 | `_fat12_normal_to_8_3` fills the 11 characters with To83 of the name |
| Fat12.Normal | fs/fat12.c:87-108 | `_fat12_8_3to_normal` writes From83 and a terminator, and nothing after it |
| Fat12.ClusterToLba | fs/fat12.c:134-149 | reserved clusters 0 and 1 give 0 |
| Fat12.ClusterToLbaRuns | fs/fat12.c:140-148 | without wrap-around, the data area start plus (cluster − 2) · sectors per cluster; consecutive clusters map to consecutive runs, and the cluster is recovered from its sector |
| Fat12.ParseBootSector | include/fs/fat12.h:58-102 | each BPB field the driver uses is read back from its packed offset |
| Fat12.GeometryAsWritten | fs/fat12.c:287-293 | as written: the root directory follows the FATs and the data area follows the root directory (see Findings) |
| Fat12.MountGeometry | fs/fat12.c:287-293 | the corrected geometry stays within 32 bits |
| Fat12.GeometryLayout | fs/fat12.c:287-293 | without wrap-around, reserved sectors, FATs, root directory and data area follow each other from the partition's first sector |
| Fat12.RootDirHoldsEntries | fs/fat12.c:291-292 | the corrected root directory has the fewest sectors that hold all its 32-byte entries |
| Fat12.RootDirRoundsDown | fs/fat12.c:291-292 | as written, 17 entries (544 bytes) on 512-byte sectors get one sector instead of two |
| Fat12.PartitionOffsetTruncated | fs/fat12.c:287-288 | as written, a partition at sector 256 has its FAT looked for at sector 1 instead of 257 |
| Fat12.ScanFrom | fs/fat12.c:178-248 | the scan stops at a live entry with the 8.3 name, passing only non-final entries that are not matches |
| Fat12.ScanSkips | fs/fat12.c:197-200 | deleted entries, volume labels and non-matching entries pass the scan on |
| Fat12.ScanFromNotFound | fs/fat12.c:178-248 | the scan finds nothing exactly when every live entry with the name lies after an end marker, so a live match before the end marker is always found |
| Fat12.SkipSlashes | fs/fat12.c:170 | the name after its leading '/' characters |
| Fat12.Lookup | fs/fat12.c:151-249 | NULL for a directory other than "/"; otherwise the entry ScanFrom finds for the 8.3 form of the name, with its sector and index in that sector, and NULL only when no live match precedes the end marker (by ScanFromNotFound) |
| Fat12.AsI32 | fs/fat12.c:530 | the int32_t conversion: non-negative exactly for counts below 2^31 |
| Fat12.ReadCountAsWritten | fs/fat12.c:452-460 | as written, 0 at or past the end of the file (see Findings) |
| Fat12.ReadCount | fs/fat12.c:452-460 | 0 at or past the end of the file, otherwise the request cut at the end of the file |
| Fat12.ReadCountWithoutWrap | fs/fat12.c:458-460 | as written, the cut is right whenever offs + size does not wrap |
| Fat12.ReadCountWraps | fs/fat12.c:458-460 | as written, a wrapping request at offset 10 of a 100-byte file is not cut |
| Fat12.ReadPlan | fs/fat12.c:465-477 | offset_in_cluster is below a cluster; for a non-empty read the clusters to read and the last copy end cover exactly offset + count |
| Fat12.SoundSpans | fs/fat12.c:500-504 | every copy span is a non-empty piece of one cluster |
| Fat12.CeilShape | fs/fat12.c:476-477 | clusters_to_read rounds up: full clusters, then a last one of 1 to bpc bytes |
| Fat12.SpansCoverRead | fs/fat12.c:476-510 | the per-cluster spans add up to the count the read reports |
| Fat12.ReadFits | fs/fat12.c:476-477 | within 4096 clusters, clusters_to_read fits its 16 bits |
| Fat12.ClusterBuffer | fs/fat12.c:498 | the read buffer after `blkread`: the cluster's first sector, then what the buffer held before |
| Fat12.CopiedLength | fs/fat12.c:492-527 | the loop copies at most the planned spans, and all of them when the chain is long enough |
| Fat12.CopiedCount | fs/fat12.c:476-527 | a read copies at most its count, and exactly that many bytes when the cluster chain is long enough |
| Fat12.CopyInto | fs/fat12.c:506-508 | `memcpy` of the span after the bytes read so far; the rest of the buffer is kept |
| Fat12.ReadClusters | fs/fat12.c:488-527 | the cluster loop leaves exactly Copied at the start of the buffer and keeps the rest |
| Fat12.ReadCluster | fs/fat12.c:494-525 | one turn: the next FAT entry, and the cluster's span appended to the bytes read |
| Fat12.ReadSpan | fs/fat12.c:495-508 | the span of a cluster is the start of what is left to copy there |
| Fat12.CopiedStep | fs/fat12.c:494-525 | what is copied from a cluster on is its span, then the rest of the chain unless the cluster ends it |
| Fat12.Read | fs/fat12.c:433-531 | corrected (see Findings), through ReadCount: -1 for a NULL buffer, a zero size or a directory; 0 at or past the end of the file; otherwise ReadCount as int32, with the bytes of the clusters from `first_cluster_low + offs/bpc` on in the buffer |

## Left out

- Port I/O, polling, interrupts and inline assembly are not modelled. This covers `inb`/`outb`, the FDC command/FIFO/IRQ code, the IDE wait loops and PIO transfers, `load_gdt` and `tss_flush`. Port reads become input parameters. `Ide.IdentifyProbe` summarises how the IDENTIFY exchange went.
- Allocation is mostly assumed to succeed:
  - `malloc`/`free`/`realloc` succeed, except where the source branches on failure (realloc in `_add_to_mpoints`, and the allocation in `blkdev_register`, each a boolean parameter);
  - the memory that `free` releases is not modelled;
  - the `malloc` failure paths in `fat12_mount`, `_fat12_lookup` and `fat12_read` are not modelled.
- Fat12 mount, open, close, write, readdir and unmount are not modelled. This covers `fat12_mount`'s loading of the FAT and building of the root vnode, and `fat12_unmount`'s frees. Only the geometry and the vnode found by the lookup are. The close, write and readdir stubs return -1.
- Fat12.Read: the disk is a function from sector number to bytes. The FAT is assumed to cover every 16-bit cluster number.
- Fat12.Read requires a file of at most 4096 clusters. Beyond that, the 16-bit `clusters_to_read` wraps. The source does not guard this.
- Fat12.Read follows the source in starting at `first_cluster_low + offs / bpc` rather than walking the chain for `offs / bpc` links. It also follows the source in reading only one sector of each cluster. Both are right only for contiguous files of one-sector clusters.
- Fat12.ClusterToLba: its own contract states only the reserved-cluster case. The formula is stated by Fat12.ClusterToLbaRuns, under no 32-bit wrap-around.
- Fat12.Lookup receives the root directory as a sequence of decoded 32-byte entries rather than raw sectors. It reports the found entry rather than building a vnode and inode.
- Vfs.VfsState.Mount requires a non-empty mount path, because the source reads past the terminator of an empty one. Vfs.VfsState.Unmount has the same requirement.
- The fixed `fs_types` table and the driver callbacks are parameters, and vnodes are numbers. `_vfs_root_vnode` is not modelled, because nothing uses it.
- Block.Registry.Register does not model the memory a rejected duplicate name leaks (the device record is allocated before the duplicate check).
- Bitmap.FirstFree requires `max_bits` below 2^31, so that the `int32_t` index cannot overflow.
- List.LinkedList.Append and the other inserting methods require the element not to be in the list already. The source does not check this, and the list would become cyclic.
- List.LinkedList.InsertAfter requires a non-NULL anchor to be in the list. The source does not check this; with a foreign anchor it would link e into another list while counting it in this one.
- List.LinkedList.InsertBefore requires the same of its anchor, for the same reason.
- Vfs.VnodeName: a mount name of 28 or more characters leaves the vnode's name field without a terminator, and the `strcmp` calls of `vfs_unmount` and `vfs_get_mounted` then read past the field. The model compares the 28-character prefix instead.
- Vfs.VfsState.AddToMountpoints, Vfs.VfsState.Mount and Vfs.VfsState.Unmount implement the corrected table updates (Vfs.Add, Vfs.Unmounted). The behaviour as written is stated by Vfs.AddAsWritten and Vfs.UnmountedAsWritten only.
- Fat12.Read implements the corrected cut (Fat12.ReadCount). The wrapping comparison as written is stated by Fat12.ReadCountAsWritten only.
- List.LinkedList.Remove requires a non-NULL element to be in the list. The source trusts its caller on this.
- Hfs: the file implementing HFS is not part of this model:
  - the allocator, bitmaps, inode table, directories, format and mount are not modelled;
  - Hfs.Write and Hfs.Read are a reference model of file contents, pinned by the tests;
  - the placement of file bytes in blocks is not linked to them beyond the block map Hfs.SlotOf.
- Hfs.Write requires the write to end within the largest size the block map can address, (13 + 256)·512 bytes. Holes read as zeros.
- Gdt: the access-byte constants (`include/init/gdt.h`) are not part of this model. They are a parameter of Gdt.DescriptorTables.InitFlatProtected.
- TestMain: the serial-port transport is not modelled. The test functions the dispatch table runs are not modelled either.

## Findings

| source | as written | input that shows it | evidently intended | confidence | as-written member | corrected member |
|---|---|---|---|---|---|---|
| fs/vfs.c:309-318 | realloc grows the table by 5 and `_curr_size` by 5, but only the first new cell is stored; the other four are never zeroed, yet every later lookup dereferences them | the sixth mount after `vfs_init`: cells 6-9 are scanned but unwritten | zero the four added cells | not executed; high | Vfs.GrowthLeavesUnwrittenCells | Vfs.AddMountsOneMore |
| fs/vfs.c:119-129 | `vfs_unmount` leaves the table cell pointing at the filesystem that `fat12_unmount` has just freed | mount at "/a", unmount "/a" (status 0), then `vfs_get_mounted("/a")` | set the cell to NULL on success | not executed; high | Vfs.UnmountAsWrittenKeepsFreed | Vfs.UnmountForgets |
| fs/fat12.c:458-460 | `offs + size > file_size` is computed in 32 bits, so a huge request wraps and is not cut | file_size 100, offs 10, size 0xFFFFFFF8: returned as -8 instead of 90, while the copy runs unbounded | compare `size > file_size - offs` | not executed; high | Fat12.ReadCountWraps | Fat12.ReadCount |
| fs/fat12.c:291-292 | the root directory's sector count is rounded down | 17 root entries on 512-byte sectors: 1 sector for 544 bytes | round up | not executed; medium | Fat12.RootDirRoundsDown | Fat12.RootDirHoldsEntries |
| fs/fat12.c:287-288 | `lba_begin` is `uint8_t`, so `hidden_sectors` is truncated to 8 bits | hidden_sectors 256: FAT looked for at sector 1 instead of 257 | a 32-bit `lba_begin` | not executed; high | Fat12.PartitionOffsetTruncated | Fat12.GeometryLayout |
