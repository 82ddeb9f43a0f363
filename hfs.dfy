/**
 * The on-disk layout of HFS, the kernel's inode file system, and the
 * byte-level behaviour of reading and writing a file. The header
 * declares the superblock, the 64-byte inode with 13 direct pointers and
 * one single-indirect pointer, the 32-byte directory entry and the views
 * of a 512-byte block; structures are stored as the i386 compiler lays
 * them out, little-endian without padding. The file system's code is not
 * part of this model: a file is its sequence of bytes, and reads and
 * writes are stated on that sequence as the file system tests pin them.
 */
module Hfs {
  import opened Wrappers
  import Utils

  type u8 = x: int | 0 <= x < 0x100
  type u16 = x: int | 0 <= x < 0x1_0000
  type u32 = x: int | 0 <= x < 0x1_0000_0000

  const BlockSize: nat := 512
  const DirectPointers: nat := 13
  const DirectoryNameSize: nat := 28
  /** "HFS1" read as a big-endian word. */
  const HfsMagic: u32 := 0x4846_5331

  // ---------------------------------------------------------------------
  // Little-endian fields
  // ---------------------------------------------------------------------

  /** A 32-bit field as it sits in memory, least significant byte first. */
  function Le32(x: u32): (b: seq<u8>)
    ensures |b| == 4
  {
    [x % 0x100, x / 0x100 % 0x100, x / 0x1_0000 % 0x100, x / 0x100_0000]
  }

  function FromLe32(b: seq<u8>): (x: u32)
    requires |b| == 4
  {
    b[0] as int + 0x100 * b[1] as int + 0x1_0000 * b[2] as int + 0x100_0000 * b[3] as int
  }

  lemma Le32RoundTrip(x: u32)
    ensures FromLe32(Le32(x)) == x
  {
    var q1 := x / 0x100;
    var q2 := q1 / 0x100;
    assert x / 0x1_0000 == q2;
    assert x / 0x100_0000 == q2 / 0x100;
  }

  lemma FromLe32RoundTrip(b: seq<u8>)
    requires |b| == 4
    ensures Le32(FromLe32(b)) == b
  {
    var x := FromLe32(b);
    var b0, b1, b2, b3 := b[0] as int, b[1] as int, b[2] as int, b[3] as int;
    var q1, q2 := b1 + 0x100 * (b2 + 0x100 * b3), b2 + 0x100 * b3;
    Utils.DivModUnique(x, 0x100, q1, b0);
    Utils.DivModUnique(q1, 0x100, q2, b1);
    Utils.DivModUnique(q2, 0x100, b3, b2);
    Utils.DivModUnique(x, 0x1_0000, q2, b0 + 0x100 * b1);
    Utils.DivModUnique(x, 0x100_0000, b3, b0 + 0x100 * b1 + 0x1_0000 * b2);
  }

  /** A 16-bit field, least significant byte first. */
  function Le16(x: u16): (b: seq<u8>)
    ensures |b| == 2
  {
    [x % 0x100, x / 0x100]
  }

  function FromLe16(b: seq<u8>): (x: u16)
    requires |b| == 2
  {
    b[0] as int + 0x100 * b[1] as int
  }

  lemma Le16RoundTrip(x: u16)
    ensures FromLe16(Le16(x)) == x
  {
  }

  /** An array of 32-bit words, one after the other. */
  function Le32s(ws: seq<u32>): (b: seq<u8>)
    ensures |b| == 4 * |ws|
  {
    if ws == [] then [] else Le32(ws[0]) + Le32s(ws[1..])
  }

  function FromLe32s(b: seq<u8>): (ws: seq<u32>)
    requires |b| % 4 == 0
    ensures 4 * |ws| == |b|
  {
    if b == [] then [] else [FromLe32(b[..4])] + FromLe32s(b[4..])
  }

  lemma {:induction false} Le32sRoundTrip(ws: seq<u32>)
    ensures FromLe32s(Le32s(ws)) == ws
  {
    if ws != [] {
      var b := Le32s(ws);
      assert b[..4] == Le32(ws[0]) && b[4..] == Le32s(ws[1..]);
      Le32RoundTrip(ws[0]);
      Le32sRoundTrip(ws[1..]);
    }
  }

  /** An array of 16-bit words, one after the other. */
  function Le16s(ws: seq<u16>): (b: seq<u8>)
    ensures |b| == 2 * |ws|
  {
    if ws == [] then [] else Le16(ws[0]) + Le16s(ws[1..])
  }

  function FromLe16s(b: seq<u8>): (ws: seq<u16>)
    requires |b| % 2 == 0
    ensures 2 * |ws| == |b|
  {
    if b == [] then [] else [FromLe16(b[..2])] + FromLe16s(b[2..])
  }

  lemma {:induction false} Le16sRoundTrip(ws: seq<u16>)
    ensures FromLe16s(Le16s(ws)) == ws
  {
    if ws != [] {
      var b := Le16s(ws);
      assert b[..2] == Le16(ws[0]) && b[2..] == Le16s(ws[1..]);
      Le16RoundTrip(ws[0]);
      Le16sRoundTrip(ws[1..]);
    }
  }

  // ---------------------------------------------------------------------
  // Superblock, inode and directory entry
  // ---------------------------------------------------------------------

  /** The first block of the volume: counts, region starts and the magic. */
  datatype Superblock = Superblock(
    blocksCount: u32, inodesCount: u32, blockBitmap: u32, inodeBitmap: u32,
    inodeTableStart: u32, dataBlocksStart: u32, magic: u32)

  /** sizeof(struct superblock): seven 32-bit fields. */
  const SuperblockSize: nat := 7 * 4

  function EncodeSuperblock(sb: Superblock): (b: seq<u8>)
    ensures |b| == SuperblockSize
  {
    Le32s([sb.blocksCount, sb.inodesCount, sb.blockBitmap, sb.inodeBitmap,
           sb.inodeTableStart, sb.dataBlocksStart, sb.magic])
  }

  function DecodeSuperblock(b: seq<u8>): (sb: Superblock)
    requires |b| == SuperblockSize
  {
    var ws := FromLe32s(b);
    Superblock(ws[0], ws[1], ws[2], ws[3], ws[4], ws[5], ws[6])
  }

  lemma SuperblockRoundTrip(sb: Superblock)
    ensures DecodeSuperblock(EncodeSuperblock(sb)) == sb
    ensures SuperblockSize <= BlockSize
  {
    Le32sRoundTrip([sb.blocksCount, sb.inodesCount, sb.blockBitmap, sb.inodeBitmap,
                    sb.inodeTableStart, sb.dataBlocksStart, sb.magic]);
  }

  /** The magic is stored least significant byte first: the disk holds the characters 1, S, F, H. */
  lemma MagicOnDisk()
    ensures Le32(HfsMagic) == [0x31, 0x53, 0x46, 0x48]
    ensures '1' as int == 0x31 && 'S' as int == 0x53 && 'F' as int == 0x46 && 'H' as int == 0x48
  {
  }

  type DirectPointerArray = s: seq<u32> | |s| == DirectPointers
    witness [0, 0, 0, 0, 0, 0, 0, 0, 0, 0, 0, 0, 0]

  /** An entry of the inode table. */
  datatype Inode = Inode(size: u32, isDirectory: u32, direct: DirectPointerArray, singleIndirect: u32)

  /** sizeof(struct inode): size, directory flag, the direct pointers and the indirect pointer. */
  const InodeSize: nat := 4 * (DirectPointers + 3)

  function EncodeInode(i: Inode): (b: seq<u8>)
    ensures |b| == InodeSize
  {
    Le32(i.size) + Le32(i.isDirectory) + Le32s(i.direct) + Le32(i.singleIndirect)
  }

  function DecodeInode(b: seq<u8>): (i: Inode)
    requires |b| == InodeSize
  {
    Inode(FromLe32(b[0..4]), FromLe32(b[4..8]), FromLe32s(b[8..60]), FromLe32(b[60..64]))
  }

  lemma InodeRoundTrip(i: Inode)
    ensures DecodeInode(EncodeInode(i)) == i
  {
    var b := EncodeInode(i);
    assert b[0..4] == Le32(i.size);
    assert b[4..8] == Le32(i.isDirectory);
    assert b[8..60] == Le32s(i.direct);
    assert b[60..64] == Le32(i.singleIndirect);
    Le32RoundTrip(i.size);
    Le32RoundTrip(i.isDirectory);
    Le32sRoundTrip(i.direct);
    Le32RoundTrip(i.singleIndirect);
  }

  type Name = s: seq<u8> | |s| == DirectoryNameSize
    witness [0, 0, 0, 0, 0, 0, 0, 0, 0, 0, 0, 0, 0, 0, 0, 0, 0, 0, 0, 0, 0, 0, 0, 0, 0, 0, 0, 0]

  /** A directory entry: the inode it names and a fixed-size name field. */
  datatype DirectoryEntry = DirectoryEntry(inodeNumber: u32, name: Name)

  /** sizeof(struct directory_entry). */
  const DirectoryEntrySize: nat := 4 + DirectoryNameSize

  function EncodeEntry(e: DirectoryEntry): (b: seq<u8>)
    ensures |b| == DirectoryEntrySize
  {
    Le32(e.inodeNumber) + e.name
  }

  function DecodeEntry(b: seq<u8>): (e: DirectoryEntry)
    requires |b| == DirectoryEntrySize
  {
    DirectoryEntry(FromLe32(b[..4]), b[4..])
  }

  lemma EntryRoundTrip(e: DirectoryEntry)
    ensures DecodeEntry(EncodeEntry(e)) == e
  {
    var b := EncodeEntry(e);
    assert b[..4] == Le32(e.inodeNumber) && b[4..] == e.name;
    Le32RoundTrip(e.inodeNumber);
  }

  // ---------------------------------------------------------------------
  // The views of a block
  // ---------------------------------------------------------------------

  const InodesPerBlock: nat := BlockSize / InodeSize
  const DirectoryEntriesPerBlock: nat := BlockSize / DirectoryEntrySize
  const FlagsPerBlock: nat := BlockSize / 4
  const IndirectPointersPerBlock: nat := BlockSize / 2

  /** The geometry the header's macros evaluate to; every view but the superblock fills a block. */
  lemma Geometry()
    ensures InodeSize == 64 && InodesPerBlock == 8 && InodesPerBlock * InodeSize == BlockSize
    ensures DirectoryEntrySize == 32 && DirectoryEntriesPerBlock == 16
    ensures DirectoryEntriesPerBlock * DirectoryEntrySize == BlockSize
    ensures FlagsPerBlock == 128 && 32 * FlagsPerBlock == 4096 && 4 * FlagsPerBlock == BlockSize
    ensures IndirectPointersPerBlock == 256 && 2 * IndirectPointersPerBlock == BlockSize
  {
  }

  function EncodeInodes(nodes: seq<Inode>): (b: seq<u8>)
    ensures |b| == InodeSize * |nodes|
  {
    if nodes == [] then [] else EncodeInode(nodes[0]) + EncodeInodes(nodes[1..])
  }

  function DecodeInodes(b: seq<u8>): (nodes: seq<Inode>)
    requires |b| % InodeSize == 0
    ensures InodeSize * |nodes| == |b|
  {
    if b == [] then [] else [DecodeInode(b[..InodeSize])] + DecodeInodes(b[InodeSize..])
  }

  lemma {:induction false} InodesRoundTrip(nodes: seq<Inode>)
    ensures DecodeInodes(EncodeInodes(nodes)) == nodes
  {
    if nodes != [] {
      var b := EncodeInodes(nodes);
      assert b[..InodeSize] == EncodeInode(nodes[0]) && b[InodeSize..] == EncodeInodes(nodes[1..]);
      InodeRoundTrip(nodes[0]);
      InodesRoundTrip(nodes[1..]);
    }
  }

  function EncodeEntries(es: seq<DirectoryEntry>): (b: seq<u8>)
    ensures |b| == DirectoryEntrySize * |es|
  {
    if es == [] then [] else EncodeEntry(es[0]) + EncodeEntries(es[1..])
  }

  function DecodeEntries(b: seq<u8>): (es: seq<DirectoryEntry>)
    requires |b| % DirectoryEntrySize == 0
    ensures DirectoryEntrySize * |es| == |b|
  {
    if b == [] then [] else [DecodeEntry(b[..DirectoryEntrySize])] + DecodeEntries(b[DirectoryEntrySize..])
  }

  lemma {:induction false} EntriesRoundTrip(es: seq<DirectoryEntry>)
    ensures DecodeEntries(EncodeEntries(es)) == es
  {
    if es != [] {
      var b := EncodeEntries(es);
      assert b[..DirectoryEntrySize] == EncodeEntry(es[0]) && b[DirectoryEntrySize..] == EncodeEntries(es[1..]);
      EntryRoundTrip(es[0]);
      EntriesRoundTrip(es[1..]);
    }
  }

  /** One block as each member of the union sees it. */
  datatype Block =
    | SuperblockView(superblock: Superblock)
    | InodeView(inodes: seq<Inode>)
    | BitmapView(bitmap: seq<u32>)
    | DirectoryView(entries: seq<DirectoryEntry>)
    | DataView(data: seq<u8>)
    | PointerView(pointers: seq<u16>)

  /** Each view holds exactly as many items as its array in the union declares. */
  predicate WellSized(blk: Block)
  {
    match blk
    case SuperblockView(_) => true
    case InodeView(nodes) => |nodes| == InodesPerBlock
    case BitmapView(ws) => |ws| == FlagsPerBlock
    case DirectoryView(es) => |es| == DirectoryEntriesPerBlock
    case DataView(d) => |d| == BlockSize
    case PointerView(ps) => |ps| == IndirectPointersPerBlock
  }

  /** The bytes a view occupies at the start of the block. */
  function EncodeBlock(blk: Block): (b: seq<u8>)
    requires WellSized(blk)
    ensures blk.SuperblockView? ==> |b| == SuperblockSize
    ensures !blk.SuperblockView? ==> |b| == BlockSize
  {
    match blk
    case SuperblockView(sb) => EncodeSuperblock(sb)
    case InodeView(nodes) => EncodeInodes(nodes)
    case BitmapView(ws) => Le32s(ws)
    case DirectoryView(es) => EncodeEntries(es)
    case DataView(d) => d
    case PointerView(ps) => Le16s(ps)
  }

  /** Reads the bytes of a block through the view of the given kind. */
  function DecodeBlock(kind: Block, b: seq<u8>): (blk: Block)
    requires kind.SuperblockView? ==> |b| == SuperblockSize
    requires !kind.SuperblockView? ==> |b| == BlockSize
  {
    match kind
    case SuperblockView(_) => SuperblockView(DecodeSuperblock(b))
    case InodeView(_) => InodeView(DecodeInodes(b))
    case BitmapView(_) => BitmapView(FromLe32s(b))
    case DirectoryView(_) => DirectoryView(DecodeEntries(b))
    case DataView(_) => DataView(b)
    case PointerView(_) => PointerView(FromLe16s(b))
  }

  /** Every view reads back what was stored through it. */
  lemma BlockRoundTrip(blk: Block)
    requires WellSized(blk)
    ensures DecodeBlock(blk, EncodeBlock(blk)) == blk
  {
    match blk
    case SuperblockView(sb) => SuperblockRoundTrip(sb);
    case InodeView(nodes) => InodesRoundTrip(nodes);
    case BitmapView(ws) => Le32sRoundTrip(ws);
    case DirectoryView(es) => EntriesRoundTrip(es);
    case DataView(_) =>
    case PointerView(ps) => Le16sRoundTrip(ps);
  }

  // ---------------------------------------------------------------------
  // Where a file byte lives
  // ---------------------------------------------------------------------

  /** A file block is reached either through a direct pointer or through an entry of the indirect block. */
  datatype Slot = Direct(index: nat) | Indirect(index: nat)

  predicate ValidSlot(s: Slot)
  {
    match s
    case Direct(k) => k < DirectPointers
    case Indirect(k) => k < IndirectPointersPerBlock
  }

  /** The file offset at which the block in slot s begins. */
  function SlotStart(s: Slot): nat
  {
    match s
    case Direct(k) => k * BlockSize
    case Indirect(k) => (DirectPointers + k) * BlockSize
  }

  /** The largest file the 13 direct pointers and one indirect block can address. */
  const MaxFileSize: nat := (DirectPointers + IndirectPointersPerBlock) * BlockSize

  /** The slot holding the block of the given offset; None past the addressable size. */
  function SlotOf(offset: nat): (r: Option<Slot>)
    ensures r.Some? <==> offset < MaxFileSize
    ensures r.Some? ==> ValidSlot(r.value) && SlotStart(r.value) <= offset < SlotStart(r.value) + BlockSize
  {
    var k := offset / BlockSize;
    if k < DirectPointers then Some(Direct(k))
    else if k < DirectPointers + IndirectPointersPerBlock then Some(Indirect(k - DirectPointers))
    else None
  }

  /** Every byte of a slot's block maps back to that slot. */
  lemma SlotOfStart(s: Slot, d: nat)
    requires ValidSlot(s) && d < BlockSize
    ensures SlotOf(SlotStart(s) + d) == Some(s)
  {
    match s
    case Direct(k) => Utils.DivModUnique(SlotStart(s) + d, BlockSize, k, d);
    case Indirect(k) => Utils.DivModUnique(SlotStart(s) + d, BlockSize, DirectPointers + k, d);
  }

  /**
   * The direct pointers cover 6656 bytes, so an 8 KB file reaches into the
   * indirect block; the largest file is (13 + 256) * 512 bytes.
   */
  lemma DirectReach()
    ensures DirectPointers * BlockSize == 6656 && MaxFileSize == 137728
    ensures SlotOf(6655) == Some(Direct(12)) && SlotOf(6656) == Some(Indirect(0))
    ensures SlotOf(8191) == Some(Indirect(2)) && SlotOf(MaxFileSize) == None
  {
  }

  // ---------------------------------------------------------------------
  // Reading and writing a file's bytes
  // ---------------------------------------------------------------------

  function Min(a: nat, b: nat): nat { if a <= b then a else b }
  function Max(a: nat, b: nat): nat { if a <= b then b else a }

  function Zeros(n: nat): (z: seq<u8>)
    ensures |z| == n && forall k :: 0 <= k < n ==> z[k] == 0
  {
    if n == 0 then [] else [0] + Zeros(n - 1)
  }

  /**
   * The contents after writing data at offset off: the bytes in the range
   * are replaced, the size grows to max(old, off + |data|), and a gap
   * between the old end and off reads as zeros.
   */
  function Write(content: seq<u8>, off: nat, data: seq<u8>): (r: seq<u8>)
    requires off + |data| <= MaxFileSize
    ensures |r| == Max(|content|, off + |data|)
    ensures r[off..off + |data|] == data
    ensures forall k :: 0 <= k < off && k < |content| ==> r[k] == content[k]
    ensures forall k :: off + |data| <= k < |content| ==> r[k] == content[k]
    ensures forall k :: |content| <= k < off ==> r[k] == 0
  {
    var base := if off <= |content| then content else content + Zeros(off - |content|);
    var tail := if off + |data| < |base| then base[off + |data|..] else [];
    base[..off] + data + tail
  }

  /** The bytes a read of n bytes at offset off returns: never past the end of the file. */
  function Read(content: seq<u8>, off: nat, n: nat): (r: seq<u8>)
    ensures |r| == if off < |content| then Min(n, |content| - off) else 0
    ensures forall k :: 0 <= k < |r| ==> r[k] == content[off + k]
  {
    if off < |content| then content[off..off + Min(n, |content| - off)] else []
  }

  /** A read inside the file returns exactly the bytes there. */
  lemma ReadInside(content: seq<u8>, off: nat, n: nat)
    requires off + n <= |content|
    ensures Read(content, off, n) == content[off..off + n]
  {
    if n == 0 {
      assert Read(content, off, n) == [];
    }
  }

  /** Reading the range just written returns the written bytes. */
  lemma ReadAfterWrite(content: seq<u8>, off: nat, data: seq<u8>)
    requires off + |data| <= MaxFileSize
    ensures Read(Write(content, off, data), off, |data|) == data
  {
    ReadInside(Write(content, off, data), off, |data|);
  }

  /** A write leaves every range of the old contents outside its own range unchanged. */
  lemma WriteKeepsOthers(content: seq<u8>, off: nat, data: seq<u8>, o: nat, n: nat)
    requires off + |data| <= MaxFileSize && o + n <= |content|
    requires o + n <= off || off + |data| <= o
    ensures Read(Write(content, off, data), o, n) == Read(content, o, n)
  {
    ReadInside(content, o, n);
    ReadInside(Write(content, off, data), o, n);
  }

  /** Writing at least the whole file from offset 0 replaces it. */
  lemma OverwriteLonger(content: seq<u8>, data: seq<u8>)
    requires |content| <= |data| <= MaxFileSize
    ensures Write(content, 0, data) == data
  {
    var r := Write(content, 0, data);
    assert r == r[0..|data|];
  }

  /** Writing at the end of the file appends. */
  lemma WriteAtEnd(content: seq<u8>, data: seq<u8>)
    requires |content| + |data| <= MaxFileSize
    ensures Write(content, |content|, data) == content + data
  {
    var r := Write(content, |content|, data);
    assert r[..|content|] == content;
    assert r[|content|..] == data;
    assert r == r[..|content|] + r[|content|..];
  }

  function Repeat(x: u8, n: nat): (r: seq<u8>)
    ensures |r| == n && forall k :: 0 <= k < n ==> r[k] == x
  {
    if n == 0 then [] else [x] + Repeat(x, n - 1)
  }

  /** Ten As overwritten at offset 5 by five Bs read back as AAAAABBBBB. */
  lemma WriteAtOffsetExample()
    ensures Read(Write(Write([], 0, Repeat('A' as u8, 10)), 5, Repeat('B' as u8, 5)), 0, 10)
         == Repeat('A' as u8, 5) + Repeat('B' as u8, 5)
  {
    var a := Write([], 0, Repeat('A' as u8, 10));
    OverwriteLonger([], Repeat('A' as u8, 10));
    var f := Write(a, 5, Repeat('B' as u8, 5));
    ReadInside(f, 0, 10);
    assert f[..5] == Repeat('A' as u8, 5);
    assert f[0..10] == f[..5] + f[5..10];
  }

  /**
   * 1 KB of As, then 1536 Bs at offset 512, then 512 Cs at offset 1024:
   * the file is 2 KB holding 512 each of A, B, C and B.
   */
  lemma ExpandExample()
    ensures Write(Write(Write([], 0, Repeat('A' as u8, 1024)), 512, Repeat('B' as u8, 1536)), 1024, Repeat('C' as u8, 512))
         == Repeat('A' as u8, 512) + Repeat('B' as u8, 512) + Repeat('C' as u8, 512) + Repeat('B' as u8, 512)
  {
    var a := Write([], 0, Repeat('A' as u8, 1024));
    var b := Write(a, 512, Repeat('B' as u8, 1536));
    var c := Write(b, 1024, Repeat('C' as u8, 512));
    var want := Repeat('A' as u8, 512) + Repeat('B' as u8, 512) + Repeat('C' as u8, 512) + Repeat('B' as u8, 512);
    assert |c| == |want| == 2048;
    forall k | 0 <= k < 2048
      ensures c[k] == want[k]
    {
      if k < 512 {
        assert c[k] == b[k] == a[k];
      } else if k < 1024 {
        assert c[k] == b[k] == b[512..2048][k - 512];
      } else if k < 1536 {
        assert c[k] == c[1024..1536][k - 1024];
      } else {
        assert c[k] == b[k] == b[512..2048][k - 512];
      }
    }
  }

  /** START at 0, MIDDLE at 2048 and END at 5120 each read back intact from a fresh file. */
  lemma SparseExample(start: seq<u8>, middle: seq<u8>, end: seq<u8>)
    requires |start| == 5 && |middle| == 6 && |end| == 3
    ensures var f := Write(Write(Write([], 0, start), 2048, middle), 5120, end);
      |f| == 5123 && Read(f, 0, 5) == start && Read(f, 2048, 6) == middle && Read(f, 5120, 3) == end
  {
    var a := Write([], 0, start);
    var b := Write(a, 2048, middle);
    var f := Write(b, 5120, end);
    ReadAfterWrite([], 0, start);
    ReadAfterWrite(a, 2048, middle);
    ReadAfterWrite(b, 5120, end);
    WriteKeepsOthers(a, 2048, middle, 0, 5);
    WriteKeepsOthers(b, 5120, end, 0, 5);
    WriteKeepsOthers(b, 5120, end, 2048, 6);
  }

  // ---------------------------------------------------------------------
  // Successive writes through one open file
  // ---------------------------------------------------------------------

  function Concat(chunks: seq<seq<u8>>): (r: seq<u8>)
  {
    if chunks == [] then [] else chunks[0] + Concat(chunks[1..])
  }

  /** Writes each chunk where the previous one ended, as repeated writes through the file offset do. */
  function Appends(content: seq<u8>, off: nat, chunks: seq<seq<u8>>): (r: seq<u8>)
    requires off + |Concat(chunks)| <= MaxFileSize
    decreases chunks
  {
    if chunks == [] then content
    else
      assert Concat(chunks) == chunks[0] + Concat(chunks[1..]);
      Appends(Write(content, off, chunks[0]), off + |chunks[0]|, chunks[1..])
  }

  /** Successive writes from the end of a file append the chunks in order. */
  lemma {:induction false} AppendsConcat(content: seq<u8>, chunks: seq<seq<u8>>)
    requires |content| + |Concat(chunks)| <= MaxFileSize
    ensures Appends(content, |content|, chunks) == content + Concat(chunks)
    decreases chunks
  {
    if chunks != [] {
      assert Concat(chunks) == chunks[0] + Concat(chunks[1..]);
      WriteAtEnd(content, chunks[0]);
      var next := content + chunks[0];
      AppendsConcat(next, chunks[1..]);
      assert next + Concat(chunks[1..]) == content + Concat(chunks);
    }
  }

  /** Successive writes into a fresh file read back whole, all of their bytes. */
  lemma AppendsReadBack(chunks: seq<seq<u8>>)
    requires |Concat(chunks)| <= MaxFileSize
    ensures Read(Appends([], 0, chunks), 0, |Concat(chunks)|) == Concat(chunks)
  {
    AppendsConcat([], chunks);
    assert [] + Concat(chunks) == Concat(chunks);
    ReadInside(Concat(chunks), 0, |Concat(chunks)|);
  }

  /** n copies of the same chunk. */
  function Copies(p: seq<u8>, n: nat): (cs: seq<seq<u8>>)
    ensures |cs| == n
  {
    if n == 0 then [] else [p] + Copies(p, n - 1)
  }

  /** The first of n copies, then the other n - 1. */
  lemma ConcatCopiesStep(p: seq<u8>, n: nat)
    requires n > 0
    ensures Concat(Copies(p, n)) == p + Concat(Copies(p, n - 1))
  {
    assert Copies(p, n)[1..] == Copies(p, n - 1);
  }

  lemma {:induction false} ConcatCopiesLength(p: seq<u8>, n: nat)
    ensures |Concat(Copies(p, n))| == n * |p|
  {
    if n > 0 {
      ConcatCopiesStep(p, n);
      ConcatCopiesLength(p, n - 1);
    }
  }

  lemma Regroup(a: seq<u8>, b: seq<u8>, c: seq<u8>, d: seq<u8>)
    ensures a + (b + c + d) == (a + b) + c + d
  {
  }

  /** Copy b of n sits between the first b copies and the remaining ones. */
  lemma {:induction false} ConcatCopiesSplit(p: seq<u8>, n: nat, b: nat)
    requires b < n
    ensures Concat(Copies(p, n)) == Concat(Copies(p, b)) + p + Concat(Copies(p, n - b - 1))
  {
    ConcatCopiesStep(p, n);
    if b == 0 {
      assert Concat(Copies(p, b)) == [];
    } else {
      var before, after := Concat(Copies(p, b - 1)), Concat(Copies(p, n - b - 1));
      ConcatCopiesStep(p, b);
      ConcatCopiesSplit(p, n - 1, b - 1);
      assert n - 1 - (b - 1) - 1 == n - b - 1;
      var middle := Concat(Copies(p, n - 1));
      assert middle == before + p + after;
      Regroup(p, before, p, after);
    }
  }

  /**
   * Sixteen 512-byte writes of one pattern make an 8 KB file, past the
   * direct pointers; reading it 512 bytes at a time returns the pattern
   * every time.
   */
  lemma PatternBlocksExample(pattern: seq<u8>)
    requires |pattern| == BlockSize
    ensures |Concat(Copies(pattern, 16))| == 8192
    ensures var f := Appends([], 0, Copies(pattern, 16));
      |f| == 8192 && SlotOf(|f| - 1) == Some(Indirect(2))
      && forall b :: 0 <= b < 16 ==> Read(f, b * BlockSize, BlockSize) == pattern
  {
    ConcatCopiesLength(pattern, 16);
    var f := Concat(Copies(pattern, 16));
    AppendsConcat([], Copies(pattern, 16));
    assert [] + f == f;
    forall b | 0 <= b < 16
      ensures Read(f, b * BlockSize, BlockSize) == pattern
    {
      ConcatCopiesSplit(pattern, 16, b);
      ConcatCopiesLength(pattern, b);
      ReadInside(f, b * BlockSize, BlockSize);
    }
  }
}
