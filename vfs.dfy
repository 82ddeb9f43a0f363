/**
 * The virtual filesystem layer: the table of mounted filesystems, the
 * split of an absolute path into a mountpoint name and a path relative to
 * that filesystem, and the file handles whose offset reads and writes
 * advance.
 *
 * The table is the pair (_mountpoints, _curr_size). Its cells are modelled
 * as a sequence of slots; a slot is NULL (Empty), a mounted filesystem, or
 * memory that nothing has written (Indeterminate: the part of a realloc'd
 * block beyond the old block). Filesystem drivers (mount, unmount, the
 * vnode operations) are opaque functions passed in as parameters; a vnode is
 * identified by a number.
 */
module Vfs {
  import opened Wrappers
  import Utils

  /** Slots allocated by vfs_init. */
  const InitMountpoints: nat := 16
  /** Slots added each time the table is full. */
  const Growth: nat := 5
  /** Size of a vnode's name field. */
  const NameSize: nat := 28
  /** Size of the path buffers on the stack of the path operations. */
  const PathBufSize: nat := 256

  type i32 = x: int | -0x8000_0000 <= x < 0x8000_0000

  datatype VnodeType = File | Directory | CharDevice | BlockDevice | Pipe | Socket | Symlink

  /** The vnode a mounted filesystem covers, as vfs_mount creates it. */
  datatype Covered = Covered(name: string, kind: VnodeType)

  /** A mounted filesystem instance: its type's name, its root vnode and the vnode it covers. */
  datatype Filesystem = Filesystem(typeName: string, root: nat, covered: Covered)

  datatype Slot = Empty | Holds(fs: Filesystem) | Indeterminate

  /** The cells of the allocated block and the number of them that are scanned. */
  datatype Table = Table(cells: seq<Slot>, currSize: nat)

  /** A supported filesystem type: its name and its driver's mount routine (device name to root vnode, None when mounting fails). */
  datatype FsType = FsType(name: string, mount: string -> Option<nat>)

  /** The table right after vfs_init: 16 zeroed cells, none of them scanned. */
  function InitialTable(): (t: Table)
    ensures |t.cells| == InitMountpoints && t.currSize == 0
    ensures forall i :: 0 <= i < |t.cells| ==> t.cells[i] == Empty
  {
    Table(seq(InitMountpoints, _ => Empty), 0)
  }

  /** Every scanned cell holds NULL or a mounted filesystem, so the lookup loops read only written memory. */
  predicate Scannable(t: Table)
  {
    t.currSize <= |t.cells| && forall i :: 0 <= i < t.currSize ==> !t.cells[i].Indeterminate?
  }

  /** The first NULL cell among the first n. */
  function FirstEmpty(cells: seq<Slot>, n: nat): (k: Option<nat>)
    requires n <= |cells|
    ensures k.Some? ==> k.value < n && cells[k.value] == Empty
    ensures k.Some? ==> forall j :: 0 <= j < k.value ==> cells[j] != Empty
    ensures k.None? ==> forall j :: 0 <= j < n ==> cells[j] != Empty
  {
    if n == 0 then None
    else match FirstEmpty(cells, n - 1)
      case Some(j) => Some(j)
      case None => if cells[n - 1] == Empty then Some(n - 1) else None
  }

  /** The first scanned cell holding a filesystem that covers a vnode called name. */
  function FirstNamed(cells: seq<Slot>, n: nat, name: string): (k: Option<nat>)
    requires n <= |cells|
    ensures k.Some? ==> k.value < n && cells[k.value].Holds? && cells[k.value].fs.covered.name == name
    ensures k.Some? ==> forall j :: 0 <= j < k.value ==> !(cells[j].Holds? && cells[j].fs.covered.name == name)
    ensures k.None? ==> forall j :: 0 <= j < n ==> !(cells[j].Holds? && cells[j].fs.covered.name == name)
  {
    if n == 0 then None
    else match FirstNamed(cells, n - 1, name)
      case Some(j) => Some(j)
      case None => if cells[n - 1].Holds? && cells[n - 1].fs.covered.name == name then Some(n - 1) else None
  }

  /** realloc to newSize cells: the common prefix is kept, cells beyond the old block are unwritten. */
  function Realloc(cells: seq<Slot>, newSize: nat): (r: seq<Slot>)
    ensures |r| == newSize
    ensures forall i :: 0 <= i < newSize && i < |cells| ==> r[i] == cells[i]
    ensures forall i :: |cells| <= i < newSize ==> r[i] == Indeterminate
  {
    if newSize <= |cells| then cells[..newSize] else cells + seq(newSize - |cells|, _ => Indeterminate)
  }

  /** _add_to_mpoints as written: the cells a growth adds after the new entry are left as realloc returns them. */
  function AddAsWritten(t: Table, fs: Filesystem, reallocFails: bool): (r: Table)
    requires t.currSize <= |t.cells|
    ensures r.currSize <= |r.cells|
  {
    match FirstEmpty(t.cells, t.currSize)
    case Some(i) => Table(t.cells[i := Holds(fs)], t.currSize)
    case None =>
      if reallocFails then t
      else Table(Realloc(t.cells, t.currSize + Growth)[t.currSize := Holds(fs)], t.currSize + Growth)
  }

  /**
   * _add_to_mpoints with the grown cells zeroed: the first NULL cell among
   * the scanned ones is reused; otherwise the table grows by exactly five
   * cells, the new entry goes at the old _curr_size and the other four new
   * cells are NULL. A failed realloc changes nothing.
   */
  function Add(t: Table, fs: Filesystem, reallocFails: bool): (r: Table)
    requires Scannable(t)
    ensures Scannable(r)
    ensures FirstEmpty(t.cells, t.currSize).Some? ==>
              var i := FirstEmpty(t.cells, t.currSize).value;
              r.currSize == t.currSize && r.cells == t.cells[i := Holds(fs)]
    ensures FirstEmpty(t.cells, t.currSize).None? && !reallocFails ==>
              && r.currSize == t.currSize + Growth
              && r.cells[..t.currSize] == t.cells[..t.currSize]
              && r.cells[t.currSize] == Holds(fs)
              && forall j :: t.currSize < j < r.currSize ==> r.cells[j] == Empty
    ensures FirstEmpty(t.cells, t.currSize).None? && reallocFails ==> r == t
  {
    match FirstEmpty(t.cells, t.currSize)
    case Some(i) => Table(t.cells[i := Holds(fs)], t.currSize)
    case None =>
      if reallocFails then t
      else Table(t.cells[..t.currSize] + [Holds(fs)] + seq(Growth - 1, _ => Empty), t.currSize + Growth)
  }

  /** 1 when the cell holds fs, else 0. */
  function Holding(s: Slot, fs: Filesystem): (c: nat)
    ensures c <= 1 && (c == 1 <==> s == Holds(fs))
  {
    if s == Holds(fs) then 1 else 0
  }

  /** How many of the first n cells hold fs. */
  function Occurrences(cells: seq<Slot>, n: nat, fs: Filesystem): (c: nat)
    requires n <= |cells|
    ensures c <= n
  {
    if n == 0 then 0 else Occurrences(cells, n - 1, fs) + Holding(cells[n - 1], fs)
  }

  /** Occurrences does not look past the first n cells. */
  lemma {:induction false} OccurrencesPrefix(a: seq<Slot>, b: seq<Slot>, n: nat, fs: Filesystem)
    requires n <= |a| && n <= |b| && a[..n] == b[..n]
    ensures Occurrences(a, n, fs) == Occurrences(b, n, fs)
  {
    if n > 0 {
      assert a[n - 1] == a[..n][n - 1] && b[n - 1] == b[..n][n - 1];
      assert a[..n - 1] == a[..n][..n - 1] && b[..n - 1] == b[..n][..n - 1];
      OccurrencesPrefix(a, b, n - 1, fs);
    }
  }

  /** Storing s into cell i trades that cell's count for s's. */
  lemma {:induction false} OccurrencesUpdate(cells: seq<Slot>, n: nat, i: nat, s: Slot, fs: Filesystem)
    requires i < n <= |cells|
    ensures Occurrences(cells[i := s], n, fs) + Holding(cells[i], fs) == Occurrences(cells, n, fs) + Holding(s, fs)
  {
    var u := cells[i := s];
    if i < n - 1 {
      OccurrencesUpdate(cells, n - 1, i, s, fs);
      assert u[n - 1] == cells[n - 1];
    } else {
      assert u[..n - 1] == cells[..n - 1];
      OccurrencesPrefix(u, cells, n - 1, fs);
    }
  }

  /** NULL cells count for nothing. */
  lemma {:induction false} OccurrencesEmptyTail(cells: seq<Slot>, m: nat, n: nat, fs: Filesystem)
    requires m <= n <= |cells|
    requires forall j :: m <= j < n ==> cells[j] == Empty
    ensures Occurrences(cells, n, fs) == Occurrences(cells, m, fs)
    decreases n - m
  {
    if m < n {
      OccurrencesEmptyTail(cells, m, n - 1, fs);
    }
  }

  /**
   * Adding a filesystem (when a NULL cell is free or the table can grow)
   * mounts exactly one more copy of it and leaves every other filesystem's
   * count alone.
   */
  lemma AddMountsOneMore(t: Table, fs: Filesystem, reallocFails: bool, g: Filesystem)
    requires Scannable(t)
    requires FirstEmpty(t.cells, t.currSize).Some? || !reallocFails
    ensures var r := Add(t, fs, reallocFails);
            Occurrences(r.cells, r.currSize, g) == Occurrences(t.cells, t.currSize, g) + (if g == fs then 1 else 0)
  {
    var r := Add(t, fs, reallocFails);
    match FirstEmpty(t.cells, t.currSize)
    case Some(i) =>
      OccurrencesUpdate(t.cells, t.currSize, i, Holds(fs), g);
    case None =>
      var n := t.currSize;
      assert r.cells[..n] == t.cells[..n];
      OccurrencesPrefix(r.cells, t.cells, n, g);
      OccurrencesEmptyTail(r.cells, n + 1, r.currSize, g);
  }

  /**
   * As written, the sixth mount after vfs_init grows the table from 5 to
   * 10 scanned cells but writes only cell 5: cells 6 to 9 are scanned by
   * every later lookup although nothing has stored into them.
   */
  lemma GrowthLeavesUnwrittenCells(a: Filesystem, b: Filesystem, c: Filesystem, d: Filesystem, e: Filesystem, f: Filesystem)
    ensures var t := AddAsWritten(AddAsWritten(AddAsWritten(AddAsWritten(AddAsWritten(AddAsWritten(
                       InitialTable(), a, false), b, false), c, false), d, false), e, false), f, false);
            && t.currSize == 10
            && t.cells[6] == Indeterminate
            && !Scannable(t)
  {
    var t1 := AddAsWritten(InitialTable(), a, false);
    assert t1.cells == [Holds(a), Empty, Empty, Empty, Empty] && t1.currSize == 5;
    assert t1.cells[0] != Empty && t1.cells[1] == Empty;
    var t2 := AddAsWritten(t1, b, false);
    assert FirstEmpty(t1.cells, 5) == Some(1);
    assert t2.cells == [Holds(a), Holds(b), Empty, Empty, Empty];
    var t3 := AddAsWritten(t2, c, false);
    assert t2.cells[0] != Empty && t2.cells[1] != Empty && t2.cells[2] == Empty;
    assert FirstEmpty(t2.cells, 5) == Some(2);
    assert t3.cells == [Holds(a), Holds(b), Holds(c), Empty, Empty];
    var t4 := AddAsWritten(t3, d, false);
    assert FirstEmpty(t3.cells, 5) == Some(3);
    assert t4.cells == [Holds(a), Holds(b), Holds(c), Holds(d), Empty];
    var t5 := AddAsWritten(t4, e, false);
    assert FirstEmpty(t4.cells, 5) == Some(4);
    assert t5.cells == [Holds(a), Holds(b), Holds(c), Holds(d), Holds(e)] && t5.currSize == 5;
    var t6 := AddAsWritten(t5, f, false);
    assert FirstEmpty(t5.cells, 5).None?;
    assert t6.cells[6] == Realloc(t5.cells, 10)[6];
  }

  /** The table after vfs_unmount as written: unchanged, whatever the driver's unmount did. */
  function UnmountedAsWritten(t: Table, name: string, status: int): (r: Table)
    requires t.currSize <= |t.cells|
    ensures r.currSize == t.currSize && |r.cells| == |t.cells|
  {
    t
  }

  /**
   * The table after vfs_unmount with the slot released: when the driver's
   * unmount succeeded (it frees the filesystem instance), the cell that
   * held it becomes NULL; otherwise nothing changes.
   */
  function Unmounted(t: Table, name: string, status: int): (r: Table)
    requires t.currSize <= |t.cells|
    ensures r.currSize == t.currSize && |r.cells| == |t.cells|
    ensures forall i :: 0 <= i < |t.cells| && r.cells[i] != t.cells[i] ==>
              status == 0 && Some(i) == FirstNamed(t.cells, t.currSize, name) && r.cells[i] == Empty
  {
    match FirstNamed(t.cells, t.currSize, name)
    case Some(k) => if status == 0 then Table(t.cells[k := Empty], t.currSize) else t
    case None => t
  }

  /**
   * As written, a filesystem whose driver has freed it on a successful
   * unmount is still the one vfs_get_mounted and the path operations find
   * under its name.
   */
  lemma UnmountAsWrittenKeepsFreed(t: Table, name: string)
    requires t.currSize <= |t.cells| && FirstNamed(t.cells, t.currSize, name).Some?
    ensures var r := UnmountedAsWritten(t, name, 0);
            FirstNamed(r.cells, r.currSize, name) == FirstNamed(t.cells, t.currSize, name)
  {
  }

  /** With the slot released, a successful unmount removes exactly one copy of the unmounted filesystem from the table. */
  lemma UnmountForgets(t: Table, name: string, g: Filesystem)
    requires Scannable(t) && FirstNamed(t.cells, t.currSize, name).Some?
    ensures var k := FirstNamed(t.cells, t.currSize, name).value;
            var r := Unmounted(t, name, 0);
            && Scannable(r)
            && FirstNamed(r.cells, r.currSize, name) != Some(k)
            && Occurrences(r.cells, r.currSize, g) + (if g == t.cells[k].fs then 1 else 0) == Occurrences(t.cells, t.currSize, g)
  {
    var k := FirstNamed(t.cells, t.currSize, name).value;
    OccurrencesUpdate(t.cells, t.currSize, k, Empty, g);
  }

  /** The first supported type with the given name. */
  function FindType(types: seq<FsType>, name: string): (k: Option<nat>)
    ensures k.Some? ==> k.value < |types| && types[k.value].name == name
    ensures k.Some? ==> forall j :: 0 <= j < k.value ==> types[j].name != name
    ensures k.None? ==> forall j :: 0 <= j < |types| ==> types[j].name != name
  {
    if |types| == 0 then None
    else match FindType(types[..|types| - 1], name)
      case Some(j) => Some(j)
      case None => if types[|types| - 1].name == name then Some(|types| - 1) else None
  }

  /** The name strncpy leaves in a vnode's 28-byte name field (a 28-character name has no terminator in the source). */
  function VnodeName(s: string): (r: string)
    ensures |r| <= NameSize && r <= s
    ensures |s| <= NameSize ==> r == s
  {
    if |s| <= NameSize then s else s[..NameSize]
  }

  /** vfs_get_mounted's search name: the path without one leading '/'. */
  function SearchName(path: string): (r: string)
    ensures |path| > 0 && path[0] == '/' ==> path == "/" + r
    ensures !(|path| > 0 && path[0] == '/') ==> r == path
  {
    if |path| > 0 && path[0] == '/' then path[1..] else path
  }

  /** The number of '/' characters that strtok_r skips before a token. */
  function LeadingSlashes(s: string): (n: nat)
    ensures n <= |s|
    ensures forall i :: 0 <= i < n ==> s[i] == '/'
    ensures n < |s| ==> s[n] != '/'
  {
    if |s| == 0 || s[0] != '/' then 0 else 1 + LeadingSlashes(s[1..])
  }

  /** The length of the run of non-'/' characters at the start of s. */
  function SegmentLength(s: string): (n: nat)
    ensures n <= |s|
    ensures forall i :: 0 <= i < n ==> s[i] != '/'
    ensures n < |s| ==> s[n] == '/'
  {
    if |s| == 0 || s[0] == '/' then 0 else 1 + SegmentLength(s[1..])
  }

  /** The mountpoint name strtok_r returns for the first 255 characters of path, None when there is none. */
  function MountToken(path: string): (token: Option<string>)
    ensures token.Some? ==> 0 < |token.value| && '/' !in token.value
  {
    var buf := if |path| <= PathBufSize - 1 then path else path[..PathBufSize - 1];
    var start := LeadingSlashes(buf);
    var len := SegmentLength(buf[start..]);
    if len == 0 then None else Some(buf[start..start + len])
  }

  /** A token never extends past the path it was cut from. */
  lemma MountTokenInPath(path: string)
    requires |path| > 0 && path[0] == '/' && MountToken(path).Some?
    ensures 1 + |MountToken(path).value| <= |path|
  {
    var buf := if |path| <= PathBufSize - 1 then path else path[..PathBufSize - 1];
    assert buf[0] == '/';
  }

  /** What strncpy into a buffer of size bytes followed by rel_path[size - 1] = 0 leaves as a string. */
  function Bounded(s: string, size: nat): (r: string)
    requires size > 0
    ensures |r| < size && r <= s
    ensures |s| < size ==> r == s
  {
    if |s| < size then s else s[..size - 1]
  }

  /**
   * _vfs_resolve_mountpoint on a table: the root vnode of the first
   * filesystem mounted under the path's first component, and the rest of
   * the path from the character after "/" + that component ("/" when
   * nothing follows), cut to fit relPathSize bytes with the terminator.
   */
  function Resolve(t: Table, path: Option<string>, relPathSize: nat): (r: (Option<nat>, string))
    requires t.currSize <= |t.cells|
    ensures r.0.None? ==> r.1 == ""
    ensures r.0.Some? ==> 0 < relPathSize && |r.1| < relPathSize
    ensures (path.None? || relPathSize == 0) ==> r.0.None?
    ensures path.Some? && !(|path.value| > 0 && path.value[0] == '/') ==> r.0.None?
    ensures r.0.Some? ==>
              && path.Some? && MountToken(path.value).Some?
              && var k := FirstNamed(t.cells, t.currSize, MountToken(path.value).value);
                 k.Some? && r.0 == Some(t.cells[k.value].fs.root)
    ensures path.Some? ==>
              (MountToken(path.value).None? || FirstNamed(t.cells, t.currSize, MountToken(path.value).value).None?) ==> r.0.None?
  {
    if path.None? || relPathSize == 0 || |path.value| == 0 || path.value[0] != '/' then (None, "")
    else match MountToken(path.value)
      case None => (None, "")
      case Some(token) =>
        match FirstNamed(t.cells, t.currSize, token)
        case None => (None, "")
        case Some(k) =>
          MountTokenInPath(path.value);
          var relStart := path.value[1 + |token|..];
          (Some(t.cells[k].fs.root), Bounded(if relStart == "" then "/" else relStart, relPathSize))
  }

  /**
   * Resolving "/" + name + rest, where name is a mounted name without '/'
   * and rest is empty or starts with '/', gives that filesystem's root and
   * rest as the relative path ("/" when rest is empty).
   */
  lemma ResolveSplitsPath(t: Table, name: string, rest: string, relPathSize: nat)
    requires t.currSize <= |t.cells|
    requires name != "" && '/' !in name && (rest == "" || rest[0] == '/')
    requires |name| + |rest| < PathBufSize - 1 && |rest| < relPathSize && 1 < relPathSize
    requires FirstNamed(t.cells, t.currSize, name).Some?
    ensures var k := FirstNamed(t.cells, t.currSize, name).value;
            Resolve(t, Some("/" + name + rest), relPathSize)
              == (Some(t.cells[k].fs.root), if rest == "" then "/" else rest)
  {
    var path := "/" + name + rest;
    MountTokenOf(name, rest);
    assert path[1 + |name|..] == rest;
    var shown := if rest == "" then "/" else rest;
    assert Bounded(shown, relPathSize) == shown;
  }

  /** The mountpoint token of "/" + name + rest is name, when name has no '/' and rest is empty or starts with one. */
  lemma MountTokenOf(name: string, rest: string)
    requires name != "" && '/' !in name && (rest == "" || rest[0] == '/')
    requires |name| + |rest| < PathBufSize - 1
    ensures MountToken("/" + name + rest) == Some(name)
  {
    var path := "/" + name + rest;
    assert path[1..] == name + rest;
    assert LeadingSlashes(path) == 1 by {
      assert path[1..][0] == name[0];
    }
    SegmentOf(name, rest);
    assert path[1..1 + |name|] == name;
  }

  /** The segment at the start of name + rest is name when name has no '/' and rest is empty or starts with one. */
  lemma {:induction false} SegmentOf(name: string, rest: string)
    requires '/' !in name && (rest == "" || rest[0] == '/')
    ensures SegmentLength(name + rest) == |name|
  {
    if name != "" {
      assert (name + rest)[1..] == name[1..] + rest;
      SegmentOf(name[1..], rest);
    }
  }

  /** An opened file: its vnode (None for NULL), offset and flags. */
  class OpenFile {
    var vnode: Option<nat>
    var offset: Utils.u32
    var flags: Utils.u32

    constructor (vnode: nat, flags: Utils.u32)
      ensures this.vnode == Some(vnode) && offset == 0 && this.flags == flags
    {
      this.vnode := Some(vnode);
      offset := 0;
      this.flags := flags;
    }
  }

  /** f_offset after a transfer that returned count: advanced by count when positive, modulo 2^32. */
  function Advance(offset: Utils.u32, count: i32): (r: Utils.u32)
    ensures count <= 0 ==> r == offset
    ensures count > 0 && offset + count < Utils.WordModulus ==> r == offset + count
    ensures count > 0 ==> (r - offset - count) % Utils.WordModulus == 0
  {
    if count > 0 then (offset + count) % Utils.WordModulus else offset
  }

  /** Two transfers in a row advance the offset by their sum when it stays below 2^32. */
  lemma AdvanceTwice(offset: Utils.u32, a: i32, b: i32)
    requires a > 0 && b > 0 && offset + a + b < Utils.WordModulus
    ensures Advance(Advance(offset, a), b) == offset + a + b
  {
  }

  /** A driver's read or write routine: vnode, offset and size to the number of bytes transferred (negative on error). */
  type TransferOp = (nat, Utils.u32, Utils.u32) -> i32

  /**
   * vfs_read and vfs_write: -1 and no change for a NULL file, vnode or
   * buffer, or a zero size; otherwise the driver's count, by which the
   * offset advances when it is positive.
   */
  method Transfer(file: OpenFile?, buf: array?<bv8>, size: Utils.u32, op: TransferOp) returns (r: i32)
    modifies file
    ensures file == null || file.vnode.None? || buf == null || size == 0 ==>
              r == -1 && (file != null ==> file.offset == old(file.offset))
    ensures file != null && file.vnode.Some? && buf != null && size != 0 ==>
              && r == op(file.vnode.value, old(file.offset), size)
              && file.offset == Advance(old(file.offset), r)
    ensures file != null ==> file.vnode == old(file.vnode) && file.flags == old(file.flags)
  {
    if file == null || file.vnode.None? || buf == null || size == 0 {
      return -1;
    }
    r := op(file.vnode.value, file.offset, size);
    if r > 0 {
      file.offset := (file.offset + r) % Utils.WordModulus;
    }
  }

  /** vfs_close: -1 for a NULL file or vnode, otherwise the driver's close status. */
  function Close(file: Option<Option<nat>>, close: nat -> i32): (r: i32)
    ensures (file.None? || file.value.None?) ==> r == -1
    ensures file.Some? && file.value.Some? ==> r == close(file.value.value)
  {
    if file.None? || file.value.None? then -1 else close(file.value.value)
  }

  /** The state of the VFS layer: the mount table. */
  class VfsState {
    var cells: seq<Slot>
    var currSize: nat

    function Snapshot(): Table
      reads this
    {
      Table(cells, currSize)
    }

    ghost predicate Valid()
      reads this
    {
      Scannable(Snapshot())
    }

    /** vfs_init. */
    constructor ()
      ensures Valid() && Snapshot() == InitialTable()
    {
      cells := seq(InitMountpoints, _ => Empty);
      currSize := 0;
    }

    /** _add_to_mpoints, with the grown cells zeroed. */
    method AddToMountpoints(fs: Filesystem, reallocFails: bool)
      requires Valid()
      modifies this
      ensures Valid() && Snapshot() == Add(old(Snapshot()), fs, reallocFails)
    {
      var i := 0;
      while i < currSize
        invariant i <= currSize
        invariant forall j :: 0 <= j < i ==> cells[j] != Empty
      {
        if cells[i] == Empty {
          assert FirstEmpty(cells, currSize) == Some(i);
          cells := cells[i := Holds(fs)];
          return;
        }
        i := i + 1;
      }
      assert FirstEmpty(cells, currSize).None?;
      if reallocFails {
        return;
      }
      cells := cells[..currSize] + [Holds(fs)] + seq(Growth - 1, _ => Empty);
      currSize := currSize + Growth;
    }

    /**
     * vfs_mount: -1 and no change when the type is not supported or its
     * driver fails to mount the device; otherwise the new filesystem,
     * covering a directory vnode named after mountPath without its first
     * character, is added to the table and the result is 0.
     */
    method Mount(types: seq<FsType>, device: string, mountPath: string, fsType: string, reallocFails: bool)
      returns (r: int)
      requires Valid() && |mountPath| > 0
      modifies this
      ensures Valid()
      ensures r == -1 <==> FindType(types, fsType).None? || types[FindType(types, fsType).value].mount(device).None?
      ensures r == -1 ==> Snapshot() == old(Snapshot())
      ensures r != -1 ==>
                && r == 0
                && var root := types[FindType(types, fsType).value].mount(device).value;
                   var fs := Filesystem(fsType, root, Covered(VnodeName(mountPath[1..]), Directory));
                   Snapshot() == Add(old(Snapshot()), fs, reallocFails)
    {
      var found: Option<nat> := None;
      var i := 0;
      while i < |types|
        invariant i <= |types|
        invariant forall j :: 0 <= j < i ==> types[j].name != fsType
      {
        if types[i].name == fsType {
          found := Some(i);
          break;
        }
        i := i + 1;
      }
      assert found == FindType(types, fsType);
      if found.None? {
        return -1;
      }
      var root := types[found.value].mount(device);
      if root.None? {
        return -1;
      }
      var fs := Filesystem(fsType, root.value, Covered(VnodeName(mountPath[1..]), Directory));
      AddToMountpoints(fs, reallocFails);
      return 0;
    }

    /** The first scanned cell holding a filesystem covering a vnode called name. */
    method FindNamed(name: string) returns (k: Option<nat>)
      requires Valid()
      ensures k == FirstNamed(cells, currSize, name)
    {
      var i := 0;
      while i < currSize
        invariant i <= currSize
        invariant FirstNamed(cells, i, name).None?
      {
        if cells[i].Holds? && cells[i].fs.covered.name == name {
          return Some(i);
        }
        i := i + 1;
      }
      return None;
    }

    /**
     * vfs_unmount: -1 when nothing is mounted under mountPath without its
     * first character; otherwise the driver's unmount status, and on
     * success the released cell becomes NULL.
     */
    method Unmount(mountPath: string, unmount: Filesystem -> i32) returns (r: i32)
      requires Valid() && |mountPath| > 0
      modifies this
      ensures Valid()
      ensures FirstNamed(old(cells), old(currSize), mountPath[1..]).None? ==> r == -1
      ensures FirstNamed(old(cells), old(currSize), mountPath[1..]).Some? ==>
                r == unmount(old(cells)[FirstNamed(old(cells), old(currSize), mountPath[1..]).value].fs)
      ensures Snapshot() == Unmounted(old(Snapshot()), mountPath[1..], r)
    {
      var k := FindNamed(mountPath[1..]);
      if k.None? {
        return -1;
      }
      r := unmount(cells[k.value].fs);
      if r == 0 {
        cells := cells[k.value := Empty];
      }
    }

    /** vfs_get_mounted: None for a NULL path, else the first filesystem mounted under the path without one leading '/'. */
    method GetMounted(path: Option<string>) returns (r: Option<Filesystem>)
      requires Valid()
      ensures path.None? ==> r.None?
      ensures path.Some? ==>
                match FirstNamed(cells, currSize, SearchName(path.value))
                case None => r.None?
                case Some(k) => r == Some(cells[k].fs)
    {
      if path.None? {
        return None;
      }
      var k := FindNamed(SearchName(path.value));
      if k.None? {
        return None;
      }
      return Some(cells[k.value].fs);
    }

    /** _vfs_resolve_mountpoint on the current table. */
    method ResolveMountpoint(path: Option<string>, relPathSize: nat) returns (root: Option<nat>, relPath: string)
      requires Valid()
      ensures (root, relPath) == Resolve(Snapshot(), path, relPathSize)
    {
      if path.None? || relPathSize == 0 || |path.value| == 0 || path.value[0] != '/' {
        return None, "";
      }
      var token := MountToken(path.value);
      if token.None? {
        return None, "";
      }
      var k := FindNamed(token.value);
      if k.None? {
        return None, "";
      }
      MountTokenInPath(path.value);
      var relStart := path.value[1 + |token.value|..];
      root := Some(cells[k.value].fs.root);
      relPath := Bounded(if relStart == "" then "/" else relStart, relPathSize);
    }

    /** vfs_open: a new handle at offset 0 with the given flags, or None when the path does not resolve or the driver's open fails. */
    method Open(path: Option<string>, flags: Utils.u32, open: (nat, string, Utils.u32) -> Option<nat>)
      returns (file: OpenFile?)
      requires Valid()
      ensures var (root, rel) := Resolve(Snapshot(), path, PathBufSize);
              if root.None? || open(root.value, rel, flags).None? then file == null
              else && file != null && fresh(file)
                   && file.vnode == open(root.value, rel, flags) && file.offset == 0 && file.flags == flags
    {
      var root, rel := ResolveMountpoint(path, PathBufSize);
      if root.None? {
        return null;
      }
      var result := open(root.value, rel, flags);
      if result.None? {
        return null;
      }
      file := new OpenFile(result.value, flags);
    }

    /** vfs_create, vfs_mkdir and vfs_remove: -1 when the path does not resolve or the driver reports an error, otherwise 0. */
    method PathOperation(path: Option<string>, op: (nat, string) -> i32) returns (r: i32)
      requires Valid()
      ensures var (root, rel) := Resolve(Snapshot(), path, PathBufSize);
              r == if root.None? || op(root.value, rel) < 0 then -1 else 0
    {
      var root, rel := ResolveMountpoint(path, PathBufSize);
      if root.None? {
        return -1;
      }
      if op(root.value, rel) < 0 {
        return -1;
      }
      return 0;
    }
  }
}
