/**
 * The FAT12 driver's decoding: 12-bit allocation-table entries, 8.3 file
 * names, cluster-to-sector arithmetic, the volume geometry computed at
 * mount time, the root-directory scan and the offset/size handling of a
 * file read.
 *
 * Strings are the characters of a C string before its terminator. Disk
 * sectors are given as data (the directory entries of the root directory,
 * the bytes of each cluster) rather than read through the block layer.
 */
module Fat12 {
  import opened Wrappers
  import Utils

  type u8 = x: int | 0 <= x < 0x100
  type u16 = x: int | 0 <= x < 0x1_0000
  type i32 = x: int | -0x8000_0000 <= x < 0x8000_0000

  /** Attribute bits of a directory entry. */
  const AttrReadOnly: bv8 := 0x01
  const AttrHidden: bv8 := 0x02
  const AttrSystem: bv8 := 0x04
  const AttrVolumeId: bv8 := 0x08
  const AttrDirectory: bv8 := 0x10
  const AttrArchive: bv8 := 0x20

  const ClusterMask: bv16 := 0xFFF
  /** Entries from here up mark the end of a cluster chain. */
  const EndOfChainMin: nat := 0xFF8
  /** First name byte of a deleted entry. */
  const DeletedMark: char := 0xE5 as char
  /** First name byte of the entry after the last one. */
  const EndOfDirectory: char := 0 as char
  /** The terminator of a C string. */
  const Nul: char := 0 as char
  const EntriesPerSector: nat := 16

  // ---------------------------------------------------------------------
  // Allocation-table entries
  // ---------------------------------------------------------------------

  /**
   * _fat12_get_fentry: the 12-bit entry of a cluster, from the
   * little-endian 16-bit word at byte 3n/2 of the table: the word masked
   * to its low 12 bits for an even cluster, shifted right by 4 for an odd
   * one. On unsigned 16-bit values a right shift by 4 is a division by 16
   * and a mask of the low 12 bits a remainder by 0x1000.
   */
  function FatEntry(fat: seq<u8>, cluster: u16): (e: u16)
    requires 3 * cluster / 2 + 1 < |fat|
    ensures e < 0x1000
  {
    var offset := 3 * cluster / 2;
    var word := fat[offset] as int + 0x100 * fat[offset + 1] as int;
    var entry := if cluster % 2 == 1 then word / 0x10 else word % 0x1000;
    entry % 0x1000
  }

  /** Entry 2k is byte 3k and the low nibble of byte 3k+1. */
  lemma EvenEntry(fat: seq<u8>, k: nat)
    requires 2 * k < 0x1_0000 && 3 * k + 1 < |fat|
    ensures FatEntry(fat, 2 * k) == fat[3 * k] as int + 0x100 * (fat[3 * k + 1] as int % 0x10)
  {
    Utils.DivModUnique(3 * (2 * k), 2, 3 * k, 0);
    Utils.DivModUnique(2 * k, 2, k, 0);
    var b0, b1 := fat[3 * k] as int, fat[3 * k + 1] as int;
    Utils.DivModUnique(b0 + 0x100 * b1, 0x1000, b1 / 0x10, b0 + 0x100 * (b1 % 0x10));
  }

  /** Entry 2k+1 is the high nibble of byte 3k+1 and byte 3k+2. */
  lemma OddEntry(fat: seq<u8>, k: nat)
    requires 2 * k + 1 < 0x1_0000 && 3 * k + 2 < |fat|
    ensures FatEntry(fat, 2 * k + 1) == fat[3 * k + 1] as int / 0x10 + 0x10 * fat[3 * k + 2] as int
  {
    Utils.DivModUnique(3 * (2 * k + 1), 2, 3 * k + 1, 1);
    Utils.DivModUnique(2 * k + 1, 2, k, 1);
    var b1, b2 := fat[3 * k + 1] as int, fat[3 * k + 2] as int;
    Utils.DivModUnique(b1 + 0x100 * b2, 0x10, b1 / 0x10 + 0x10 * b2, b1 % 0x10);
  }

  /**
   * Entries 2k and 2k+1 are read only from bytes 3k, 3k+1 and 3k+2: the
   * even one owns the first byte and the low nibble of the middle byte,
   * the odd one the high nibble of the middle byte and the last byte. So
   * changing any other byte changes neither entry.
   */
  lemma EntryPairOwnsBytes(fat: seq<u8>, fat': seq<u8>, k: nat)
    requires 2 * k + 1 < 0x1_0000 && 3 * k + 2 < |fat| == |fat'|
    requires fat[3 * k] == fat'[3 * k] && fat[3 * k + 1] == fat'[3 * k + 1] && fat[3 * k + 2] == fat'[3 * k + 2]
    ensures FatEntry(fat, 2 * k) == FatEntry(fat', 2 * k) && FatEntry(fat, 2 * k + 1) == FatEntry(fat', 2 * k + 1)
  {
    EvenEntry(fat, k);
    EvenEntry(fat', k);
    OddEntry(fat, k);
    OddEntry(fat', k);
  }

  /** The three bytes that hold entries a (even) and b (odd) of a pair, as the FAT layout packs them. */
  function PackPair(a: u16, b: u16): (r: seq<u8>)
    requires a < 0x1000 && b < 0x1000
    ensures |r| == 3
  {
    [a % 0x100, a / 0x100 + 0x10 * (b % 0x10), b / 0x10]
  }

  /** Reading back a packed pair gives both entries. */
  lemma FatEntryOfPackedPair(prefix: seq<u8>, a: u16, b: u16, suffix: seq<u8>)
    requires a < 0x1000 && b < 0x1000
    requires |prefix| % 3 == 0 && 2 * (|prefix| / 3) + 1 < 0x1_0000
    ensures var fat := prefix + PackPair(a, b) + suffix;
            && FatEntry(fat, 2 * (|prefix| / 3)) == a
            && FatEntry(fat, 2 * (|prefix| / 3) + 1) == b
  {
    var fat := prefix + PackPair(a, b) + suffix;
    var k := |prefix| / 3;
    var m := fat[3 * k + 1] as int;
    assert fat[3 * k] == a % 0x100;
    assert m == a / 0x100 + 0x10 * (b % 0x10);
    assert fat[3 * k + 2] == b / 0x10;
    EvenEntry(fat, k);
    OddEntry(fat, k);
    Utils.DivModUnique(m, 0x10, b % 0x10, a / 0x100);
  }

  // ---------------------------------------------------------------------
  // 8.3 names
  // ---------------------------------------------------------------------

  /** The length of the longest prefix of s, at most max long, without the character c. */
  function PrefixWithout(s: string, c: char, max: nat): (n: nat)
    ensures n <= max && n <= |s|
    ensures forall i :: 0 <= i < n ==> s[i] != c
    ensures n < max && n < |s| ==> s[n] == c
  {
    if max == 0 || |s| == 0 || s[0] == c then 0 else 1 + PrefixWithout(s[1..], c, max - 1)
  }

  /** n spaces. */
  function Spaces(n: nat): (r: string)
    ensures |r| == n && forall i :: 0 <= i < n ==> r[i] == ' '
  {
    seq(n, _ => ' ')
  }

  /** s followed by spaces up to n characters. */
  function Pad(s: string, n: nat): (r: string)
    requires |s| <= n
    ensures |r| == n && r[..|s|] == s
    ensures forall i :: |s| <= i < n ==> r[i] == ' '
  {
    s + Spaces(n - |s|)
  }

  /**
   * The 11 characters _fat12_normal_to_8_3 produces: up to eight
   * characters before the first '.', one '.' skipped, then up to three
   * more; unused positions are spaces.
   */
  function To83(name: string): (r: string)
    ensures |r| == 11
  {
    Pad(name[..PrefixWithout(name, '.', 8)], 8) + Pad(Extension(name), 3)
  }

  /** Where the extension starts: after the base and the '.' that ends it, if any. */
  function ExtensionStart(name: string): (j: nat)
    ensures j <= |name|
  {
    var b := PrefixWithout(name, '.', 8);
    if b < |name| && name[b] == '.' then b + 1 else b
  }

  /** Up to three characters from where the extension starts. */
  function Extension(name: string): (x: string)
    ensures |x| <= 3
  {
    var j := ExtensionStart(name);
    name[j..j + if |name| - j < 3 then |name| - j else 3]
  }

  /**
   * The name _fat12_8_3to_normal produces: the base up to its first space,
   * then, when the extension's first character is not a space, a '.' and
   * the extension up to its first space.
   */
  function From83(fatName: string): (r: string)
    requires |fatName| >= 11
    ensures |r| <= 12
  {
    var b := PrefixWithout(fatName, ' ', 8);
    if fatName[8] == ' ' then fatName[..b]
    else fatName[..b] + "." + fatName[8..8 + PrefixWithout(fatName[8..], ' ', 3)]
  }

  /** A base and extension that 8.3 can hold: short enough, no spaces, no dots. */
  predicate Fits83(base: string, ext: string)
  {
    |base| <= 8 && |ext| <= 3 && ' ' !in base && '.' !in base && ' ' !in ext && '.' !in ext
  }

  /** The usual written form of a name: the base, and a '.' and the extension when there is one. */
  function Dotted(base: string, ext: string): string
  {
    if ext == "" then base else base + "." + ext
  }

  /** Where a prefix of s without c is followed by c, by the end, or by the length limit, the scan stops there. */
  lemma {:induction false} PrefixWithoutOf(s: string, t: string, c: char, max: nat)
    requires |s| <= max && c !in s
    requires |s| < max && |t| > 0 ==> t[0] == c
    ensures PrefixWithout(s + t, c, max) == |s|
  {
    if |s| > 0 {
      assert (s + t)[0] == s[0];
      assert (s + t)[1..] == s[1..] + t;
      PrefixWithoutOf(s[1..], t, c, max - 1);
    }
  }

  /** A dotted name that 8.3 can hold converts to its base and extension, each padded. */
  lemma To83OfDotted(base: string, ext: string)
    requires Fits83(base, ext)
    ensures To83(Dotted(base, ext)) == Pad(base, 8) + Pad(ext, 3)
  {
    var name := Dotted(base, ext);
    if ext == "" {
      PrefixWithoutOf(base, "", '.', 8);
      assert base + "" == base;
    } else {
      assert name == base + ("." + ext);
      PrefixWithoutOf(base, "." + ext, '.', 8);
      assert name[|base| + 1..|base| + 1 + |ext|] == ext;
    }
  }

  /** The scan for a space stops at the end of a space-free s padded to n, whatever follows. */
  lemma PadScan(s: string, n: nat, t: string)
    requires |s| <= n && ' ' !in s
    ensures PrefixWithout(Pad(s, n) + t, ' ', n) == |s|
  {
    assert Pad(s, n) + t == s + (Spaces(n - |s|) + t);
    PrefixWithoutOf(s, Spaces(n - |s|) + t, ' ', n);
  }

  /** Padded base and extension convert back to the dotted name. */
  lemma From83OfPadded(base: string, ext: string)
    requires Fits83(base, ext)
    ensures From83(Pad(base, 8) + Pad(ext, 3)) == Dotted(base, ext)
  {
    var f := Pad(base, 8) + Pad(ext, 3);
    PadScan(base, 8, Pad(ext, 3));
    assert f[..|base|] == base;
    assert f[8..] == Pad(ext, 3);
    if ext != "" {
      PadScan(ext, 3, "");
      assert Pad(ext, 3) + "" == f[8..];
      assert f[8] == ext[0];
      assert f[8..8 + |ext|] == ext;
    } else {
      assert f[8] == ' ';
    }
  }

  /** The two conversions are inverse on the names 8.3 can hold: a name survives conversion to 8.3 and back. */
  lemma From83To83(base: string, ext: string)
    requires Fits83(base, ext)
    ensures From83(To83(Dotted(base, ext))) == Dotted(base, ext)
  {
    To83OfDotted(base, ext);
    From83OfPadded(base, ext);
  }

  /** And conversion from 8.3 and back gives the same 11 characters. */
  lemma To83From83(base: string, ext: string)
    requires Fits83(base, ext)
    ensures To83(From83(Pad(base, 8) + Pad(ext, 3))) == Pad(base, 8) + Pad(ext, 3)
  {
    From83OfPadded(base, ext);
    To83OfDotted(base, ext);
  }

  /**
   * The copying loop both conversions are made of: copies characters of
   * src from position from into dst from position at, stopping after max
   * of them, at the end of src, or before a character in stops; returns
   * how many it copied.
   */
  method CopyUntil(src: string, from: nat, stops: set<char>, max: nat, dst: array<char>, at: nat) returns (k: nat)
    requires from <= |src| && at + max <= dst.Length
    modifies dst
    ensures k <= max && from + k <= |src|
    ensures dst[at..at + k] == src[from..from + k]
    ensures forall m :: from <= m < from + k ==> src[m] !in stops
    ensures k < max && from + k < |src| ==> src[from + k] in stops
    ensures dst[..at] == old(dst[..at]) && dst[at + k..] == old(dst[at + k..])
  {
    k := 0;
    while k < max && from + k < |src| && src[from + k] !in stops
      invariant k <= max && from + k <= |src|
      invariant dst[at..at + k] == src[from..from + k]
      invariant forall m :: from <= m < from + k ==> src[m] !in stops
      invariant dst[..at] == old(dst[..at]) && dst[at + k..] == old(dst[at + k..])
    {
      dst[at + k] := src[from + k];
      k := k + 1;
    }
  }

  /** What CopyUntil copies with one stop character is the prefix PrefixWithout measures. */
  lemma CopiedPrefix(s: string, c: char, max: nat, k: nat)
    requires k <= max && k <= |s|
    requires forall m :: 0 <= m < k ==> s[m] != c
    requires k < max && k < |s| ==> s[k] == c
    ensures k == PrefixWithout(s, c, max)
  {
    assert s == s[..k] + s[k..];
    PrefixWithoutOf(s[..k], s[k..], c, max);
  }

  /** _fat12_normal_to_8_3: fills the first 11 characters of fatName with the 8.3 form of name. */
  method NormalTo83(name: string, fatName: array<char>)
    requires fatName.Length >= 11
    modifies fatName
    ensures fatName[..11] == To83(name)
    ensures fatName[11..] == old(fatName[11..])
  {
    var k := 0;
    while k < 11
      invariant k <= 11
      invariant forall m :: 0 <= m < k ==> fatName[m] == ' '
      invariant fatName[11..] == old(fatName[11..])
    {
      fatName[k] := ' ';
      k := k + 1;
    }
    ghost var blank := fatName[..];
    var b := CopyUntil(name, 0, {'.'}, 8, fatName, 0);
    CopiedPrefix(name, '.', 8, b);
    ghost var based := fatName[..];
    var j := b;
    if j < |name| && name[j] == '.' {
      j := j + 1;
    }
    var e := CopyUntil(name, j, {}, 3, fatName, 8);
    To83Parts(name, b, j, e);
    Fill83(blank, based, fatName[..], name[..b], name[j..j + e]);
  }

  /** The 8.3 form is the padded base and extension the two copying loops find. */
  lemma To83Parts(name: string, b: nat, j: nat, e: nat)
    requires b == PrefixWithout(name, '.', 8)
    requires j == if b < |name| && name[b] == '.' then b + 1 else b
    requires e <= 3 && j + e <= |name| && (e < 3 ==> j + e == |name|)
    ensures To83(name) == Pad(name[..b], 8) + Pad(name[j..j + e], 3)
  {
    ExtensionIs(name, j, e);
  }

  /** The three-character window NormalTo83's second loop copies is the extension. */
  lemma ExtensionIs(name: string, j: nat, e: nat)
    requires j == ExtensionStart(name)
    requires e <= 3 && j + e <= |name| && (e < 3 ==> j + e == |name|)
    ensures name[j..j + e] == Extension(name)
  {
    assert e == if |name| - j < 3 then |name| - j else 3;
  }

  /** Eleven spaces, overwritten first by the base from position 0 and then by the extension from position 8, are the padded base and extension. */
  lemma Fill83(blank: string, based: string, filled: string, base: string, ext: string)
    requires |blank| == |based| == |filled| >= 11 && |base| <= 8 && |ext| <= 3
    requires forall m :: 0 <= m < 11 ==> blank[m] == ' '
    requires based[..|base|] == base && based[|base|..] == blank[|base|..]
    requires filled[..8] == based[..8] && filled[8..8 + |ext|] == ext && filled[8 + |ext|..] == based[8 + |ext|..]
    ensures filled[..11] == Pad(base, 8) + Pad(ext, 3)
    ensures filled[11..] == blank[11..]
  {
    assert forall m :: |base| <= m < |blank| ==> based[m] == based[|base|..][m - |base|];
    assert forall m :: 8 + |ext| <= m < |blank| ==> filled[m] == filled[8 + |ext|..][m - 8 - |ext|];
    assert filled[..8] == Pad(base, 8);
    assert forall m :: 8 + |ext| <= m < 11 ==> filled[m] == ' ';
    assert filled[8..11] == Pad(ext, 3);
    assert filled[..11] == filled[..8] + filled[8..11];
  }

  /** _fat12_8_3to_normal: writes the usual form of an 11-character 8.3 name, and its terminator, to the start of output. */
  method Normal(fatName: string, output: array<char>) returns (n: nat)
    requires |fatName| >= 11 && output.Length >= 13
    modifies output
    ensures n == |From83(fatName)| && output[..n] == From83(fatName) && output[n] == Nul
    ensures output[n + 1..] == old(output[n + 1..])
  {
    ghost var original := output[..];
    var b := CopyUntil(fatName, 0, {' '}, 8, output, 0);
    CopiedPrefix(fatName, ' ', 8, b);
    n := b;
    if fatName[8] != ' ' {
      PutChar(output, b, '.', original);
      ghost var dotted := output[..];
      var e := CopyUntil(fatName, 8, {' '}, 3, output, b + 1);
      CopiedPrefix(fatName[8..], ' ', 3, e);
      n := b + 1 + e;
      Joined(dotted, output[..], fatName[..b], fatName[8..8 + e]);
      SuffixKept(original, dotted, b + 1, n);
    }
    assert output[..n] == From83(fatName);
    PutChar(output, n, Nul, original);
  }

  /** Writes c at position at of dst, where dst still holds its original contents from at on. */
  method PutChar(dst: array<char>, at: nat, c: char, ghost original: seq<char>)
    requires at < dst.Length == |original| && dst[at..] == original[at..]
    modifies dst
    ensures dst[..at] == old(dst[..at]) && dst[at] == c && dst[at + 1..] == original[at + 1..]
  {
    ghost var before := dst[..];
    dst[at] := c;
    SuffixAfterWrite(before, at, c);
    SuffixKept(original, before, at, at + 1);
  }

  /** Writing position i of a sequence leaves what follows it alone. */
  lemma SuffixAfterWrite<T>(s: seq<T>, i: nat, c: T)
    requires i < |s|
    ensures s[i := c][i + 1..] == s[i + 1..] && s[i := c][..i] == s[..i]
  {
  }

  /** Sequences that agree from i on agree from any later j on. */
  lemma SuffixKept<T>(a: seq<T>, b: seq<T>, i: nat, j: nat)
    requires i <= j <= |a| == |b| && a[i..] == b[i..]
    ensures a[j..] == b[j..]
  {
    assert forall m :: j <= m < |a| ==> a[m] == a[i..][m - i] && b[m] == b[i..][m - i];
  }

  /** A base followed by '.', then the extension written after it, is the dotted name. */
  lemma Joined(dotted: string, out: string, base: string, ext: string)
    requires |dotted| == |out| > |base| + |ext|
    requires dotted[..|base|] == base && dotted[|base|] == '.'
    requires out[..|base| + 1] == dotted[..|base| + 1] && out[|base| + 1..|base| + 1 + |ext|] == ext
    ensures out[..|base| + 1 + |ext|] == base + "." + ext
  {
    assert out[..|base| + 1] == base + ".";
    assert out[..|base| + 1 + |ext|] == out[..|base| + 1] + out[|base| + 1..|base| + 1 + |ext|];
  }

  // ---------------------------------------------------------------------
  // Clusters and volume geometry
  // ---------------------------------------------------------------------

  /**
   * _fat12_cluster_to_lba: 0 for the reserved clusters 0 and 1, otherwise
   * the data area's first sector plus sectorsPerCluster sectors for each
   * cluster after cluster 2, in 32-bit arithmetic.
   */
  function ClusterToLba(dataAreaStart: Utils.u32, sectorsPerCluster: u8, cluster: u16): (lba: Utils.u32)
    ensures cluster < 2 ==> lba == 0
  {
    if cluster < 2 then 0 else (dataAreaStart + (cluster - 2) * sectorsPerCluster) % Utils.WordModulus
  }

  /** Without wrap-around, clusters map to disjoint runs of sectorsPerCluster sectors in cluster order, and the cluster is recovered from its first sector. */
  lemma ClusterToLbaRuns(dataAreaStart: Utils.u32, sectorsPerCluster: u8, cluster: u16)
    requires cluster >= 2 && sectorsPerCluster > 0
    requires dataAreaStart + (cluster - 1) * sectorsPerCluster < Utils.WordModulus
    ensures var lba := ClusterToLba(dataAreaStart, sectorsPerCluster, cluster);
            && lba == dataAreaStart + (cluster - 2) * sectorsPerCluster
            && (cluster + 1 < 0x1_0000 ==> ClusterToLba(dataAreaStart, sectorsPerCluster, cluster + 1) == lba + sectorsPerCluster)
            && (lba - dataAreaStart) / sectorsPerCluster + 2 == cluster
            && (lba - dataAreaStart) % sectorsPerCluster == 0
  {
    var lba := dataAreaStart + (cluster - 2) * sectorsPerCluster;
    assert (cluster - 1) * sectorsPerCluster == (cluster - 2) * sectorsPerCluster + sectorsPerCluster;
    Utils.DivModUnique((cluster - 2) * sectorsPerCluster, sectorsPerCluster, cluster - 2, 0);
  }

  /** The BIOS parameter block fields the driver uses. */
  datatype Bpb = Bpb(
    bytesPerSector: u16,
    sectorsPerCluster: u8,
    reservedSectors: u16,
    numFats: u8,
    maxRootDirEntries: u16,
    sectorsPerFat: u16,
    hiddenSectors: Utils.u32)

  /** The first sectors of the FAT, the root directory and the data area, and the root directory's length in sectors. */
  datatype Geometry = Geometry(fatStart: nat, rootDirStart: nat, rootDirSectors: nat, dataAreaStart: nat)

  /** The little-endian 16-bit field at byte i. */
  function Le16(b: seq<u8>, i: nat): (v: u16)
    requires i + 1 < |b|
  {
    b[i] as int + 0x100 * b[i + 1] as int
  }

  /** The little-endian 32-bit field at byte i. */
  function Le32(b: seq<u8>, i: nat): (v: Utils.u32)
    requires i + 3 < |b|
  {
    Le16(b, i) + 0x1_0000 * Le16(b, i + 2)
  }

  /** The packed BIOS parameter block at the start of the boot sector. */
  function ParseBpb(boot: seq<u8>): (b: Bpb)
    requires |boot| >= 36
  {
    Bpb(Le16(boot, 11), boot[13], Le16(boot, 14), boot[16], Le16(boot, 17), Le16(boot, 22), Le32(boot, 28))
  }

  function Le16Bytes(v: u16): (r: seq<u8>)
    ensures |r| == 2 && Le16(r, 0) == v
  {
    [v % 0x100, v / 0x100]
  }

  function Le32Bytes(v: Utils.u32): (r: seq<u8>)
    ensures |r| == 4 && Le32(r, 0) == v
  {
    var r := Le16Bytes(v % 0x1_0000) + Le16Bytes(v / 0x1_0000);
    assert Le16(r, 2) == v / 0x1_0000;
    r
  }

  /** A boot sector carrying the given parameter block, other fields zero. */
  function BootSector(b: Bpb): (boot: seq<u8>)
    ensures |boot| == 36
  {
    seq(11, _ => 0) + Le16Bytes(b.bytesPerSector) + [b.sectorsPerCluster] + Le16Bytes(b.reservedSectors)
    + [b.numFats] + Le16Bytes(b.maxRootDirEntries) + [0, 0, 0] + Le16Bytes(b.sectorsPerFat)
    + [0, 0, 0, 0] + Le32Bytes(b.hiddenSectors) + [0, 0, 0, 0]
  }

  /** Each field is read back from the offset it is laid out at. */
  lemma ParseBootSector(b: Bpb)
    ensures ParseBpb(BootSector(b)) == b
  {
    var boot := BootSector(b);
    assert boot[11..13] == Le16Bytes(b.bytesPerSector);
    assert boot[14..16] == Le16Bytes(b.reservedSectors);
    assert boot[17..19] == Le16Bytes(b.maxRootDirEntries);
    assert boot[22..24] == Le16Bytes(b.sectorsPerFat);
    assert boot[28..32] == Le32Bytes(b.hiddenSectors);
    assert Le32(boot, 28) == Le32(boot[28..32], 0);
  }

  /** The quotient rounded up: the fewest units of size d that hold n. */
  lemma CeilDiv(n: nat, d: nat)
    requires d > 0
    ensures var q := (n + d - 1) / d;
            && q * d >= n && (q > 0 ==> (q - 1) * d < n) && q <= n
  {
    var q := (n + d - 1) / d;
    var r := (n + d - 1) % d;
    assert q * d + r == n + d - 1;
    if q > 0 {
      assert (q - 1) * d == q * d - d;
      Utils.MulMonotone(1, d, q - 1);
    }
  }

  /**
   * The geometry fat12_mount computes, as written: the partition offset
   * goes through an 8-bit variable, and the root directory's sector count
   * is rounded down. Directory entries are 32 bytes.
   */
  function GeometryAsWritten(b: Bpb): (g: Geometry)
    requires b.bytesPerSector > 0
    ensures g.rootDirStart == g.fatStart + b.numFats * b.sectorsPerFat
    ensures g.dataAreaStart == g.rootDirStart + g.rootDirSectors
  {
    var lbaBegin := b.hiddenSectors % 0x100;
    var fatStart := lbaBegin + b.reservedSectors;
    var rootDirStart := fatStart + b.numFats * b.sectorsPerFat;
    var rootDirSectors := (b.maxRootDirEntries * 32) / b.bytesPerSector;
    Geometry(fatStart, rootDirStart, rootDirSectors, rootDirStart + rootDirSectors)
  }

  /**
   * The geometry with the partition offset kept at 32 bits and the root
   * directory's sector count rounded up, as the FAT layout requires, in
   * the driver's 32-bit arithmetic.
   */
  function MountGeometry(b: Bpb): (g: Geometry)
    requires b.bytesPerSector > 0
    ensures g.fatStart < Utils.WordModulus && g.rootDirStart < Utils.WordModulus && g.dataAreaStart < Utils.WordModulus
  {
    var fatStart := (b.hiddenSectors + b.reservedSectors) % Utils.WordModulus;
    var rootDirStart := (fatStart + b.numFats * b.sectorsPerFat) % Utils.WordModulus;
    var rootDirSectors := (b.maxRootDirEntries * 32 + b.bytesPerSector - 1) / b.bytesPerSector;
    Geometry(fatStart, rootDirStart, rootDirSectors, (rootDirStart + rootDirSectors) % Utils.WordModulus)
  }

  /**
   * Without 32-bit wrap-around, the reserved sectors, the FATs, the root
   * directory and the data area follow each other from the partition's
   * first sector.
   */
  lemma GeometryLayout(b: Bpb)
    requires b.bytesPerSector > 0
    requires b.hiddenSectors + b.reservedSectors + b.numFats * b.sectorsPerFat + b.maxRootDirEntries * 32 < Utils.WordModulus
    ensures var g := MountGeometry(b);
            && g.fatStart == b.hiddenSectors + b.reservedSectors
            && g.rootDirStart == g.fatStart + b.numFats * b.sectorsPerFat
            && g.dataAreaStart == g.rootDirStart + g.rootDirSectors
  {
    var bytes := b.maxRootDirEntries * 32;
    CeilDiv(bytes, b.bytesPerSector);
    SumsNoWrap(b.hiddenSectors + b.reservedSectors, b.numFats * b.sectorsPerFat,
               (bytes + b.bytesPerSector - 1) / b.bytesPerSector);
  }

  /** Three running sums below 2^32 are their own 32-bit truncations. */
  lemma SumsNoWrap(x: nat, y: nat, z: nat)
    requires x + y + z < Utils.WordModulus
    ensures x % Utils.WordModulus == x
    ensures (x % Utils.WordModulus + y) % Utils.WordModulus == x + y
    ensures ((x % Utils.WordModulus + y) % Utils.WordModulus + z) % Utils.WordModulus == x + y + z
  {
    NoWrap(x);
    NoWrap(x + y);
    NoWrap(x + y + z);
  }

  /** The root directory's sectors are the fewest that hold all its 32-byte entries. */
  lemma RootDirHoldsEntries(b: Bpb)
    requires b.bytesPerSector > 0
    ensures var n := MountGeometry(b).rootDirSectors;
            && n * b.bytesPerSector >= b.maxRootDirEntries * 32
            && (n > 0 ==> (n - 1) * b.bytesPerSector < b.maxRootDirEntries * 32)
  {
    CeilDiv(b.maxRootDirEntries * 32, b.bytesPerSector);
  }

  /** A value below 2^32 is its own 32-bit truncation. */
  lemma NoWrap(x: int)
    requires 0 <= x < Utils.WordModulus
    ensures x % Utils.WordModulus == x
  {
    Utils.DivModUnique(x, Utils.WordModulus, 0, x);
  }

  /** As written, 17 root entries of 512-byte sectors (544 bytes) get one sector, so the data area starts inside the root directory. */
  lemma RootDirRoundsDown()
    ensures var b := Bpb(512, 1, 1, 2, 17, 9, 0);
            && GeometryAsWritten(b).rootDirSectors == 1
            && GeometryAsWritten(b).rootDirSectors * 512 < 17 * 32
            && MountGeometry(b).rootDirSectors == 2
  {
  }

  /** As written, a partition starting at sector 256 has its FAT looked for at the reserved-sector count from sector 0. */
  lemma PartitionOffsetTruncated()
    ensures var b := Bpb(512, 1, 1, 2, 224, 9, 256);
            && GeometryAsWritten(b).fatStart == 1
            && MountGeometry(b).fatStart == 257
  {
  }

  // ---------------------------------------------------------------------
  // Root directory lookup
  // ---------------------------------------------------------------------

  /** A 32-byte directory entry: its 8+3 name, attributes, first cluster and size. */
  datatype DirEntry = DirEntry(name: string, attributes: bv8, firstCluster: u16, fileSize: Utils.u32)

  /** The entry is in use and not a volume label. */
  predicate Live(e: DirEntry)
  {
    |e.name| > 0 && e.name[0] != EndOfDirectory && e.name[0] != DeletedMark && e.attributes & AttrVolumeId == 0
  }

  /** The entry marks the end of the directory: an empty name or one starting with the end marker. */
  predicate Ends(e: DirEntry)
  {
    |e.name| == 0 || e.name[0] == EndOfDirectory
  }

  /** The entry is live and carries the 11-character name looked for. */
  predicate Hit(e: DirEntry, fatName: string)
  {
    Live(e) && e.name == fatName
  }

  /** Some entry from position k on, before position j, marks the end of the directory. */
  predicate EndedBefore(dir: seq<DirEntry>, k: nat, j: nat)
    requires j <= |dir|
  {
    exists m :: k <= m < j && Ends(dir[m])
  }

  /** The position _fat12_lookup stops at from position k: a live entry whose name is fatName, or None at the end marker or the end of the sectors. */
  function ScanFrom(dir: seq<DirEntry>, fatName: string, k: nat): (r: Option<nat>)
    requires k <= |dir|
    ensures r.Some? ==> k <= r.value < |dir| && Hit(dir[r.value], fatName)
    ensures r.Some? ==> forall j :: k <= j < r.value ==> !Ends(dir[j])
    ensures r.Some? ==> forall j :: k <= j < r.value ==> !Hit(dir[j], fatName)
    decreases |dir| - k
  {
    if k == |dir| then None
    else if Ends(dir[k]) then None
    else if Hit(dir[k], fatName) then Some(k)
    else ScanFrom(dir, fatName, k + 1)
  }

  /** An entry that neither ends the directory nor matches passes the scan on to the next one. */
  lemma ScanSkips(dir: seq<DirEntry>, fatName: string, k: nat)
    requires k < |dir| && !Ends(dir[k])
    requires !Hit(dir[k], fatName)
    ensures ScanFrom(dir, fatName, k) == ScanFrom(dir, fatName, k + 1)
  {
  }

  /**
   * The scan finds nothing exactly when every live entry named fatName
   * lies after an end marker: with ScanFrom's own contract, a matching
   * entry before the end of the directory is always found.
   */
  lemma {:induction false} ScanFromNotFound(dir: seq<DirEntry>, fatName: string, k: nat)
    requires k <= |dir|
    ensures ScanFrom(dir, fatName, k).None? <==>
              forall j :: k <= j < |dir| && Hit(dir[j], fatName) ==> EndedBefore(dir, k, j)
    decreases |dir| - k
  {
    if k < |dir| && !Ends(dir[k]) && !Hit(dir[k], fatName) {
      ScanFromNotFound(dir, fatName, k + 1);
      forall j | k < j < |dir| && Hit(dir[j], fatName) && EndedBefore(dir, k + 1, j)
        ensures EndedBefore(dir, k, j)
      {
        var m :| k + 1 <= m < j && Ends(dir[m]);
      }
      forall j | k < j < |dir| && Hit(dir[j], fatName) && EndedBefore(dir, k, j)
        ensures EndedBefore(dir, k + 1, j)
      {
        var m :| k <= m < j && Ends(dir[m]);
        assert m != k;
      }
    } else if k < |dir| && Ends(dir[k]) {
      forall j | k < j < |dir|
        ensures EndedBefore(dir, k, j)
      {
        assert Ends(dir[k]);
      }
    }
  }

  /** The path after its leading '/' characters. */
  function SkipSlashes(path: string): (r: string)
    ensures r <= path || (|r| < |path| && r == path[|path| - |r|..])
    ensures |r| > 0 ==> r[0] != '/'
  {
    if |path| > 0 && path[0] == '/' then SkipSlashes(path[1..]) else path
  }

  /** What _fat12_lookup finds: the entry, the sector that holds it and its index in that sector. */
  datatype Found = Found(entry: DirEntry, sector: nat, offset: nat)

  /**
   * _fat12_lookup: None unless the directory is the root ("/"); otherwise
   * the first live entry, before the end marker, whose 11-character name
   * is the 8.3 form of name without its leading slashes. The root
   * directory is given as the 16 entries of each of its sectors in order.
   */
  method Lookup(dirName: string, name: string, dir: seq<DirEntry>, rootDirStart: nat, rootDirSectors: nat)
    returns (found: Option<Found>)
    requires |dir| == 16 * rootDirSectors
    ensures dirName != "/" ==> found.None?
    ensures dirName == "/" ==>
              match ScanFrom(dir, To83(SkipSlashes(name)), 0)
              case None => found.None?
              case Some(k) => found == Some(Found(dir[k], rootDirStart + k / EntriesPerSector, k % EntriesPerSector))
  {
    if dirName != "/" {
      return None;
    }
    var fatName := To83(SkipSlashes(name));
    var s := 0;
    while s < rootDirSectors
      invariant s <= rootDirSectors
      invariant ScanFrom(dir, fatName, 0) == ScanFrom(dir, fatName, 16 * s)
    {
      var sector := rootDirStart + s;
      var i := 0;
      while i < 16
        invariant i <= 16
        invariant ScanFrom(dir, fatName, 0) == ScanFrom(dir, fatName, 16 * s + i)
      {
        var k := 16 * s + i;
        var e := dir[k];
        if Ends(e) {
          return None;
        }
        if Hit(e, fatName) {
          Utils.DivModUnique(k, EntriesPerSector, s, i);
          return Some(Found(e, sector, i));
        }
        ScanSkips(dir, fatName, k);
        i := i + 1;
      }
      s := s + 1;
    }
    return None;
  }

  // ---------------------------------------------------------------------
  // Reading a file
  // ---------------------------------------------------------------------

  /** The (int32_t) conversion of a 32-bit count. */
  function AsI32(x: Utils.u32): (r: i32)
    ensures r == x || r == x - Utils.WordModulus
    ensures r >= 0 <==> x < 0x8000_0000
  {
    if x < 0x8000_0000 then x else x - Utils.WordModulus
  }

  /**
   * The count fat12_read settles on, as written: the request is cut at the
   * end of the file only when offs + size, in 32-bit arithmetic, passes it.
   */
  function ReadCountAsWritten(fileSize: Utils.u32, offs: Utils.u32, size: Utils.u32): (n: Utils.u32)
    ensures offs >= fileSize ==> n == 0
  {
    if offs >= fileSize then 0
    else if (offs + size) % Utils.WordModulus > fileSize then fileSize - offs
    else size
  }

  /** The count a read at offs of size bytes should give: none at or past the end of the file, otherwise the request cut at the end of the file. */
  function ReadCount(fileSize: Utils.u32, offs: Utils.u32, size: Utils.u32): (n: Utils.u32)
    ensures offs >= fileSize ==> n == 0
    ensures offs < fileSize ==> n <= size && offs + n <= fileSize && (n == size || offs + n == fileSize)
  {
    if offs >= fileSize then 0 else if offs + size > fileSize then fileSize - offs else size
  }

  /** When offs + size does not wrap, the code as written cuts the request where it should. */
  lemma ReadCountWithoutWrap(fileSize: Utils.u32, offs: Utils.u32, size: Utils.u32)
    requires offs + size < Utils.WordModulus
    ensures ReadCountAsWritten(fileSize, offs, size) == ReadCount(fileSize, offs, size)
  {
  }

  /** A request so large that offs + size wraps past 2^32 is not cut: 0xFFFFFFF8 bytes at offset 10 of a 100-byte file are reported, and copied, instead of 90. */
  lemma ReadCountWraps()
    ensures ReadCountAsWritten(100, 10, 0xFFFF_FFF8) == 0xFFFF_FFF8
    ensures ReadCount(100, 10, 0xFFFF_FFF8) == 90
    ensures 10 + ReadCountAsWritten(100, 10, 0xFFFF_FFF8) > 100
  {
  }

  /** clusters_to_read: the clusters that bytes oic .. oic + count of a cluster-aligned run touch. */
  function ClustersToRead(oic: nat, count: nat, bpc: nat): nat
    requires bpc > 0
  {
    (oic + count) / bpc + (if (oic + count) % bpc != 0 then 1 else 0)
  }

  /**
   * How a read of count bytes from offs is cut into clusters: bytes per
   * cluster, the offset in the first cluster (offset_in_cluster), the
   * clusters to read, and where the copy from the last one ends
   * ((offs + count) mod bpc, or a whole cluster when that is 0).
   */
  datatype Plan = Plan(bpc: nat, oic: nat, toRead: nat, lastEnd: nat)

  function ReadPlan(offs: nat, count: nat, bpc: nat): (p: Plan)
    requires bpc > 0
    ensures p.bpc == bpc && p.oic < bpc
    ensures count > 0 ==> Sound(p) && (p.toRead - 1) * bpc + p.lastEnd == p.oic + count
  {
    var lastEnd := if (offs + count) % bpc != 0 then (offs + count) % bpc else bpc;
    var toRead := ClustersToRead(offs % bpc, count, bpc);
    if count > 0 then
      EndInCluster(offs, count, bpc);
      CeilShape(offs % bpc + count, bpc);
      assert toRead == ClustersToRead(offs % bpc + count, 0, bpc);
      Plan(bpc, offs % bpc, toRead, lastEnd)
    else
      Plan(bpc, offs % bpc, toRead, lastEnd)
  }

  /** A plan whose every span is a non-empty piece of one cluster. */
  predicate Sound(p: Plan)
  {
    p.bpc > 0 && p.toRead >= 1 && p.oic < p.bpc && 0 < p.lastEnd <= p.bpc && (p.toRead == 1 ==> p.oic < p.lastEnd)
  }

  /** copy_start: the offset in the first cluster for the first cluster read, 0 for the others. */
  function CopyStart(p: Plan, i: nat): nat
  {
    if i == 0 then p.oic else 0
  }

  /** copy_end: lastEnd for the last cluster read, a whole cluster for the others. */
  function CopyEnd(p: Plan, i: nat): nat
  {
    if i + 1 == p.toRead then p.lastEnd else p.bpc
  }

  lemma SoundSpans(p: Plan, i: nat)
    requires Sound(p) && i < p.toRead
    ensures CopyStart(p, i) < CopyEnd(p, i) <= p.bpc
  {
  }

  /** Rounding x > 0 bytes up to whole clusters: the clusters before the last are full, and the last holds 1 to bpc bytes. */
  lemma CeilShape(x: nat, bpc: nat)
    requires bpc > 0 && x > 0
    ensures var toRead := ClustersToRead(x, 0, bpc);
            && toRead >= 1
            && (toRead - 1) * bpc + (if x % bpc != 0 then x % bpc else bpc) == x
  {
    var q, r := x / bpc, x % bpc;
    assert x == q * bpc + r;
    if r == 0 {
      assert (q - 1) * bpc + bpc == q * bpc;
    }
  }

  /** offs and its offset in its cluster end at the same place in a cluster. */
  lemma EndInCluster(offs: nat, count: nat, bpc: nat)
    requires bpc > 0
    ensures (offs + count) % bpc == (offs % bpc + count) % bpc
  {
    var oic := offs % bpc;
    var a := offs / bpc;
    var x := oic + count;
    var q, r := x / bpc, x % bpc;
    assert offs + count == (a + q) * bpc + r by {
      assert offs == a * bpc + oic;
      assert x == q * bpc + r;
      assert (a + q) * bpc == a * bpc + q * bpc;
    }
    Utils.DivModUnique(offs + count, bpc, a + q, r);
  }

  /** The sum of the spans copy_end - copy_start of reads i .. toRead - 1. */
  function SpanSum(p: Plan, i: nat): int
    decreases p.toRead - i
  {
    if i >= p.toRead then 0 else CopyEnd(p, i) - CopyStart(p, i) + SpanSum(p, i + 1)
  }

  /** The spans of the clusters after the first: whole clusters, then the last one's lastEnd bytes. */
  lemma {:induction false} SpanSumTail(p: Plan, i: nat)
    requires 1 <= i <= p.toRead
    ensures SpanSum(p, i) == if i == p.toRead then 0 else (p.toRead - 1 - i) * p.bpc + p.lastEnd
    decreases p.toRead - i
  {
    if i < p.toRead {
      SpanSumTail(p, i + 1);
      if i + 1 < p.toRead {
        assert (p.toRead - 1 - i) * p.bpc == (p.toRead - 1 - (i + 1)) * p.bpc + p.bpc;
      }
    }
  }

  /** The per-cluster spans of a read add up to the count it reports. */
  lemma SpansCoverRead(offs: nat, count: nat, bpc: nat)
    requires bpc > 0 && count > 0
    ensures Sound(ReadPlan(offs, count, bpc)) && SpanSum(ReadPlan(offs, count, bpc), 0) == count
  {
    var p := ReadPlan(offs, count, bpc);
    SpanSumTail(p, 1);
    if p.toRead > 1 {
      assert (p.toRead - 1) * bpc == (p.toRead - 2) * bpc + bpc;
    }
  }

  /** A file within the 4096 clusters FAT12 numbers needs fewer clusters to read than clusters_to_read, a 16-bit count, can hold. */
  lemma ReadFits(offs: nat, count: nat, fileSize: nat, bpc: nat)
    requires bpc > 0 && count > 0 && offs + count <= fileSize <= 0x1000 * bpc
    ensures ReadPlan(offs, count, bpc).toRead < 0x1_0000
  {
    var toRead := ReadPlan(offs, count, bpc).toRead;
    assert (toRead - 1) * bpc < 0x1000 * bpc;
    if toRead - 1 >= 0x1000 {
      Utils.MulMonotone(0x1000, toRead - 1, bpc);
    }
  }

  /** The mounted volume a read works on: the FAT, the disk's sectors, and the geometry. */
  datatype Volume = Volume(fat: seq<u8>, sector: nat -> seq<bv8>, dataAreaStart: Utils.u32, sectorsPerCluster: u8, bytesPerSector: u16)

  function BytesPerCluster(v: Volume): nat
  {
    v.sectorsPerCluster * v.bytesPerSector
  }

  /**
   * A volume a read can work on: a non-empty cluster size, sectors of
   * bytesPerSector bytes, a FAT that covers every 16-bit cluster number,
   * and a read buffer (malloc'd, so of unknown contents) of one cluster.
   */
  ghost predicate Readable(v: Volume, stale: seq<bv8>)
  {
    && v.sectorsPerCluster > 0 && v.bytesPerSector > 0
    && |stale| == BytesPerCluster(v) && v.bytesPerSector <= |stale|
    && (forall lba :: |v.sector(lba)| == v.bytesPerSector)
    && |v.fat| >= 3 * 0xFFFF / 2 + 2
  }

  lemma SectorFitsCluster(v: Volume)
    requires v.sectorsPerCluster > 0
    ensures v.bytesPerSector <= BytesPerCluster(v)
  {
    Utils.MulMonotone(1, v.sectorsPerCluster, v.bytesPerSector);
  }

  /** The read buffer after blkread of the cluster's first sector: that sector, then what the buffer held before. */
  function ClusterBuffer(v: Volume, stale: seq<bv8>, cluster: u16): (b: seq<bv8>)
    requires Readable(v, stale)
    ensures |b| == BytesPerCluster(v)
    ensures b[..v.bytesPerSector] == v.sector(ClusterToLba(v.dataAreaStart, v.sectorsPerCluster, cluster))
  {
    SectorFitsCluster(v);
    v.sector(ClusterToLba(v.dataAreaStart, v.sectorsPerCluster, cluster)) + stale[v.bytesPerSector..]
  }

  /** A read under way: the volume, what the read buffer held before it, and the plan. */
  datatype Reader = Reader(v: Volume, stale: seq<bv8>, p: Plan)

  /** A readable volume and a sound plan whose clusters are the volume's. */
  ghost predicate Fits(r: Reader)
  {
    Readable(r.v, r.stale) && Sound(r.p) && r.p.bpc == BytesPerCluster(r.v)
  }

  type FitReader = r: Reader | Fits(r)
    ghost witness Reader(Volume(seq(0x18000, _ => 0), _ => [0], 0, 1, 1), [0], Plan(1, 0, 1, 1))

  /**
   * The bytes the read loop copies from read i on, at cluster: each
   * cluster's span, then the next cluster in the chain, stopping after
   * an end-of-chain cluster.
   */
  function Copied(r: FitReader, cluster: u16, i: nat): (data: seq<bv8>)
    decreases r.p.toRead - i
  {
    if i >= r.p.toRead then []
    else
      var span := ClusterBuffer(r.v, r.stale, cluster)[CopyStart(r.p, i)..CopyEnd(r.p, i)];
      if cluster >= EndOfChainMin then span
      else span + Copied(r, FatEntry(r.v.fat, cluster), i + 1)
  }

  /** The chain from cluster has n more links before any end-of-chain cluster. */
  predicate Linked(v: Volume, cluster: u16, n: nat)
    requires |v.fat| >= 3 * 0xFFFF / 2 + 2
    decreases n
  {
    n == 0 || (cluster < EndOfChainMin && Linked(v, FatEntry(v.fat, cluster), n - 1))
  }

  /** The loop copies at most the spans it plans, and all of them when the chain is long enough. */
  lemma {:induction false} CopiedLength(r: FitReader, cluster: u16, i: nat)
    ensures |Copied(r, cluster, i)| <= SpanSum(r.p, i)
    ensures i < r.p.toRead && Linked(r.v, cluster, r.p.toRead - 1 - i) ==> |Copied(r, cluster, i)| == SpanSum(r.p, i)
    decreases r.p.toRead - i
  {
    if i < r.p.toRead {
      SoundSpans(r.p, i);
      if i + 1 < r.p.toRead {
        CopiedLength(r, FatEntry(r.v.fat, cluster), i + 1);
        SpanSumTail(r.p, i + 1);
      }
    }
  }

  /** A read copies no more than the count it reports, and exactly that many bytes when the chain from its first cluster is long enough. */
  lemma CopiedCount(v: Volume, stale: seq<bv8>, offs: nat, count: nat, cluster: u16)
    requires Readable(v, stale) && count > 0
    ensures Fits(Reader(v, stale, ReadPlan(offs, count, BytesPerCluster(v))))
    ensures |Copied(Reader(v, stale, ReadPlan(offs, count, BytesPerCluster(v))), cluster, 0)| <= count
    ensures Linked(v, cluster, ReadPlan(offs, count, BytesPerCluster(v)).toRead - 1)
            ==> |Copied(Reader(v, stale, ReadPlan(offs, count, BytesPerCluster(v))), cluster, 0)| == count
  {
    SpansCoverRead(offs, count, BytesPerCluster(v));
    CopiedLength(Reader(v, stale, ReadPlan(offs, count, BytesPerCluster(v))), cluster, 0);
  }

  /** memcpy of src into dst at position at. */
  method CopyInto(dst: array<bv8>, at: nat, src: seq<bv8>)
    requires at + |src| <= dst.Length
    modifies dst
    ensures dst[..at] == old(dst[..at]) && dst[at..at + |src|] == src && dst[at + |src|..] == old(dst[at + |src|..])
    ensures dst[..at + |src|] == old(dst[..at]) + src
  {
    var k := 0;
    while k < |src|
      invariant k <= |src|
      invariant dst[..at] == old(dst[..at]) && dst[at..at + k] == src[..k] && dst[at + k..] == old(dst[at + k..])
    {
      dst[at + k] := src[k];
      k := k + 1;
    }
    assert dst[..at + |src|] == dst[..at] + dst[at..at + |src|];
  }

  /**
   * The cluster loop of fat12_read: from cluster start, read each
   * cluster, copy its span after the bytes read so far, and follow the
   * chain, stopping after toRead clusters or after an end-of-chain
   * cluster.
   */
  method ReadClusters(r: FitReader, start: u16, buf: array<bv8>) returns (bytesRead: nat)
    requires r.p.toRead < 0x1_0000 && |Copied(r, start, 0)| <= buf.Length
    modifies buf
    ensures bytesRead == |Copied(r, start, 0)|
    ensures buf[..bytesRead] == Copied(r, start, 0) && buf[bytesRead..] == old(buf[bytesRead..])
  {
    ghost var done: seq<bv8> := [];
    ghost var rest := Copied(r, start, 0);
    ghost var original := buf[..];
    NothingDone(rest);
    var count := 0;
    bytesRead := 0;
    var curr: u16 := start;
    while count < r.p.toRead
      invariant count <= r.p.toRead && bytesRead == |done| && rest == Copied(r, curr, count)
      invariant Copied(r, start, 0) == done + rest
      invariant Progress(buf[..], done, original)
      decreases r.p.toRead - count
    {
      var fentry, copied, span;
      ghost var next;
      fentry, copied, span, next := ReadCluster(r, curr, count, buf, bytesRead, done, rest, original);
      bytesRead := bytesRead + copied;
      count := count + 1;
      done, rest := done + span, next;
      if curr >= EndOfChainMin {
        break;
      }
      curr := fentry;
    }
    AllDone(Copied(r, start, 0), done, rest);
    Finished(buf[..], done, original);
  }

  /** Before the loop nothing is copied and everything is still to come. */
  lemma NothingDone(rest: seq<bv8>)
    ensures [] + rest == rest
  {
  }

  /** When nothing is left to come, what was copied is everything. */
  lemma AllDone(whole: seq<bv8>, done: seq<bv8>, rest: seq<bv8>)
    requires whole == done + rest && rest == []
    ensures whole == done
  {
  }

  /**
   * One turn of the read loop at cluster: look up the next cluster in
   * the FAT, read the cluster and copy its span after the bytes read so
   * far; next is what is left to copy after it.
   */
  method ReadCluster(r: FitReader, cluster: u16, count: nat, buf: array<bv8>, at: nat, ghost done: seq<bv8>, ghost rest: seq<bv8>, ghost original: seq<bv8>)
    returns (fentry: u16, copied: nat, span: seq<bv8>, ghost next: seq<bv8>)
    requires count < r.p.toRead && at == |done| && rest == Copied(r, cluster, count)
    requires Progress(buf[..], done, original) && at + |rest| <= buf.Length
    modifies buf
    ensures fentry == FatEntry(r.v.fat, cluster) && copied == |span|
    ensures done + rest == done + span + next
    ensures cluster >= EndOfChainMin ==> next == []
    ensures cluster < EndOfChainMin ==> next == Copied(r, fentry, count + 1)
    ensures Progress(buf[..], done + span, original)
  {
    fentry := FatEntry(r.v.fat, cluster);
    span := ReadSpan(r, cluster, count);
    next := if cluster >= EndOfChainMin then [] else Copied(r, fentry, count + 1);
    CopySpan(buf, at, done, span, original);
    copied := |span|;
  }

  /** Once the loop is done, the buffer starts with the bytes copied and keeps its original bytes after them. */
  lemma Finished(buffer: seq<bv8>, done: seq<bv8>, original: seq<bv8>)
    requires Progress(buffer, done, original)
    ensures buffer[..|done|] == done && buffer[|done|..] == original[|done|..]
  {
  }

  /**
   * The read loop's progress: buffer starts with the bytes copied so
   * far and keeps its original bytes after them.
   */
  ghost predicate Progress(buffer: seq<bv8>, done: seq<bv8>, original: seq<bv8>)
  {
    && |buffer| == |original| && |done| <= |buffer|
    && (forall k {:trigger buffer[k]} :: 0 <= k < |buffer| ==> buffer[k] == if k < |done| then done[k] else original[k])
  }

  /** Copies span to dst after the bytes copied so far. */
  method CopySpan(dst: array<bv8>, at: nat, ghost done: seq<bv8>, span: seq<bv8>, ghost original: seq<bv8>)
    requires at == |done| && Progress(dst[..], done, original) && at + |span| <= dst.Length
    modifies dst
    ensures Progress(dst[..], done + span, original)
  {
    ghost var whole := dst[..];
    CopyInto(dst, at, span);
    forall k | 0 <= k < dst.Length
      ensures dst[k] == if k < at + |span| then (done + span)[k] else original[k]
    {
      if at <= k < at + |span| {
        assert dst[k] == dst[at..at + |span|][k - at];
      } else if k < at {
        assert dst[k] == dst[..at][k] == whole[..at][k];
      } else {
        assert dst[k] == dst[at + |span|..][k - at - |span|] == whole[at + |span|..][k - at - |span|];
      }
    }
  }

  /**
   * The part of one cluster that the read loop copies: blkread reads
   * the cluster's first sector into the cluster-sized buffer, and the
   * span runs from copy_start to copy_end. The span is the start of
   * what is left to copy at that cluster.
   */
  method ReadSpan(r: FitReader, cluster: u16, count: nat) returns (span: seq<bv8>)
    requires count < r.p.toRead
    ensures Copied(r, cluster, count)
            == span + (if cluster >= EndOfChainMin then [] else Copied(r, FatEntry(r.v.fat, cluster), count + 1))
  {
    var v, p := r.v, r.p;
    var lba := ClusterToLba(v.dataAreaStart, v.sectorsPerCluster, cluster);
    var readBuf := v.sector(lba) + r.stale[v.bytesPerSector..];
    var copyStart := if count == 0 then p.oic else 0;
    var copyEnd := if count == p.toRead - 1 then p.lastEnd else p.bpc;
    CopiedStep(r, cluster, count);
    span := readBuf[copyStart..copyEnd];
  }

  /** One turn of the read loop: the span of the current cluster as blkread leaves it in the buffer, then the rest of the chain unless the cluster ends it. */
  lemma CopiedStep(r: FitReader, cluster: u16, i: nat)
    requires i < r.p.toRead
    ensures var v := r.v;
            var buffer := v.sector(ClusterToLba(v.dataAreaStart, v.sectorsPerCluster, cluster)) + r.stale[v.bytesPerSector..];
            && CopyStart(r.p, i) < CopyEnd(r.p, i) <= |buffer|
            && Copied(r, cluster, i)
               == buffer[CopyStart(r.p, i)..CopyEnd(r.p, i)]
                  + (if cluster >= EndOfChainMin then [] else Copied(r, FatEntry(v.fat, cluster), i + 1))
  {
    SoundSpans(r.p, i);
    SectorFitsCluster(r.v);
  }

  /**
   * fat12_read with the request cut at the end of the file without
   * wrap-around: -1 for a missing buffer, an empty request or a
   * directory; 0 at or past the end of the file; otherwise the count,
   * converted to int32, with the bytes of the clusters from
   * first_cluster_low + offs / bpc on, along the chain, in buf.
   */
  method Read(v: Volume, stale: seq<bv8>, entry: DirEntry, offs: Utils.u32, size: Utils.u32, buf: array?<bv8>) returns (r: i32)
    requires Readable(v, stale)
    requires entry.fileSize <= 0x1000 * BytesPerCluster(v)
    requires buf != null ==> buf.Length >= size
    modifies buf
    ensures buf == null || size == 0 || entry.attributes & AttrDirectory != 0 ==> r == -1
    ensures buf != null && size != 0 && entry.attributes & AttrDirectory == 0 ==>
              var count := ReadCount(entry.fileSize, offs, size);
              if count == 0 then r == 0 && buf[..] == old(buf[..])
              else
                var bpc := BytesPerCluster(v);
                var data := Copied(Reader(v, stale, ReadPlan(offs, count, bpc)), (entry.firstCluster + offs / bpc) % 0x1_0000, 0);
                && r == AsI32(count)
                && |data| <= count && buf[..|data|] == data && buf[|data|..] == old(buf[|data|..])
  {
    if buf == null || size == 0 || entry.attributes & AttrDirectory != 0 {
      return -1;
    }
    if offs >= entry.fileSize {
      return 0;
    }
    var n := size;
    if offs + size > entry.fileSize {
      n := entry.fileSize - offs;
    }
    var bpc := BytesPerCluster(v);
    var start: u16 := (entry.firstCluster + offs / bpc) % 0x1_0000;
    var plan := ReadPlan(offs, n, bpc);
    ReadFits(offs, n, entry.fileSize, bpc);
    CopiedCount(v, stale, offs, n, start);
    var bytesRead := ReadClusters(Reader(v, stale, plan), start, buf);
    r := AsI32(n);
  }
}
