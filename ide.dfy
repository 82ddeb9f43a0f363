/**
 * IDE (ATA) driver logic: parsing the 256-word IDENTIFY DEVICE response
 * (ATA/ATAPI Command Set, "IDENTIFY DEVICE data": word 0 bit 15, model
 * string in words 27-46, LBA28 capacity in words 60-61), the device-type
 * signature check, the LBA28 task-file register values, and the guards of
 * single-sector reads and writes. Port I/O and the wait loops are left
 * out: their outcomes are inputs.
 */
module Ide {
  import opened Wrappers

  const DevLbaMode: bv8 := 0x40
  const DevDefault: bv8 := 0xA0
  const DevDriveSel: bv8 := 0x10
  const StatErr: bv8 := 0x01
  const CmdReadSectors: bv8 := 0x20
  const CmdWriteSectors: bv8 := 0x30
  const Space: bv8 := 0x20

  /** One IDE device, as the driver keeps it. */
  class IdeDevice {
    /** 40 model characters plus a terminating NUL. */
    const model: array<bv8>
    var present: bool
    var isHdd: bool
    var cylinders: bv32
    var heads: bv32
    var sectorsPerTrack: bv32
    var totalSectors: bv32
    /** 0 for the master, anything else for the slave. */
    const deviceNum: bv8

    constructor (num: bv8)
      ensures model.Length == 41 && deviceNum == num && !present && fresh(model)
    {
      model := new bv8[41](_ => 0);
      deviceNum := num;
      present := false;
    }
  }

  /** How the IDENTIFY exchange with the drive went, up to the 256 data words. */
  datatype IdentifyProbe =
    | DrdyTimeout
    | BsyTimeout
    | Completed(status: bv8, drqTimeout: bool, words: seq<bv16>)

  /** The exchange delivered identify data: no timeout, a nonzero status without ERR. */
  predicate IdentifySucceeds(p: IdentifyProbe)
  {
    p.Completed? && p.status != 0 && p.status & StatErr == 0 && !p.drqTimeout
  }

  /** The 40 model characters, each word of 27..46 stored high byte first. */
  function ModelBytes(words: seq<bv16>): (r: seq<bv8>)
    requires |words| == 256
    ensures |r| == 40
    ensures forall i :: 0 <= i < 20 ==> ((r[2 * i] as bv16) << 8) | (r[2 * i + 1] as bv16) == words[27 + i]
  {
    seq(40, j requires 0 <= j < 40 => ModelByte(words[27 + j / 2], j % 2 == 0))
  }

  /** One model character: the high byte of its word at even positions, the low byte at odd ones. */
  function ModelByte(w: bv16, high: bool): bv8
  {
    if high then ((w >> 8) & 0xFF) as bv8 else (w & 0xFF) as bv8
  }

  /** The length of s once its trailing spaces are dropped. */
  function TrimmedLength(s: seq<bv8>): (n: nat)
    ensures n <= |s|
    ensures forall j :: n <= j < |s| ==> s[j] == Space
    ensures n > 0 ==> s[n - 1] != Space
  {
    if s == [] then 0
    else if s[|s| - 1] == Space then TrimmedLength(s[..|s| - 1])
    else |s|
  }

  /** The 41-byte model field after parsing: the characters up to the trailing spaces, then NULs. */
  function ModelField(words: seq<bv16>): (r: seq<bv8>)
    requires |words| == 256
    ensures |r| == 41 && r[40] == 0
  {
    var bytes := ModelBytes(words);
    var n := TrimmedLength(bytes);
    bytes[..n] + Zeros(41 - n)
  }

  function Zeros(n: nat): (r: seq<bv8>)
    ensures |r| == n && forall j :: 0 <= j < n ==> r[j] == 0
  {
    if n == 0 then [] else [0] + Zeros(n - 1)
  }

  /** Words 60 and 61: the LBA28 sector count, low word first. */
  function TotalSectors(word60: bv16, word61: bv16): (r: bv32)
    ensures (r >> 16) as bv16 == word61 && (r & 0xFFFF) as bv16 == word60
  {
    ((word61 as bv32) << 16) | (word60 as bv32)
  }

  /** Word 0 bit 15 set marks an ATAPI (packet) device; clear means a hard disk. */
  function IsHddFromConfig(genConfig: bv16): (r: bool)
    ensures r <==> (genConfig >> 15) == 0
  {
    genConfig & 0x8000 == 0
  }

  /** _ide_check_type: only the (0x00, 0x00) signature in LBA mid/high marks an ATA hard disk. */
  function CheckType(lbaMid: bv8, lbaHi: bv8): (isHdd: bool)
    ensures isHdd <==> lbaMid == 0 && lbaHi == 0
    ensures lbaMid == 0x14 && lbaHi == 0xEB ==> !isHdd
  {
    if lbaMid == 0x00 && lbaHi == 0x00 then true
    else if lbaMid == 0x14 && lbaHi == 0xEB then false
    else false
  }

  /** The model-string part of _ide_device_identify: copy the byte-swapped words, terminate, trim trailing spaces. */
  method FillModel(model: array<bv8>, words: seq<bv16>)
    requires model.Length == 41 && |words| == 256
    modifies model
    ensures model[..] == ModelField(words)
  {
    ghost var bytes := ModelBytes(words);
    var i := 0;
    while i < 20
      invariant 0 <= i <= 20
      invariant forall j :: 0 <= j < 2 * i ==> model[j] == bytes[j]
    {
      model[i * 2] := ((words[27 + i] >> 8) & 0xFF) as bv8;
      model[i * 2 + 1] := (words[27 + i] & 0xFF) as bv8;
      i := i + 1;
    }
    model[40] := 0;

    var k := 39;
    while k >= 0
      invariant -1 <= k <= 39
      invariant forall j :: 0 <= j <= k ==> model[j] == bytes[j]
      invariant forall j :: k < j <= 40 ==> model[j] == 0
      invariant forall j :: k < j < 40 ==> bytes[j] == Space
    {
      if model[k] == Space {
        model[k] := 0;
      } else {
        break;
      }
      k := k - 1;
    }
    assert TrimmedLength(bytes) == k + 1;
  }

  /** _ide_device_identify, with the outcome of the port exchange as input. */
  method Identify(dev: IdeDevice, probe: IdentifyProbe)
    requires dev.model.Length == 41
    requires probe.Completed? ==> |probe.words| == 256
    modifies dev, dev.model
    ensures dev.present == IdentifySucceeds(probe)
    ensures !IdentifySucceeds(probe) ==>
      dev.model[..] == old(dev.model[..]) && dev.isHdd == old(dev.isHdd) && dev.totalSectors == old(dev.totalSectors)
      && dev.cylinders == old(dev.cylinders) && dev.heads == old(dev.heads)
      && dev.sectorsPerTrack == old(dev.sectorsPerTrack)
    ensures IdentifySucceeds(probe) ==>
      dev.isHdd == IsHddFromConfig(probe.words[0]) &&
      dev.model[..] == ModelField(probe.words) &&
      dev.totalSectors == TotalSectors(probe.words[60], probe.words[61]) &&
      dev.cylinders == probe.words[1] as bv32 &&
      dev.heads == probe.words[3] as bv32 &&
      dev.sectorsPerTrack == probe.words[6] as bv32
  {
    if !probe.Completed? {
      dev.present := false;
      return;
    }
    if probe.status == 0 || probe.status & StatErr != 0 || probe.drqTimeout {
      dev.present := false;
      return;
    }
    var words := probe.words;
    dev.isHdd := words[0] & 0x8000 == 0;

    FillModel(dev.model, words);

    dev.totalSectors := ((words[61] as bv32) << 16) | (words[60] as bv32);
    dev.cylinders := words[1] as bv32;
    dev.heads := words[3] as bv32;
    dev.sectorsPerTrack := words[6] as bv32;
    dev.present := true;
  }

  /** The trimmed model keeps every character before the trailing spaces and ends in at least one NUL. */
  lemma ModelFieldKeepsName(words: seq<bv16>)
    requires |words| == 256
    ensures ModelField(words)[..TrimmedLength(ModelBytes(words))] == ModelBytes(words)[..TrimmedLength(ModelBytes(words))]
    ensures forall j :: TrimmedLength(ModelBytes(words)) <= j < 41 ==> ModelField(words)[j] == 0
  {
  }

  /** The device-register value that selects a drive in LBA mode (_ide_select_drive). */
  function SelectRegister(deviceNum: bv8): (r: bv8)
    ensures r == if deviceNum != 0 then 0xF0 else 0xE0
  {
    DevLbaMode | DevDefault | (if deviceNum != 0 then DevDriveSel else 0)
  }

  /** The LBA low, mid and high registers (_ide_write_lbaregs). */
  function LbaRegisters(lba: bv32): (r: (bv8, bv8, bv8))
  {
    ((lba & 0xFF) as bv8, ((lba >> 8) & 0xFF) as bv8, ((lba >> 16) & 0xFF) as bv8)
  }

  /** The device register of a transfer: drive select, LBA mode and LBA bits 24-27. */
  function DeviceRegister(deviceNum: bv8, lba: bv32): (r: bv8)
    ensures r & 0xF0 == SelectRegister(deviceNum)
    ensures r & 0x0F == ((lba >> 24) & 0x0F) as bv8
  {
    DevLbaMode | DevDefault | (if deviceNum != 0 then DevDriveSel else 0) | ((lba >> 24) & 0x0F) as bv8
  }

  /** The three LBA registers and the device register's low nibble carry exactly the low 28 bits of the LBA. */
  lemma LbaRegistersReassemble(deviceNum: bv8, lba: bv32)
    ensures var (lo, mid, hi) := LbaRegisters(lba);
      (lo as bv32) | ((mid as bv32) << 8) | ((hi as bv32) << 16) | (((DeviceRegister(deviceNum, lba) & 0x0F) as bv32) << 24)
        == lba & 0x0FFF_FFFF
  {
  }

  /** The task-file values a single-sector transfer programs. */
  datatype TaskFile = TaskFile(sectorCount: bv8, lbaLo: bv8, lbaMid: bv8, lbaHi: bv8, device: bv8, command: bv8)

  function TransferTaskFile(deviceNum: bv8, sector: bv32, command: bv8): TaskFile
  {
    var (lo, mid, hi) := LbaRegisters(sector);
    TaskFile(1, lo, mid, hi, DeviceRegister(deviceNum, sector), command)
  }

  /**
   * ide_read_sector: None when no transfer is started (no device, not
   * present, not a hard disk, sector out of range, or the drive never
   * became ready); otherwise the taskfile written before READ SECTORS.
   */
  method ReadSector(dev: IdeDevice?, sector: bv32, driveReady: bool) returns (cmd: Option<TaskFile>)
    ensures cmd.Some? <==> dev != null && dev.present && dev.isHdd && sector < dev.totalSectors && driveReady
    ensures cmd.Some? ==> cmd.value == TransferTaskFile(dev.deviceNum, sector, CmdReadSectors)
  {
    if dev == null || !dev.present {
      return None;
    }
    if !dev.isHdd {
      return None;
    }
    if sector >= dev.totalSectors {
      return None;
    }
    if !driveReady {
      return None;
    }
    var lo, mid, hi := (sector & 0xFF) as bv8, ((sector >> 8) & 0xFF) as bv8, ((sector >> 16) & 0xFF) as bv8;
    var deviceReg := DevLbaMode | DevDefault | (if dev.deviceNum != 0 then DevDriveSel else 0) | ((sector >> 24) & 0x0F) as bv8;
    return Some(TaskFile(1, lo, mid, hi, deviceReg, CmdReadSectors));
  }

  /** ide_write_sector: the same guards, then WRITE SECTORS. */
  method WriteSector(dev: IdeDevice?, sector: bv32, driveReady: bool) returns (cmd: Option<TaskFile>)
    ensures cmd.Some? <==> dev != null && dev.present && dev.isHdd && sector < dev.totalSectors && driveReady
    ensures cmd.Some? ==> cmd.value == TransferTaskFile(dev.deviceNum, sector, CmdWriteSectors)
  {
    if dev == null || !dev.present {
      return None;
    }
    if !dev.isHdd {
      return None;
    }
    if sector >= dev.totalSectors {
      return None;
    }
    if !driveReady {
      return None;
    }
    var lo, mid, hi := (sector & 0xFF) as bv8, ((sector >> 8) & 0xFF) as bv8, ((sector >> 16) & 0xFF) as bv8;
    var deviceReg := DevLbaMode | DevDefault | (if dev.deviceNum != 0 then DevDriveSel else 0) | ((sector >> 24) & 0x0F) as bv8;
    return Some(TaskFile(1, lo, mid, hi, deviceReg, CmdWriteSectors));
  }
}
