/**
 * Floppy-disk controller arithmetic: LBA to cylinder/head/sector for a
 * 1.44 MB disk (18 sectors per track, 2 heads), the current-drive
 * selection, and the bytes handed to the digital output register and to
 * the SPECIFY command. Port writes are left out; the values are modelled.
 */
module Fdc {
  import opened Wrappers

  const SectorsPerTrack: nat := 18
  const Heads: nat := 2
  /** Block count fd0 is registered with. */
  const FloppyBlocks: nat := 2880

  const DorEnable: bv8 := 0x04
  const DorIrqDma: bv8 := 0x08

  type u32 = x: int | 0 <= x < 0x1_0000_0000

  datatype Chs = Chs(cylinder: nat, head: nat, sector: nat)

  /** The address fdc_lba_to_chs computes; the cylinder is truncated to 8 bits. */
  function LbaToChs(lba: u32): (c: Chs)
    ensures c.cylinder < 256 && c.head < Heads && 1 <= c.sector <= SectorsPerTrack
    ensures lba < FloppyBlocks ==> (c.cylinder * Heads + c.head) * SectorsPerTrack + c.sector - 1 == lba
  {
    var track := lba % (SectorsPerTrack * Heads);
    Chs((lba / (SectorsPerTrack * Heads)) % 256, track / SectorsPerTrack, track % SectorsPerTrack + 1)
  }

  /** A 32-bit variable an out-pointer refers to. */
  class U32Cell {
    var value: u32
    constructor (v: u32)
      ensures value == v
    {
      value := v;
    }
  }

  /** fdc_lba_to_chs: writes all three outputs in the order cylinder, head, sector, or nothing when any pointer is NULL. */
  method LbaToChsInto(lba: u32, cylinder: U32Cell?, head: U32Cell?, sector: U32Cell?)
    modifies cylinder, head, sector
    ensures cylinder == null || head == null || sector == null ==>
      (cylinder != null ==> cylinder.value == old(cylinder.value)) &&
      (head != null ==> head.value == old(head.value)) &&
      (sector != null ==> sector.value == old(sector.value))
    ensures cylinder != null && head != null && sector != null ==>
      sector.value == LbaToChs(lba).sector &&
      (head != sector ==> head.value == LbaToChs(lba).head) &&
      (cylinder != head && cylinder != sector ==> cylinder.value == LbaToChs(lba).cylinder)
  {
    if cylinder == null || head == null || sector == null {
      return;
    }
    cylinder.value := (lba / 36) % 256;
    head.value := (lba % 36) / 18;
    sector.value := (lba % 36) % 18 + 1;
  }

  /** Every block of the floppy gets a distinct address: the conversion is injective below 2880. */
  lemma LbaToChsInjective(a: u32, b: u32)
    requires a < FloppyBlocks && b < FloppyBlocks && LbaToChs(a) == LbaToChs(b)
    ensures a == b
  {
  }

  /** The end-of-track parameter of the read and write commands. */
  function EndOfTrack(sector: nat): (r: nat)
    ensures r <= SectorsPerTrack
    ensures r == if sector + 1 < SectorsPerTrack then sector + 1 else SectorsPerTrack
  {
    if sector + 1 >= 18 then 18 else sector + 1
  }

  /** First parameter byte of the read and write commands: head in bit 2, drive in bits 0-1. */
  function HeadDriveByte(head: bv8, drive: bv8): (r: bv8)
    requires head < 2 && drive < 4
    ensures r & 3 == drive && (r >> 2) & 1 == head && r < 8
  {
    (head << 2) | drive
  }

  /** The current drive, a static of the driver. */
  class Controller {
    var currentDrive: bv8

    constructor ()
      ensures currentDrive == 0
    {
      currentDrive := 0;
    }

    /** fdc_set_drive: drives above 3 are rejected and leave the selection unchanged. */
    method SetDrive(drive: bv8)
      modifies this
      ensures currentDrive == if drive > 3 then old(currentDrive) else drive
    {
      if drive > 3 {
        return;
      }
      currentDrive := drive;
    }

    /** fdc_get_drive. */
    method GetDrive() returns (d: bv8)
      ensures d == currentDrive
    {
      d := currentDrive;
    }
  }

  /** Selecting a valid drive is observed by the next fdc_get_drive. */
  method SetThenGet(c: Controller, drive: bv8) returns (d: bv8)
    modifies c
    ensures drive <= 3 ==> d == drive
    ensures drive > 3 ==> d == old(c.currentDrive)
  {
    c.SetDrive(drive);
    d := c.GetDrive();
  }

  /**
   * The digital-output-register byte _fdc_control_motor writes: None when
   * the drive is invalid (nothing is written). Enabling turns on the
   * drive's motor and selects the drive; disabling only keeps the
   * controller enabled in DMA mode.
   */
  function MotorDor(drive: bv8, enable: bool): (r: Option<bv8>)
    ensures r.Some? <==> drive <= 3
    ensures r.Some? && enable ==>
      r.value & 3 == drive && r.value >> 4 == (1 as bv8) << drive && r.value & 0x0C == DorEnable | DorIrqDma
    ensures r.Some? && !enable ==> r.value == DorEnable | DorIrqDma
  {
    if drive > 3 then None
    else
      var motor: bv8 := if drive == 0 then 0x10 else if drive == 1 then 0x20 else if drive == 2 then 0x40 else 0x80;
      Some(if enable then motor | drive | DorIrqDma | DorEnable else DorEnable | DorIrqDma)
  }

  /** The two parameter bytes of the SPECIFY command sent by _fdc_fix_drivedata. */
  function SpecifyBytes(stepRate: bv32, loadTime: bv32, unloadTime: bv32, useDma: bool): (r: (bv8, bv8))
    ensures r.0 >> 4 == (stepRate & 0x0F) as bv8 && r.0 & 0x0F == (unloadTime & 0x0F) as bv8
    ensures r.1 >> 1 == (loadTime & 0x7F) as bv8 && (r.1 & 1 == 0 <==> useDma)
  {
    ((((stepRate & 0x0F) << 4) | (unloadTime & 0x0F)) as bv8,
     (((loadTime & 0x7F) << 1) | (if useDma then 0 else 1)) as bv8)
  }

  /** fdc_reset programs step rate 3, load time 16, unload time 240 with DMA. */
  lemma ResetSpecifyBytes()
    ensures SpecifyBytes(3, 16, 240, true) == (0x30, 0x20)
  {
  }
}
