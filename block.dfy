/**
 * The block-device layer: a bounded registry of named devices and the
 * guarded read/write entry points that forward one block to the driver.
 * A driver's read and write routines are opaque functions of the driver's
 * private handle and the block number; the data buffer they fill or drain
 * is not modelled.
 */
module Block {
  import opened Wrappers

  const MaxBlockDevices: nat := 16
  const DefaultBlockSize: nat := 512

  /** A driver routine: given the driver's private handle and an LBA, a status. */
  type DriverOp = (nat, nat) -> int

  /** The operations table a driver registers; either routine may be missing. */
  datatype Ops = Ops(read: Option<DriverOp>, write: Option<DriverOp>)

  /** A registered device, as stored by blkdev_register. */
  datatype Device = Device(name: string, blockSize: nat, numBlocks: nat, ops: Option<Ops>, driverPrivate: nat)

  /** The names of a sequence of devices, in order. */
  function Names(devices: seq<Device>): (names: seq<string>)
    ensures |names| == |devices|
    ensures forall i :: 0 <= i < |devices| ==> names[i] == devices[i].name
  {
    if |devices| == 0 then [] else Names(devices[..|devices| - 1]) + [devices[|devices| - 1].name]
  }

  /** No two devices share a name. */
  predicate UniqueNames(devices: seq<Device>)
  {
    forall i, j :: 0 <= i < j < |devices| ==> devices[i].name != devices[j].name
  }

  /** The first device with the given name, as blkdev_get_by_name finds it. */
  function Lookup(devices: seq<Device>, name: string): (r: Option<Device>)
    ensures r.None? <==> name !in Names(devices)
    ensures r.Some? ==> r.value in devices && r.value.name == name
  {
    if |devices| == 0 then None
    else if devices[0].name == name then Some(devices[0])
    else
      assert Names(devices) == [devices[0].name] + Names(devices[1..]) by {
        assert forall i :: 0 <= i < |devices| ==> Names(devices)[i] == ([devices[0].name] + Names(devices[1..]))[i];
      }
      Lookup(devices[1..], name)
  }

  /** After appending a device with a fresh name, that name finds it and every other name finds what it found before. */
  lemma {:induction false} LookupAfterAppend(devices: seq<Device>, d: Device, name: string)
    requires d.name !in Names(devices)
    ensures Lookup(devices + [d], name) == if name == d.name then Some(d) else Lookup(devices, name)
  {
    if |devices| == 0 {
    } else {
      assert (devices + [d])[1..] == devices[1..] + [d];
      if devices[0].name != name {
        assert forall i :: 0 <= i < |devices| - 1 ==> Names(devices[1..])[i] == Names(devices)[i + 1];
        LookupAfterAppend(devices[1..], d, name);
      } else {
        assert Names(devices)[0] == name;
      }
    }
  }

  /** The registry of block devices (the file-static table and its count). */
  class Registry {
    var devices: seq<Device>

    ghost predicate Valid()
      reads this
    {
      |devices| <= MaxBlockDevices && UniqueNames(devices)
    }

    constructor ()
      ensures Valid() && devices == []
    {
      devices := [];
    }

    /**
     * blkdev_register: fails with -1 when the table is full, when memory
     * cannot be allocated or when the name is taken, leaving the table as
     * it was; otherwise appends the device, stored verbatim, and returns 0.
     */
    method Register(name: string, blockSize: nat, numBlocks: nat, ops: Option<Ops>, driverPrivate: nat,
                    allocationFails: bool) returns (r: int)
      requires Valid()
      modifies this
      ensures Valid()
      ensures r == 0 || r == -1
      ensures r == 0 <==> |old(devices)| < MaxBlockDevices && !allocationFails && name !in Names(old(devices))
      ensures r == 0 ==> devices == old(devices) + [Device(name, blockSize, numBlocks, ops, driverPrivate)]
      ensures r == -1 ==> devices == old(devices)
    {
      if |devices| >= MaxBlockDevices {
        return -1;
      }
      if allocationFails {
        return -1;
      }
      var i := 0;
      while i < |devices|
        invariant 0 <= i <= |devices|
        invariant forall k :: 0 <= k < i ==> devices[k].name != name
      {
        if devices[i].name == name {
          assert Names(devices)[i] == name;
          return -1;
        }
        i := i + 1;
      }
      devices := devices + [Device(name, blockSize, numBlocks, ops, driverPrivate)];
      return 0;
    }

    /**
     * blkdev_get_by_name: nothing for a NULL name or an unknown name,
     * otherwise the registered device of that name.
     */
    method GetByName(name: Option<string>) returns (d: Option<Device>)
      ensures name.None? ==> d.None?
      ensures name.Some? ==> d == Lookup(devices, name.value)
    {
      if name.None? {
        return None;
      }
      var i := 0;
      while i < |devices|
        invariant 0 <= i <= |devices|
        invariant Lookup(devices, name.value) == Lookup(devices[i..], name.value)
      {
        if devices[i].name == name.value {
          return Some(devices[i]);
        }
        assert devices[i..][1..] == devices[i + 1..];
        i := i + 1;
      }
      return None;
    }
  }

  /** blkdev_get_block_size: 0 for a NULL device. */
  function BlockSize(dev: Option<Device>): (size: nat)
    ensures dev.None? ==> size == 0
    ensures dev.Some? ==> size == dev.value.blockSize
  {
    match dev
    case None => 0
    case Some(d) => d.blockSize
  }

  /** blkdev_get_num_blocks: 0 for a NULL device. */
  function NumBlocks(dev: Option<Device>): (count: nat)
    ensures dev.None? ==> count == 0
    ensures dev.Some? ==> count == dev.value.numBlocks
  {
    match dev
    case None => 0
    case Some(d) => d.numBlocks
  }

  /** A registered device is found by its name and reports the geometry it was registered with. */
  lemma RegisteredGeometry(devices: seq<Device>, name: string, blockSize: nat, numBlocks: nat, ops: Option<Ops>, driverPrivate: nat)
    requires name !in Names(devices)
    ensures var d := Lookup(devices + [Device(name, blockSize, numBlocks, ops, driverPrivate)], name);
            BlockSize(d) == blockSize && NumBlocks(d) == numBlocks
  {
    LookupAfterAppend(devices, Device(name, blockSize, numBlocks, ops, driverPrivate), name);
  }

  /** The driver routine blkread would call for dev, if its guards let the call through. */
  function ReadRoutine(dev: Option<Device>, lba: nat): (op: Option<DriverOp>)
    ensures op.Some? <==>
              && dev.Some? && dev.value.ops.Some? && dev.value.ops.value.read.Some?
              && lba < dev.value.numBlocks
    ensures op.Some? ==> op.value == dev.value.ops.value.read.value
  {
    if dev.None? || dev.value.ops.None? || dev.value.ops.value.read.None? then None
    else if lba >= dev.value.numBlocks then None
    else dev.value.ops.value.read
  }

  /** The driver routine blkwrite would call for dev, if its guards let the call through. */
  function WriteRoutine(dev: Option<Device>, lba: nat): (op: Option<DriverOp>)
    ensures op.Some? <==>
              && dev.Some? && dev.value.ops.Some? && dev.value.ops.value.write.Some?
              && lba < dev.value.numBlocks
    ensures op.Some? ==> op.value == dev.value.ops.value.write.value
  {
    if dev.None? || dev.value.ops.None? || dev.value.ops.value.write.None? then None
    else if lba >= dev.value.numBlocks then None
    else dev.value.ops.value.write
  }

  /** blkread: -1 without calling the driver when a guard fails, else the driver's status. */
  function BlkRead(dev: Option<Device>, lba: nat): (status: int)
    ensures ReadRoutine(dev, lba).None? ==> status == -1
    ensures ReadRoutine(dev, lba).Some? ==> status == ReadRoutine(dev, lba).value(dev.value.driverPrivate, lba)
  {
    match ReadRoutine(dev, lba)
    case None => -1
    case Some(op) => op(dev.value.driverPrivate, lba)
  }

  /** blkwrite: -1 without calling the driver when a guard fails, else the driver's status. */
  function BlkWrite(dev: Option<Device>, lba: nat): (status: int)
    ensures WriteRoutine(dev, lba).None? ==> status == -1
    ensures WriteRoutine(dev, lba).Some? ==> status == WriteRoutine(dev, lba).value(dev.value.driverPrivate, lba)
  {
    match WriteRoutine(dev, lba)
    case None => -1
    case Some(op) => op(dev.value.driverPrivate, lba)
  }

  /** No driver is ever asked for a block beyond the device's end. */
  lemma DriverCallsInRange(dev: Option<Device>, lba: nat)
    requires ReadRoutine(dev, lba).Some? || WriteRoutine(dev, lba).Some?
    ensures dev.Some? && lba < NumBlocks(dev)
  {
  }
}
