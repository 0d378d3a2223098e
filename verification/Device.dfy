/** Devices and their resources. Memory regions and event sources are handled by mirrored
    code in the kernel, so one Resource type serves both, told apart by a Kind. */
module Devices {
  import opened Base

  type ModuleId = int

  datatype Kind = Memory | EventSource

  const SIZE_LIMIT: nat := 0x1_0000_0000_0000_0000

  /** A 64-bit size_t. */
  type Size = n: nat | n < SIZE_LIMIT

  /** The three lengths of a memory region, in bytes; not used for event sources. */
  datatype Window = Window(len: Size, paLen: Size, startOffset: Size)

  /** code is the region type or the interrupt number; zero is "none" for both.
      refCount cannot go below zero: the guard of the decrement is what Dafny checks here. */
  datatype Resource = Resource(name: Option<string>, code: int, shared: bool, window: Window, refCount: nat)

  const MAX_MANAGED_DEVICES: nat := 256
  const MAX_DEV_MEM_REGIONS: nat := 5
  const MAX_DEV_EVENTS: nat := 1

  function Capacity(k: Kind): nat {
    if k.Memory? then MAX_DEV_MEM_REGIONS else MAX_DEV_EVENTS
  }

  /** The device structure a driver owns and hands to the manager by pointer. */
  class Device {
    var group: Option<string>
    var name: Option<string>
    var instance: int
    var mem: seq<Resource>
    var events: seq<Resource>
    var owner: Option<ModuleId>

    function View(): Dev
      reads this
    {
      Dev(this, if group.Some? then group.value else "", if name.Some? then name.value else "",
          instance, mem, events, owner)
    }

    /** C fixes the array sizes; null group and name never get past cuddlk_device_manage. */
    ghost predicate Managed()
      reads this
    {
      && group.Some? && name.Some?
      && |mem| == MAX_DEV_MEM_REGIONS && |events| == MAX_DEV_EVENTS
    }
  }

  /** A snapshot of a device in the table; ptr is its identity. */
  datatype Dev = Dev(
    ptr: Device,
    group: string,
    name: string,
    instance: int,
    mem: seq<Resource>,
    events: seq<Resource>,
    owner: Option<ModuleId>)
  {
    function Resources(k: Kind): seq<Resource> {
      if k.Memory? then mem else events
    }

    function WithResources(k: Kind, rs: seq<Resource>): Dev {
      if k.Memory? then this.(mem := rs) else this.(events := rs)
    }
  }

  type Table = seq<Option<Dev>>

  /** Which slot of the manager's array, and which resource slot of the device there. */
  datatype Token = Token(device: int, resource: int)
}
