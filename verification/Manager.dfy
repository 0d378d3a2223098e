/** The manager as it runs: an array of device pointers, two reference lists and the pins of
    the owner modules, changed in place. Every method is tied to the state machine. */
module DeviceManager {
  import opened Base
  import opened Devices
  import opened Lookup
  import opened InstanceScan
  import opened Regions
  import opened RefState
  import opened RefInvariant
  import Janitor

  /** cuddlk_device_find_memregion_slot and cuddlk_device_find_eventsrc_slot. */
  method FindResourceSlot(rs: seq<Resource>, name: string) returns (r: Result<nat>)
    ensures r == match FindResource(rs, name) case Some(i) => Ok(i) case None => Err(ENXIO)
  {
    for i := 0 to |rs|
      invariant FindResource(rs, name) == FindResource(rs, name, i)
    {
      if rs[i].name.None? { continue; }
      if name != "" && !SameName(rs[i].name.value, name) { continue; }
      return Ok(i);
    }
    return Err(ENXIO);
  }

  /** The tests a device has to pass in cuddlk_manager_find_device_slot_matching. */
  method DeviceMatches(dev: Device, q: Query, kind: Option<Kind>) returns (b: bool)
    requires dev.Managed()
    ensures b == Matches(dev.View(), q, kind)
  {
    if q.instance != 0 && dev.instance != q.instance { return false; }
    if q.group != "" && !SameName(dev.group.value, q.group) { return false; }
    if q.device != "" && !SameName(dev.name.value, q.device) { return false; }
    if q.resource == "" { return true; }
    if kind.None? { return false; }
    var found := FindResourceSlot(if kind.value.Memory? then dev.mem else dev.events, q.resource);
    return found.Ok?;
  }

  ghost function DraftOf(dev: Device): Draft
    reads dev
  {
    Draft(dev, dev.group, dev.name, dev.instance, dev.mem, dev.events, dev.owner)
  }

  class Manager {
    const devices: array<Device?>
    var memRefs: seq<Ref>
    var eventRefs: seq<Ref>
    var pins: multiset<ModuleId>
    var registered: set<Device>

    /** The value the fields and the devices pointed to stand for. */
    ghost var state: State

    ghost predicate Valid()
      reads this, devices, devices[..]
    {
      && devices.Length == MAX_MANAGED_DEVICES == |state.table|
      && (forall i | 0 <= i < devices.Length ::
            if devices[i] == null then state.table[i] == None
            else devices[i].Managed() && state.table[i] == Some(devices[i].View()))
      && (forall i, j | 0 <= i < j < devices.Length && devices[i] != null :: devices[i] != devices[j])
      && memRefs == state.memRefs && eventRefs == state.eventRefs
      && pins == state.pins && registered == state.registered
    }

    constructor ()
      ensures Valid() && state == Init()
      ensures fresh(devices)
    {
      devices := new Device?[MAX_MANAGED_DEVICES](i => null);
      memRefs, eventRefs, pins, registered := [], [], multiset{}, {};
      state := Init();
    }

    // -------------------------------------------------------------------------------------
    // Searching

    method FindDeviceSlotMatching(q: Query, kind: Option<Kind>, start: nat) returns (r: Result<nat>)
      requires Valid() && start <= MAX_MANAGED_DEVICES
      ensures r == match FindDevice(state.table, q, kind, start) case Some(i) => Ok(i) case None => Err(ENXIO)
    {
      ghost var table := state.table;
      for i := start to MAX_MANAGED_DEVICES
        invariant FindDevice(table, q, kind, start) == FindDevice(table, q, kind, i)
      {
        var dev := devices[i];
        assert table[i] == if dev == null then None else Some(dev.View());
        if dev == null { continue; }
        var matches := DeviceMatches(dev, q, kind);
        if !matches { continue; }
        return Ok(i);
      }
      return Err(ENXIO);
    }

    method FindDeviceSlot(dev: Device?) returns (r: Result<nat>)
      requires Valid()
      ensures r == match FindSlot(state.table, if dev == null then None else Some(dev))
                   case Some(i) => Ok(i)
                   case None => Err(ENXIO)
    {
      ghost var p: Option<Device> := if dev == null then None else Some(dev);
      for i := 0 to MAX_MANAGED_DEVICES
        invariant FindSlot(state.table, p) == FindSlot(state.table, p, i)
      {
        assert PtrAt(state.table, i) == if devices[i] == null then None else Some(devices[i]);
        if devices[i] != dev { continue; }
        return Ok(i);
      }
      return Err(ENXIO);
    }

    method NextAvailableInstanceId(group: string, name: string) returns (r: Result<int>)
      requires Valid()
      ensures r == NextInstance(state.table, group, name)
    {
      var instance, slot := 1, 0;
      ghost var table := state.table;
      while true
        invariant 0 <= slot < MAX_MANAGED_DEVICES
        invariant NextInstance(table, group, name) == ScanFrom(table, group, name, slot, instance)
        decreases MAX_MANAGED_DEVICES - slot
      {
        var found := FindDeviceSlotMatching(InstanceQuery(group, name, instance), None, slot);
        assert FindDevice(table, InstanceQuery(group, name, instance), None, slot)
            == if found.Ok? then Some(found.value) else None;
        if found.Err? { return Ok(instance); }
        if found.value < MAX_MANAGED_DEVICES - 1 {
          slot, instance := found.value + 1, instance + 1;
        } else {
          return Err(ENOMEM);
        }
      }
    }

    /** The resource slots behind a named request. */
    method Resolve(k: Kind, e: Entry, q: Query) returns (r: Result<Token>)
      requires Valid()
      ensures r == Target(state, k, e, q)
    {
      if !e.copyIn { return Err(EOVERFLOW); }
      if !Compatible(e.version) { return Err(ENOEXEC); }
      var slot := FindDeviceSlotMatching(q, Some(k), 0);
      if slot.Err? { return Err(slot.error); }
      var dev := devices[slot.value];
      var res := FindResourceSlot(if k.Memory? then dev.mem else dev.events, q.resource);
      if res.Err? { return Err(res.error); }
      return Ok(Token(slot.value, res.value));
    }

    /** The identifier request for a pair of slots. */
    method GetResourceId(k: Kind, e: Entry, t: Token, copyOut: bool) returns (r: Result<Query>)
      requires Valid()
      ensures IsSized(state.table, k) && r == IdRequest(state, k, e, t, copyOut)
    {
      if !e.copyIn { return Err(EOVERFLOW); }
      if !Compatible(e.version) { return Err(ENOEXEC); }
      if t.device < 0 || t.device >= MAX_MANAGED_DEVICES { return Err(EBADSLT); }
      if t.resource < 0 || t.resource >= Capacity(k) { return Err(EBADSLT); }
      var dev := devices[t.device];
      if dev == null { return Err(ENODEV); }
      var res := if k.Memory? then dev.mem[t.resource] else dev.events[t.resource];
      if res.code == 0 { return Err(EINVAL); }
      if res.name.None? { return Err(Fault); }
      if !copyOut { return Err(EOVERFLOW); }
      return Ok(Query(Clip(dev.group.value), Clip(dev.name.value), Clip(res.name.value), dev.instance));
    }

    // -------------------------------------------------------------------------------------
    // Counting references

    method SetRefCount(k: Kind, t: Token, n: nat)
      requires Valid() && state.Live(k, t)
      modifies this`state, devices[..]
      ensures Valid() && state == old(state).(table := SetCount(old(state.table), k, t, n))
    {
      var dev := devices[t.device];
      if k.Memory? {
        dev.mem := dev.mem[t.resource := dev.mem[t.resource].(refCount := n)];
      } else {
        dev.events := dev.events[t.resource := dev.events[t.resource].(refCount := n)];
      }
      state := state.(table := SetCount(state.table, k, t, n));
    }

    /** try_module_get, taken to succeed, when there is an owner. */
    method PinOwner(dev: Device)
      requires Valid()
      modifies this`pins, this`state
      ensures Valid() && state == old(state).(pins := old(pins) + OwnerBag(dev.owner))
    {
      state := state.(pins := pins + OwnerBag(dev.owner));
      if dev.owner.Some? {
        pins := pins + multiset{dev.owner.value};
      }
    }

    /** module_put. */
    method UnpinOwner(dev: Device)
      requires Valid()
      modifies this`pins, this`state
      ensures Valid() && state == old(state).(pins := old(pins) - OwnerBag(dev.owner))
    {
      state := state.(pins := pins - OwnerBag(dev.owner));
      if dev.owner.Some? {
        pins := pins - multiset{dev.owner.value};
      }
    }

    /** _memregion_claim and _eventsrc_claim. */
    method ClaimResource(k: Kind, t: Token, hostile: bool) returns (r: Result<()>)
      requires Valid() && state.Live(k, t)
      modifies this`pins, this`state, devices[..]
      ensures Valid()
      ensures r == if Busy(old(state), k, t, hostile) then Err(EBUSY) else Ok(())
      ensures state == if r.Ok? then Increment(old(state), k, t) else old(state)
    {
      var dev := devices[t.device];
      var res := if k.Memory? then dev.mem[t.resource] else dev.events[t.resource];
      assert res == state.At(k, t);
      if res.refCount > 0 && !res.shared && !hostile { return Err(EBUSY); }
      SetRefCount(k, t, res.refCount + 1);
      PinOwner(dev);
      return Ok(());
    }

    /** _memregion_decr_ref_count and _eventsrc_decr_ref_count. */
    method DecrRefCount(k: Kind, t: Token) returns (r: Result<()>)
      requires Valid() && state.Live(k, t)
      modifies this`pins, this`state, devices[..]
      ensures Valid() && state == Decrement(old(state), k, t)
      ensures r == if old(state).At(k, t).refCount == 0 then Err(ENOSPC) else Ok(())
    {
      var dev := devices[t.device];
      var n := if k.Memory? then dev.mem[t.resource].refCount else dev.events[t.resource].refCount;
      assert n == state.At(k, t).refCount;
      if n == 0 { return Err(ENOSPC); }
      SetRefCount(k, t, n - 1);
      UnpinOwner(dev);
      return Ok(());
    }

    // -------------------------------------------------------------------------------------
    // Requests

    /** The claim requests and, sharing their code, the info requests. */
    method ClaimOrInfoRequest(k: Kind, e: Entry, claim: bool, a: ClaimArgs) returns (r: Result<Info>)
      requires Valid()
      modifies this`pins, this`memRefs, this`eventRefs, this`state, devices[..]
      ensures Valid() && (state, r) == ClaimOrInfo(old(state), k, e, claim, a)
    {
      var target := Resolve(k, e, a.query);
      if target.Err? { return Err(target.error); }
      var t := target.value;
      if claim {
        var claimed := ClaimResource(k, t, a.hostile);
        if claimed.Err? { return Err(claimed.error); }
        StillLive(old(state), k, t);
        assert devices[..] == old(devices[..]);
      }
      var info := FillInfo(k, t);
      r := SendReply(k, t, claim, a, info);
    }

    /** What follows once the reply is filled in; every failure takes back a reference, also
        when the request was for information only. */
    method SendReply(k: Kind, t: Token, claim: bool, a: ClaimArgs, info: Info) returns (r: Result<Info>)
      requires Valid() && state.Live(k, t)
      modifies this`pins, this`memRefs, this`eventRefs, this`state, devices[..]
      ensures Valid() && (state, r) == Reply(old(state), k, t, claim, a, info)
    {
      if !a.copyOut {
        var _ := DecrRefCount(k, t);
        return Err(EOVERFLOW);
      }
      if claim {
        if !a.alloc {
          var _ := DecrRefCount(k, t);
          return Err(ENOMEM);
        }
        ListAdd(k, Ref(t, a.pid));
      }
      return Ok(info);
    }

    /** The reply of a claim or info request. */
    method FillInfo(k: Kind, t: Token) returns (info: Info)
      requires Valid() && state.Live(k, t)
      ensures info == InfoOf(state, k, t)
    {
      var dev := devices[t.device];
      var res := if k.Memory? then dev.mem[t.resource] else dev.events[t.resource];
      assert res == state.At(k, t);
      return Info(t, res.window, res.shared);
    }

    /** list_add puts a new entry at the head. */
    method ListAdd(k: Kind, r: Ref)
      requires Valid()
      modifies this`memRefs, this`eventRefs, this`state
      ensures Valid() && state == old(state).WithRefs(k, [r] + old(state).Refs(k))
    {
      if k.Memory? { memRefs := [r] + memRefs; } else { eventRefs := [r] + eventRefs; }
      state := state.WithRefs(k, [r] + state.Refs(k));
    }

    /** Deletes the first entry equal to r while walking the list. */
    method ListDelete(k: Kind, r: Ref) returns (freed: bool)
      requires Valid()
      modifies this`memRefs, this`eventRefs, this`state
      ensures Valid() && state == old(state).WithRefs(k, RemoveFirst(old(state).Refs(k), r))
      ensures freed == (r in old(state).Refs(k))
    {
      var refs := if k.Memory? then memRefs else eventRefs;
      freed := false;
      for i := 0 to |refs|
        invariant r !in refs[..i]
      {
        if refs[i] == r {
          Janitor.RemoveFirstAt(refs, i);
          if k.Memory? { memRefs := refs[..i] + refs[i + 1..]; } else { eventRefs := refs[..i] + refs[i + 1..]; }
          state := state.WithRefs(k, refs[..i] + refs[i + 1..]);
          freed := true;
          return;
        }
      }
      assert refs[..|refs|] == refs;
      Janitor.RemoveFirstAbsent(refs, r);
      assert state.WithRefs(k, refs) == state;
    }

    method ReleaseRequest(k: Kind, e: Entry, t: Token, pid: int) returns (r: Result<()>)
      requires Valid()
      modifies this`pins, this`memRefs, this`eventRefs, this`state, devices[..]
      ensures Valid() && (state, r) == Release(old(state), k, e, t, pid)
    {
      if !e.copyIn { return Err(EOVERFLOW); }
      if !Compatible(e.version) { return Err(ENOEXEC); }
      if t.device >= MAX_MANAGED_DEVICES || t.device < 0 { return Err(EBADSLT); }
      var dev := devices[t.device];
      if dev == null { return Err(ENODEV); }
      if t.resource >= Capacity(k) || t.resource < 0 { return Err(EBADSLT); }
      var _ := DecrRefCount(k, t);
      var freed := ListDelete(k, Ref(t, pid));
      return Ok(());
    }

    /** The reference count query and, sharing its code, the forced decrement. */
    method CountOrDecrementRequest(k: Kind, e: Entry, decrement: bool, q: Query) returns (r: Result<nat>)
      requires Valid()
      modifies this`pins, this`state, devices[..]
      ensures Valid() && (state, r) == CountOrDecrement(old(state), k, e, decrement, q)
    {
      var target := Resolve(k, e, q);
      if target.Err? { return Err(target.error); }
      var t := target.value;
      if decrement {
        var done := DecrRefCount(k, t);
        return if done.Err? then Err(done.error) else Ok(0);
      }
      var dev := devices[t.device];
      return Ok(if k.Memory? then dev.mem[t.resource].refCount else dev.events[t.resource].refCount);
    }

    // -------------------------------------------------------------------------------------
    // The janitor

    /** Decrements for the i-th entry, then deletes it. */
    method FreeEntry(k: Kind, i: nat)
      requires Valid() && i < |state.Refs(k)| && state.Refs(k)[i] !in state.Refs(k)[..i]
      requires state.Live(k, state.Refs(k)[i].token)
      modifies this`pins, this`memRefs, this`eventRefs, this`state, devices[..]
      ensures Valid() && state == Drop(old(state), k, old(state).Refs(k)[i].token, old(state).Refs(k)[i].pid)
    {
      var refs := if k.Memory? then memRefs else eventRefs;
      Janitor.RemoveFirstAt(refs, i);
      var _ := DecrRefCount(k, refs[i].token);
      var rest := refs[..i] + refs[i + 1..];
      if k.Memory? { memRefs := rest; } else { eventRefs := rest; }
      state := state.WithRefs(k, rest);
    }

    /** Whether following a list entry to its resource goes wrong: its slot is empty, or (in no
        reachable state) an index is out of range. */
    method Dangles(k: Kind, t: Token) returns (b: bool)
      requires Valid()
      ensures b == !state.Live(k, t)
    {
      if !(0 <= t.device < devices.Length) { return true; }
      var dev := devices[t.device];
      if dev == null { return true; }
      return !(0 <= t.resource < if k.Memory? then |dev.mem| else |dev.events|);
    }

    /** One of the two loops of cuddlk_manager_free_refs_for_pid, up to a fault. */
    method FreeRefsInList(k: Kind, pid: int) returns (fault: bool)
      requires Valid()
      modifies this`pins, this`memRefs, this`eventRefs, this`state, devices[..]
      ensures Valid() && fault == !Janitor.SweepSafeFor(old(state), k, pid)
      ensures !fault ==> state == Sweep(old(state), k, pid)
    {
      ghost var kept: seq<Ref>, todo := [], state.Refs(k);
      var i := 0;
      assert kept + todo == state.Refs(k);
      ghost var swept, safe := Sweep(state, k, pid), Janitor.SweepSafeFor(state, k, pid);
      Janitor.SweepIsRest(state, k, pid);
      while i < |if k.Memory? then memRefs else eventRefs|
        invariant Valid() && i == |kept| && state.Refs(k) == kept + todo
        invariant forall r | r in kept :: r.pid != pid
        invariant Janitor.AllLive(state, k, todo, pid) <==> safe
        invariant swept == Janitor.SweepRest(state, k, kept, todo, pid)
        decreases |todo|
      {
        Janitor.SweepNext(state, k, kept, todo, pid);
        Janitor.AllLiveNext(state, k, todo, pid);
        var r := if k.Memory? then memRefs[i] else eventRefs[i];
        assert r == todo[0] && (kept + todo)[..i] == kept;
        if r.pid == pid {
          var dangles := Dangles(k, r.token);
          if dangles { return true; }
          FreeEntry(k, i);
        } else {
          kept := kept + [r];
          i := i + 1;
        }
        todo := todo[1..];
      }
      assert kept + [] == state.Refs(k) && state.WithRefs(k, state.Refs(k)) == state;
      return false;
    }

    /** cuddlk_manager_free_refs_for_pid. It faults at an entry for an empty slot, with the
        entries before it dealt with. */
    method FreeRefsForPid(pid: int) returns (fault: bool)
      requires Valid()
      modifies this`pins, this`memRefs, this`eventRefs, this`state, devices[..]
      ensures Valid() && fault == JanitorClose(old(state), pid).None?
      ensures !fault ==> JanitorClose(old(state), pid) == Some(state)
    {
      Janitor.SweepsSafe(state, pid);
      fault := FreeRefsInList(Memory, pid);
      if fault { return; }
      fault := FreeRefsInList(EventSource, pid);
    }

    // -------------------------------------------------------------------------------------
    // Devices coming and going

    /** The loop of cuddlk_device_register that completes the lengths of the regions. */
    method DefaultLengths(dev: Device)
      modifies dev`mem
      ensures dev.mem == DefaultRegions(old(dev.mem))
    {
      for i := 0 to |dev.mem|
        invariant |dev.mem| == |old(dev.mem)|
        invariant forall j | 0 <= j < |dev.mem| ::
                    dev.mem[j] == if j < i then DefaultRegions(old(dev.mem))[j] else old(dev.mem)[j]
      {
        var w := dev.mem[i].window;
        if w.len == 0 { w := w.(len := w.paLen); }
        if w.paLen == 0 { w := w.(paLen := PageSizeAligned(ToSize(w.len + w.startOffset))); }
        dev.mem := dev.mem[i := dev.mem[i].(window := w)];
      }
    }

    /** The part of cuddlk_device_register that fills in the device. It fails before that if
        the unique name cannot be allocated, and after it if the kernel refuses the device. */
    method Register(dev: Device, thisModule: Option<ModuleId>, nameAlloc: bool, kernel: Option<Errno>)
      returns (r: Result<()>)
      requires Valid() && forall i | 0 <= i < devices.Length :: devices[i] != dev
      modifies dev`mem, dev`owner, this`registered, this`state
      ensures Valid()
      ensures dev.mem == if nameAlloc then DefaultRegions(old(dev.mem)) else old(dev.mem)
      ensures dev.owner == if nameAlloc && old(dev.owner).None? then thisModule else old(dev.owner)
      ensures match RegisterError(nameAlloc, kernel)
              case Some(e) => r == Err(e) && state == old(state)
              case None => r == Ok(()) && state == old(state).(registered := old(state).registered + {dev})
    {
      if !nameAlloc { return Err(ENOMEM); }
      DefaultLengths(dev);
      if dev.owner.None? { dev.owner := thisModule; }
      if kernel.Some? { return Err(kernel.value); }
      registered := registered + {dev};
      state := state.(registered := registered);
      return Ok(());
    }

    method Unregister(dev: Device)
      requires Valid()
      modifies this`registered, this`state
      ensures Valid() && state == old(state).(registered := old(state).registered - {dev})
    {
      registered := registered - {dev};
      state := state.(registered := registered);
    }

    /** The checks and the choice of an instance number that cuddlk_device_manage starts with. */
    method AssignInstance(dev: Device) returns (r: Result<()>)
      requires Valid() && forall i | 0 <= i < devices.Length :: devices[i] != dev
      modifies dev`instance
      ensures Valid()
      ensures match ChooseInstance(state.table, old(DraftOf(dev)))
              case Err(e) => r == Err(e) && dev.instance == old(dev.instance)
              case Ok(n) => r == Ok(()) && dev.instance == n
    {
      if dev.group.None? { return Err(EINVAL); }
      if dev.name.None? { return Err(EINVAL); }
      if dev.instance == 0 {
        var instance := NextAvailableInstanceId(dev.group.value, dev.name.value);
        if instance.Err? { return Err(instance.error); }
        dev.instance := instance.value;
      }
      return Ok(());
    }

    /** cuddlk_device_manage. A failure can leave the instance number and the defaults in the
        driver's structure, but not the structure in the table. */
    method ManageDevice(dev: Device, thisModule: Option<ModuleId>, nameAlloc: bool, kernel: Option<Errno>)
      returns (r: Result<()>)
      requires Valid() && FindSlot(state.table, Some(dev)).None?
      requires |dev.mem| == MAX_DEV_MEM_REGIONS && |dev.events| == MAX_DEV_EVENTS
      modifies this`registered, this`state, devices, dev
      ensures Valid()
      ensures (state, r) == Manage(old(state), old(DraftOf(dev)), thisModule, RegisterError(nameAlloc, kernel))
      ensures dev.instance == match ChooseInstance(old(state).table, old(DraftOf(dev)))
                              case Ok(n) => n
                              case Err(_) => old(dev.instance)
      ensures dev.group == old(dev.group) && dev.name == old(dev.name) && dev.events == old(dev.events)
      ensures var filled := ChooseInstance(old(state).table, old(DraftOf(dev))).Ok? && nameAlloc;
              && dev.mem == (if filled then DefaultRegions(old(dev.mem)) else old(dev.mem))
              && dev.owner == (if filled && old(dev.owner).None? then thisModule else old(dev.owner))
    {
      NotPointedTo(dev);
      r := AssignInstance(dev);
      if r.Err? { return; }
      r := Register(dev, thisModule, nameAlloc, kernel);
      if r.Err? { return; }
      r := AddDevice(dev);
      if r.Err? {
        Unregister(dev);
        assert old(registered) + {dev} - {dev} == old(registered) - {dev};
      }
    }

    lemma NotPointedTo(dev: Device)
      requires Valid() && FindSlot(state.table, Some(dev)).None?
      ensures forall i | 0 <= i < devices.Length :: devices[i] != dev
    {
      forall i | 0 <= i < devices.Length ensures devices[i] != dev {
        assert PtrAt(state.table, i) != Some(dev);
      }
    }

    /** cuddlk_manager_add_device. */
    method AddDevice(dev: Device) returns (r: Result<()>)
      requires Valid() && dev.Managed() && forall i | 0 <= i < devices.Length :: devices[i] != dev
      modifies this`state, devices
      ensures Valid()
      ensures match FindSlot(old(state).table, None)
              case None => r == Err(ENOMEM) && state == old(state)
              case Some(i) => r == Ok(()) && state == old(state).(table := old(state).table[i := Some(dev.View())])
    {
      var slot := FindDeviceSlot(null);
      if slot.Err? { return Err(ENOMEM); }
      devices[slot.value] := dev;
      state := state.(table := state.table[slot.value := Some(dev.View())]);
      return Ok(());
    }

    /** cuddlk_manager_remove_device. */
    method RemoveDevice(dev: Device) returns (r: Result<()>)
      requires Valid()
      modifies this`state, devices
      ensures Valid()
      ensures match FindSlot(old(state).table, Some(dev))
              case None => r == Err(ENXIO) && state == old(state)
              case Some(i) => r == Ok(()) && state == old(state).(table := old(state).table[i := None])
    {
      var slot := FindDeviceSlot(dev);
      if slot.Err? { return Err(slot.error); }
      devices[slot.value] := null;
      state := state.(table := state.table[slot.value := None]);
      return Ok(());
    }

    /** cuddlk_device_release: unregisters the device whether or not it was in the table. */
    method ReleaseDeviceRequest(dev: Device, unregister: Option<Errno>) returns (r: Result<()>)
      requires Valid()
      modifies this`registered, this`state, devices
      ensures Valid() && (state, r) == ReleaseDevice(old(state), dev, unregister)
    {
      var removed := RemoveDevice(dev);
      Unregister(dev);
      if removed.Err? { return removed; }
      return if unregister.Some? then Err(unregister.value) else Ok(());
    }
  }

  /** The outcome of a registration. */
  function RegisterError(nameAlloc: bool, kernel: Option<Errno>): Option<Errno> {
    if !nameAlloc then Some(ENOMEM) else kernel
  }

  lemma StillLive(s: State, k: Kind, t: Token)
    requires s.Live(k, t)
    ensures var s' := Increment(s, k, t); s'.Live(k, t) && InfoOf(s', k, t) == InfoOf(s, k, t)
  {
    CountFrame(s.table, k, t, s.At(k, t).refCount + 1);
  }

  /** An open janitor device file; a process keeps one open from start to exit. */
  class JanitorFile {
    var privateData: Option<int>

    constructor ()
      ensures privateData == None
    {
      privateData := None;
    }

    /** The pid registration request. */
    method RegisterPid(pid: int, copyIn: bool, alloc: bool) returns (r: Result<()>)
      modifies this
      ensures r == if !copyIn then Err(EOVERFLOW) else if !alloc then Err(ENOMEM) else Ok(())
      ensures privateData == if !copyIn then old(privateData) else if !alloc then None else Some(pid)
    {
      if !copyIn { return Err(EOVERFLOW); }
      privateData := if alloc then Some(pid) else None;
      return if alloc then Ok(()) else Err(ENOMEM);
    }

    /** Closing the file cleans up after the registered process, if there is one. */
    method Close(m: Manager) returns (fault: bool)
      requires m.Valid()
      modifies m`pins, m`memRefs, m`eventRefs, m`state, m.devices[..]
      ensures m.Valid() && fault == (privateData.Some? && JanitorClose(old(m.state), privateData.value).None?)
      ensures privateData.None? ==> m.state == old(m.state)
      ensures privateData.Some? && !fault ==>
                && JanitorClose(old(m.state), privateData.value) == Some(m.state)
                && m.memRefs == Others(old(m.memRefs), privateData.value)
                && m.eventRefs == Others(old(m.eventRefs), privateData.value)
                && forall r | r in m.memRefs + m.eventRefs :: r.pid != privateData.value
    {
      if privateData.None? { return false; }
      ghost var before := m.state;
      fault := m.FreeRefsForPid(privateData.value);
      if !fault {
        Janitor.JanitorForgets(before, privateData.value);
        Janitor.OthersMembers(before.memRefs, privateData.value);
        Janitor.OthersMembers(before.eventRefs, privateData.value);
      }
    }
  }
}
