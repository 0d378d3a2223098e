/** Inputs and runs on which the code does not do what it is documented to do. */
module Witnesses {
  import opened Base
  import opened Devices
  import opened Lookup
  import opened InstanceScan
  import opened RefState
  import opened RefInvariant
  import opened Runs
  import opened Guarantees

  // ---------------------------------------------------------------------------------------
  // Runs of managing and releasing devices

  /** A device of group "g"; instance 0 asks for an automatic number. */
  function PlainDraft(ptr: Device, name: string, instance: int, mem: seq<Resource>, events: seq<Resource>): Draft {
    Draft(ptr, Some("g"), Some(name), instance, mem, events, Some(0))
  }

  function PlainDev(ptr: Device, name: string, instance: int, mem: seq<Resource>, events: seq<Resource>): Dev {
    Dev(ptr, "g", name, instance, DefaultRegions(mem), events, Some(0))
  }

  function ManagePlain(ptr: Device, name: string, instance: int, mem: seq<Resource>, events: seq<Resource>): Step {
    ManageStep(PlainDraft(ptr, name, instance, mem, events), None, None)
  }

  /** Resources a driver may hand over. */
  ghost predicate IdleResources(mem: seq<Resource>, events: seq<Resource>) {
    && |mem| == MAX_DEV_MEM_REGIONS && |events| == MAX_DEV_EVENTS
    && forall r | r in mem + events :: r.refCount == 0
  }

  /** Disciplined and without hostile claims. */
  const GOOD: Policy := Policy(true, true, false)

  /** Managing such a device once its slot and its instance are known. */
  lemma ManagePlainStep(steps: seq<Step>, s: State, ptr: Device, name: string, instance: int,
                        mem: seq<Resource>, events: seq<Resource>, i: nat, n: int)
    requires Reachable(GOOD, steps, s) && IdleResources(mem, events)
    requires |s.table| == MAX_MANAGED_DEVICES && ptr !in Occupants(s.table)
    requires if instance != 0 then n == instance else NextInstance(s.table, "g", name) == Ok(n)
    requires i < |s.table| && s.table[i].None? && forall j | 0 <= j < i :: s.table[j].Some?
    ensures Reachable(GOOD, steps + [ManagePlain(ptr, name, instance, mem, events)],
                      s.(table := s.table[i := Some(PlainDev(ptr, name, n, mem, events))],
                         registered := s.registered + {ptr}))
  {
    var step := ManagePlain(ptr, name, instance, mem, events);
    NotInTable(s.table, ptr);
    assert PtrAt(s.table, i) == None && forall j: nat | j < i :: PtrAt(s.table, j) != None;
    assert FindSlot(s.table, None) == Some(i);
    AppendStep(GOOD, Init(), steps, s, step);
  }

  /** Releasing a device whose slot is known, while nothing is pinned. */
  lemma ReleasePlainStep(steps: seq<Step>, s: State, i: nat)
    requires Reachable(GOOD, steps, s) && s.pins == multiset{}
    requires i < |s.table| && s.table[i].Some? && s.table[i].value.owner.Some?
    requires forall j | 0 <= j < |s.table| && j != i && s.table[j].Some? :: s.table[j].value.ptr != s.table[i].value.ptr
    ensures Reachable(GOOD, steps + [ReleaseDeviceStep(s.table[i].value.ptr, None)],
                      s.(table := s.table[i := None], registered := s.registered - {s.table[i].value.ptr}))
  {
    var ptr := s.table[i].value.ptr;
    assert PtrAt(s.table, i) == Some(ptr) && forall j: nat | j < i :: PtrAt(s.table, j) != Some(ptr);
    assert FindSlot(s.table, Some(ptr)) == Some(i);
    AppendStep(GOOD, Init(), steps, s, ReleaseDeviceStep(ptr, None));
  }

  /** A first device, named "x". */
  lemma OneDevice(x: Device, mem: seq<Resource>, events: seq<Resource>) returns (s: State)
    requires IdleResources(mem, events)
    ensures Reachable(GOOD, [ManagePlain(x, "x", 0, mem, events)], s)
    ensures s == Init().(table := Init().table[0 := Some(PlainDev(x, "x", 1, mem, events))], registered := {x})
  {
    assert FindDevice(Init().table, InstanceQuery("g", "x", 1), None, 0) == None;
    ManagePlainStep([], Init(), x, "x", 0, mem, events, 0, 1);
    s := Init().(table := Init().table[0 := Some(PlainDev(x, "x", 1, mem, events))], registered := {x});
    assert Init().registered + {x} == {x};
  }

  /** Two devices in the first two slots, each the first of its name. */
  lemma TwoDevices(x: Device, memX: seq<Resource>, a: Device, memA: seq<Resource>, events: seq<Resource>)
    returns (s: State)
    requires x != a && IdleResources(memX, events) && IdleResources(memA, events)
    ensures Reachable(GOOD, [ManagePlain(x, "x", 0, memX, events), ManagePlain(a, "a", 0, memA, events)], s)
    ensures s == Init().(table := Init().table[0 := Some(PlainDev(x, "x", 1, memX, events))]
                                              [1 := Some(PlainDev(a, "a", 1, memA, events))],
                         registered := {x, a})
  {
    var s1 := OneDevice(x, memX, events);
    var step1 := ManagePlain(x, "x", 0, memX, events);
    assert !HasInstance(s1.table, "g", "a", 0, 1);
    assert FindDevice(s1.table, InstanceQuery("g", "a", 1), None, 0) == None;
    ManagePlainStep([step1], s1, a, "a", 0, memA, events, 1, 1);
    var step2 := ManagePlain(a, "a", 0, memA, events);
    assert [step1] + [step2] == [step1, step2] && {x} + {a} == {x, a};
    s := s1.(table := s1.table[1 := Some(PlainDev(a, "a", 1, memA, events))], registered := {x, a});
  }

  // ---------------------------------------------------------------------------------------
  // A lookup that misses

  /** A run after which a lookup with an empty resource name reports that there is none,
      although a device in the table has one. */
  lemma LookupMissesInRun(x: Device, bare: seq<Resource>, a: Device, full: seq<Resource>, events: seq<Resource>)
    returns (s: State)
    requires x != a && IdleResources(bare, events) && IdleResources(full, events)
    requires (forall r | r in bare :: r.name.None?) && full[0].name.Some?
    ensures Reachable(GOOD, [ManagePlain(x, "x", 0, bare, events), ManagePlain(a, "a", 0, full, events)], s)
    ensures Satisfies(s.table, Query("", "", "", 0), Memory, Token(1, 0))
    ensures Locate(s.table, Query("", "", "", 0), Memory) == Err(ENXIO)
  {
    s := TwoDevices(x, bare, a, full, events);
    var mem := s.table[0].value.mem;
    forall r | r in mem ensures r.name.None? {
      var i :| 0 <= i < |mem| && r == mem[i];
      assert bare[i] in bare;
    }
    BareDeviceHidesLaterMatch(s.table);
  }

  // ---------------------------------------------------------------------------------------
  // Instance numbers are not unique

  /** With one device of the group and name, instance 1 in slot 1, below which instance 1 is
      not found and above which there is nothing, the scan answers 2. */
  lemma ScanSkipsSlotZero(table: Table, group: string, name: string)
    requires |table| == MAX_MANAGED_DEVICES
    requires HasInstance(table, group, name, 1, 1) && !HasInstance(table, group, name, 0, 1)
    requires forall i | 2 <= i < |table| :: table[i].None?
    ensures NextInstance(table, group, name) == Ok(2)
  {
    assert FindDevice(table, InstanceQuery(group, name, 1), None, 0) == Some(1);
    assert FindDevice(table, InstanceQuery(group, name, 2), None, 2) == None;
    assert ScanFrom(table, group, name, 2, 2) == Ok(2);
  }

  /** After another device has left slot 0, two devices managed with automatic instances end
      up with the same group, name and instance, in a run that is otherwise well-behaved. */
  lemma AutomaticInstancesCollide(x: Device, a: Device, b: Device, c: Device, mem: seq<Resource>, events: seq<Resource>)
    returns (s: State)
    requires x != a && x != b && x != c && a != b && a != c && b != c && IdleResources(mem, events)
    ensures Reachable(GOOD, [ManagePlain(x, "x", 0, mem, events), ManagePlain(a, "a", 0, mem, events),
                             ReleaseDeviceStep(x, None),
                             ManagePlain(b, "a", 0, mem, events), ManagePlain(c, "a", 0, mem, events)], s)
    ensures |s.table| == MAX_MANAGED_DEVICES
    ensures s.table[0] == Some(PlainDev(b, "a", 2, mem, events))
    ensures s.table[2] == Some(PlainDev(c, "a", 2, mem, events))
  {
    var s2 := TwoDevices(x, mem, a, mem, events);
    var steps := [ManagePlain(x, "x", 0, mem, events), ManagePlain(a, "a", 0, mem, events)];
    ReleasePlainStep(steps, s2, 0);
    var s3 := s2.(table := s2.table[0 := None], registered := s2.registered - {x});
    ScanSkipsSlotZero(s3.table, "g", "a");
    steps := steps + [ReleaseDeviceStep(x, None)];
    ManagePlainStep(steps, s3, b, "a", 0, mem, events, 0, 2);
    var s4 := s3.(table := s3.table[0 := Some(PlainDev(b, "a", 2, mem, events))], registered := s3.registered + {b});
    ScanSkipsSlotZero(s4.table, "g", "a");
    steps := steps + [ManagePlain(b, "a", 0, mem, events)];
    ManagePlainStep(steps, s4, c, "a", 0, mem, events, 2, 2);
    s := s4.(table := s4.table[2 := Some(PlainDev(c, "a", 2, mem, events))], registered := s4.registered + {c});
    assert steps + [ManagePlain(c, "a", 0, mem, events)]
        == [ManagePlain(x, "x", 0, mem, events), ManagePlain(a, "a", 0, mem, events), ReleaseDeviceStep(x, None),
            ManagePlain(b, "a", 0, mem, events), ManagePlain(c, "a", 0, mem, events)];
  }

  // ---------------------------------------------------------------------------------------
  // No instance number although slots are free

  /** All slots but the last, filled with devices of another name. */
  function Fillers(ptrs: seq<Device>, n: nat, mem: seq<Resource>, events: seq<Resource>): seq<Step>
    requires n <= |ptrs|
  {
    seq(n, i requires 0 <= i < n => ManagePlain(ptrs[i], "x", 1, mem, events))
  }

  function Drain(ptrs: seq<Device>, n: nat): seq<Step>
    requires n <= |ptrs|
  {
    seq(n, i requires 0 <= i < n => ReleaseDeviceStep(ptrs[i], None))
  }

  ghost predicate Distinct(ptrs: seq<Device>) {
    forall i, j | 0 <= i < j < |ptrs| :: ptrs[i] != ptrs[j]
  }

  lemma {:induction false} FillSlots(ptrs: seq<Device>, n: nat, mem: seq<Resource>, events: seq<Resource>)
    returns (s: State)
    requires Distinct(ptrs) && n <= |ptrs| <= MAX_MANAGED_DEVICES && IdleResources(mem, events)
    ensures Reachable(GOOD, Fillers(ptrs, n, mem, events), s)
    ensures s.pins == multiset{} && |s.table| == MAX_MANAGED_DEVICES
    ensures forall i | 0 <= i < |s.table| ::
              s.table[i] == if i < n then Some(PlainDev(ptrs[i], "x", 1, mem, events)) else None
  {
    if n == 0 {
      s := Init();
    } else {
      var s1 := FillSlots(ptrs, n - 1, mem, events);
      var ptr := ptrs[n - 1];
      ManagePlainStep(Fillers(ptrs, n - 1, mem, events), s1, ptr, "x", 1, mem, events, n - 1, 1);
      s := s1.(table := s1.table[n - 1 := Some(PlainDev(ptr, "x", 1, mem, events))],
               registered := s1.registered + {ptr});
      assert Fillers(ptrs, n, mem, events)
          == Fillers(ptrs, n - 1, mem, events) + [ManagePlain(ptr, "x", 1, mem, events)];
    }
  }

  lemma {:induction false} DrainSlots(ptrs: seq<Device>, n: nat, steps: seq<Step>, s: State) returns (s': State)
    requires Distinct(ptrs) && n < |ptrs| == |s.table| && Reachable(GOOD, steps, s) && s.pins == multiset{}
    requires forall i | 0 <= i < |s.table| ::
               s.table[i].Some? && s.table[i].value.ptr == ptrs[i] && s.table[i].value.owner.Some?
    ensures Reachable(GOOD, steps + Drain(ptrs, n), s') && s'.pins == multiset{}
    ensures |s'.table| == |s.table|
    ensures forall i | 0 <= i < |s.table| :: s'.table[i] == if i < n then None else s.table[i]
  {
    if n == 0 {
      assert steps + Drain(ptrs, 0) == steps;
      s' := s;
    } else {
      var s1 := DrainSlots(ptrs, n - 1, steps, s);
      ReleasePlainStep(steps + Drain(ptrs, n - 1), s1, n - 1);
      s' := s1.(table := s1.table[n - 1 := None], registered := s1.registered - {ptrs[n - 1]});
      assert steps + Drain(ptrs, n - 1) + [ReleaseDeviceStep(ptrs[n - 1], None)] == steps + Drain(ptrs, n);
    }
  }

  /** The table is filled, a device with an automatic instance comes to sit in the last slot,
      and all others leave. */
  function FillAndDrain(ptrs: seq<Device>, mem: seq<Resource>, events: seq<Resource>): seq<Step>
    requires |ptrs| == MAX_MANAGED_DEVICES
  {
    var last := MAX_MANAGED_DEVICES - 1;
    Fillers(ptrs, last, mem, events) + [ManagePlain(ptrs[last], "a", 0, mem, events)] + Drain(ptrs, last)
  }

  /** A run after which 255 slots are free and yet managing a second device of the name fails
      for want of an instance number. */
  lemma NoInstanceWithFreeSlots(ptrs: seq<Device>, b: Device, mem: seq<Resource>, events: seq<Resource>)
    returns (s: State)
    requires |ptrs| == MAX_MANAGED_DEVICES && Distinct(ptrs) && IdleResources(mem, events)
    ensures Reachable(GOOD, FillAndDrain(ptrs, mem, events), s)
    ensures |s.table| == MAX_MANAGED_DEVICES && forall i | 0 <= i < MAX_MANAGED_DEVICES - 1 :: s.table[i].None?
    ensures Manage(s, PlainDraft(b, "a", 0, mem, events), None, None) == (s, Err(ENOMEM))
  {
    var last: nat := MAX_MANAGED_DEVICES - 1;
    var s1 := FillSlots(ptrs, last, mem, events);
    var fill := Fillers(ptrs, last, mem, events);
    forall i: nat | i < last ensures !HasInstance(s1.table, "g", "a", i, 1) {
      assert s1.table[i] == Some(PlainDev(ptrs[i], "x", 1, mem, events));
    }
    assert FindDevice(s1.table, InstanceQuery("g", "a", 1), None, 0) == None by {
      assert forall i: nat :: HasInstance(s1.table, "g", "a", i, 1) ==> i < last;
    }
    ManagePlainStep(fill, s1, ptrs[last], "a", 0, mem, events, last, 1);
    var s2 := s1.(table := s1.table[last := Some(PlainDev(ptrs[last], "a", 1, mem, events))],
                  registered := s1.registered + {ptrs[last]});
    s := DrainSlots(ptrs, last, fill + [ManagePlain(ptrs[last], "a", 0, mem, events)], s2);
    LoneLastDeviceExhaustsScan(s.table, "g", "a");
  }

  // ---------------------------------------------------------------------------------------
  // How exclusive use is lost without a hostile claim

  /** Where a resource is held exclusively, an ordinary claim is turned away; after one info
      request whose reply cannot be copied out, the same claim is let in. */
  lemma FailedInfoAdmitsClaim(s: State, k: Kind, e: Entry, a: ClaimArgs, claim: ClaimArgs)
    requires Target(s, k, e, a.query).Ok? && !a.copyOut
    requires claim.query == a.query && !claim.hostile && claim.copyOut && claim.alloc
    requires var t := Target(s, k, e, a.query).value; s.At(k, t).refCount == 1 && !s.At(k, t).shared
    ensures var t := Target(s, k, e, a.query).value;
            var s1 := ClaimOrInfo(s, k, e, false, a).0;
            var (s2, r) := ClaimOrInfo(s1, k, e, true, claim);
            && ClaimOrInfo(s, k, e, true, claim) == (s, Err(EBUSY))
            && r.Ok? && s2.Refs(k) == [Ref(t, claim.pid)] + s.Refs(k)
            && s2.Live(k, t) && !s2.At(k, t).shared
  {
    var t := Target(s, k, e, a.query).value;
    var s1 := Decrement(s, k, t);
    CountFrame(s.table, k, t, 0);
    LocateIgnoresCounts(s.table, k, t, 0, a.query);
    assert s1.Refs(k) == s.Refs(k) && s1.At(k, t).refCount == 0;
    assert Target(s1, k, e, a.query) == Ok(t);
    CountFrame(s1.table, k, t, 1);
  }

  /** Two different processes have entries for the token. */
  ghost predicate HeldByTwo(refs: seq<Ref>, t: Token) {
    exists r, r' :: r in refs && r' in refs && r.token == r'.token == t && r.pid != r'.pid
  }

  /** From any reachable state where a resource that is not shared has its one reference, and
      with a process that has no entry for it, a run without hostile claims leads on to that
      process and the former holder both having entries; without the failed info reply the
      claim would have been turned away. */
  lemma FailedInfoAdmitsSecondHolder(p: Policy, steps: seq<Step>, s: State, k: Kind, e: Entry, a: ClaimArgs,
                                     claim: ClaimArgs)
    returns (s2: State)
    requires Reachable(p, steps, s) && Target(s, k, e, a.query).Ok? && !a.copyOut
    requires claim.query == a.query && !claim.hostile && claim.copyOut && claim.alloc
    requires var t := Target(s, k, e, a.query).value;
             && s.At(k, t).refCount == 1 && !s.At(k, t).shared
             && forall r | r in s.Refs(k) && r.token == t :: r.pid != claim.pid
    ensures ClaimOrInfo(s, k, e, true, claim) == (s, Err(EBUSY))
    ensures Reachable(p.(disciplined := false), steps + [InfoStep(k, e, a)] + [ClaimStep(k, e, claim)], s2)
    ensures var t := Target(s, k, e, a.query).value;
            HeldByTwo(s2.Refs(k), t) && s2.Live(k, t) && !s2.At(k, t).shared
  {
    var p', t := p.(disciplined := false), Target(s, k, e, a.query).value;
    FailedInfoAdmitsClaim(s, k, e, a, claim);
    CountsBounded(p, steps, s, k, t);
    HeldMember(s.Refs(k), t);
    ReachableInv(p, steps, s);
    RunUnderLaxerPolicy(p, p', Init(), steps, s);
    AppendStep(p', Init(), steps, s, InfoStep(k, e, a));
    var s1 := Apply(s, InfoStep(k, e, a)).value;
    ReachableInv(p', steps + [InfoStep(k, e, a)], s1);
    AppendStep(p', Init(), steps + [InfoStep(k, e, a)], s1, ClaimStep(k, e, claim));
    s2 := Apply(s1, ClaimStep(k, e, claim)).value;
    var r :| r in s.Refs(k) && r.token == t;
    assert r in s2.Refs(k) && Ref(t, claim.pid) == s2.Refs(k)[0];
  }

  lemma FirstRegionFound(s: State, x: Device, mem: seq<Resource>, events: seq<Resource>)
    requires |s.table| > 0 && s.table[0] == Some(PlainDev(x, "x", 1, mem, events))
    requires IdleResources(mem, events) && mem[0].name.Some?
    ensures Locate(s.table, Query("", "", "", 0), Memory) == Ok(Token(0, 0))
  {
    var q := Query("", "", "", 0);
    assert MatchesAt(s.table, 0, q, Some(Memory));
    assert FindDevice(s.table, q, Some(Memory), 0) == Some(0);
    assert Named(DefaultRegions(mem)[0], "");
    assert FindResource(DefaultRegions(mem), "") == Some(0);
  }

  /** A claim at the end of a run, of a resource without references. */
  lemma ClaimStepFree(steps: seq<Step>, s: State, k: Kind, e: Entry, a: ClaimArgs) returns (s': State)
    requires Reachable(GOOD, steps, s) && Target(s, k, e, a.query).Ok?
    requires !a.hostile && a.copyOut && a.alloc && s.At(k, Target(s, k, e, a.query).value).refCount == 0
    ensures Reachable(GOOD, steps + [ClaimStep(k, e, a)], s')
    ensures var t := Target(s, k, e, a.query).value;
            && s'.Refs(k) == [Ref(t, a.pid)] + s.Refs(k) && Target(s', k, e, a.query) == Ok(t)
            && s'.At(k, t) == s.At(k, t).(refCount := 1)
  {
    var t := Target(s, k, e, a.query).value;
    ReachableInv(GOOD, steps, s);
    AppendStep(GOOD, Init(), steps, s, ClaimStep(k, e, a));
    s' := Apply(s, ClaimStep(k, e, a)).value;
    CountFrame(s.table, k, t, 1);
    LocateIgnoresCounts(s.table, k, t, 1, a.query);
  }

  /** Such a run in full: a device whose first region is named and not shared ends up with two
      processes holding that region. */
  lemma TwoHoldersInRun(x: Device, mem: seq<Resource>, events: seq<Resource>) returns (s: State)
    requires IdleResources(mem, events) && mem[0].name.Some? && !mem[0].shared
    ensures var any, good := Query("", "", "", 0), Entry(true, 0x10000);
            Reachable(Policy(false, true, false),
                      [ManagePlain(x, "x", 0, mem, events),
                       ClaimStep(Memory, good, ClaimArgs(any, 1, false, true, true)),
                       InfoStep(Memory, good, ClaimArgs(any, 2, false, false, true)),
                       ClaimStep(Memory, good, ClaimArgs(any, 2, false, true, true))], s)
    ensures HeldByTwo(s.memRefs, Token(0, 0))
    ensures s.Live(Memory, Token(0, 0)) && !s.At(Memory, Token(0, 0)).shared
  {
    var any, good, t := Query("", "", "", 0), Entry(true, 0x10000), Token(0, 0);
    var manage := ManagePlain(x, "x", 0, mem, events);
    var claim1 := ClaimStep(Memory, good, ClaimArgs(any, 1, false, true, true));
    var info := InfoStep(Memory, good, ClaimArgs(any, 2, false, false, true));
    var claim2 := ClaimStep(Memory, good, ClaimArgs(any, 2, false, true, true));
    var s1 := OneDevice(x, mem, events);
    assert mem[0] in mem + events;
    FirstRegionFound(s1, x, mem, events);
    var s2 := ClaimStepFree([manage], s1, Memory, good, claim1.args);
    s := FailedInfoAdmitsSecondHolder(GOOD, [manage] + [claim1], s2, Memory, good, info.args, claim2.args);
    assert [manage] + [claim1] + [info] + [claim2] == [manage, claim1, info, claim2];
  }
}
