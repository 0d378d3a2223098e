/** Main results about every run of the device manager, from its empty state on. */
module Runs {
  import opened Base
  import opened Devices
  import opened Lookup
  import opened Regions
  import opened RefState
  import opened RefInvariant
  import opened RefSteps
  import opened Janitor

  // ---------------------------------------------------------------------------------------
  // One step

  /** The pins a step gives up for good. */
  ghost function LostBy(s: State, step: Step): multiset<ModuleId> {
    if step.ReleaseDeviceStep? && FindSlot(s.table, Some(step.ptr)).Some?
    then Abandoned(s.table[FindSlot(s.table, Some(step.ptr)).value].value)
    else multiset{}
  }

  /** A claim or info request does nothing, completes a claim, or (an info request whose reply
      could not be copied out) takes away a reference it never made. */
  lemma ClaimOrInfoEffect(s: State, k: Kind, e: Entry, claim: bool, a: ClaimArgs)
    ensures var (s', r) := ClaimOrInfo(s, k, e, claim, a);
            var target := Target(s, k, e, a.query);
            if r.Ok? && claim then
              target.Ok? && !Busy(s, k, target.value, a.hostile) && s' == Acquire(s, k, target.value, a.pid)
            else if !claim && target.Ok? && !a.copyOut then
              s' == Decrement(s, k, target.value) && r == Err(EOVERFLOW)
            else s' == s
  {
    var target := Target(s, k, e, a.query);
    if target.Ok? { DecrementUndoesIncrement(s, k, target.value); }
  }

  lemma ManageKeeps(p: Policy, s: State, lost: multiset<ModuleId>, d: Draft, m: Option<ModuleId>,
                    register: Option<Errno>)
    requires Inv(p, s, lost) && Allowed(p, s, ManageStep(d, m, register))
    ensures Inv(p, Manage(s, d, m, register).0, lost)
    ensures Manage(s, d, m, register).1.Err? ==> Manage(s, d, m, register).0 == s
  {
    NotInTable(s.table, d.ptr);
    var instance := ChooseInstance(s.table, d);
    var slot := FindSlot(s.table, None);
    if instance.Ok? && register.None? {
      if slot.None? {
        assert s.registered - {d.ptr} == s.registered;
      } else {
        var dev := Enrolled(d, instance.value, m);
        forall r | r in dev.mem + dev.events
          ensures r.refCount == 0 && (p.covered && r in dev.mem ==> InsideMapping(r.window))
        {
          if r in dev.mem {
            var i :| 0 <= i < |d.mem| && r == dev.mem[i];
            assert d.mem[i] in d.mem + d.events;
            DefaultCovers(d.mem[i].window);
          } else {
            assert r in d.mem + d.events;
          }
        }
        InstallKeeps(p, s, lost, slot.value, dev);
      }
    }
  }

  lemma NotInTable(table: Table, ptr: Device)
    ensures FindSlot(table, Some(ptr)).None? <==> ptr !in Occupants(table)
  {
    if ptr in Occupants(table) {
      var i :| 0 <= i < |table| && table[i].Some? && table[i].value.ptr == ptr;
      assert PtrAt(table, i) == Some(ptr);
    }
  }

  lemma ReleaseDeviceKeeps(p: Policy, s: State, lost: multiset<ModuleId>, ptr: Device, unregister: Option<Errno>)
    requires Inv(p, s, lost) && Allowed(p, s, ReleaseDeviceStep(ptr, unregister))
    ensures Inv(p, ReleaseDevice(s, ptr, unregister).0, lost + LostBy(s, ReleaseDeviceStep(ptr, unregister)))
  {
    NotInTable(s.table, ptr);
    var slot := FindSlot(s.table, Some(ptr));
    if slot.None? {
      assert s.registered - {ptr} == s.registered;
    } else {
      EvictKeeps(p, s, lost, slot.value);
    }
  }

  lemma ReleaseKeeps(p: Policy, s: State, lost: multiset<ModuleId>, k: Kind, e: Entry, t: Token, pid: int)
    requires Inv(p, s, lost) && Allowed(p, s, ReleaseStep(k, e, t, pid))
    ensures Inv(p, Release(s, k, e, t, pid).0, lost)
  {
    if Release(s, k, e, t, pid).1.Ok? {
      DropKeeps(p, s, lost, k, t, pid);
    }
  }

  lemma ClaimOrInfoKeeps(p: Policy, s: State, lost: multiset<ModuleId>, k: Kind, e: Entry, claim: bool, a: ClaimArgs)
    requires Inv(p, s, lost)
    requires p.disciplined && !claim ==> a.copyOut
    requires p.peaceful && claim ==> !a.hostile
    ensures Inv(p, ClaimOrInfo(s, k, e, claim, a).0, lost)
  {
    ClaimOrInfoEffect(s, k, e, claim, a);
    var target := Target(s, k, e, a.query);
    if ClaimOrInfo(s, k, e, claim, a).1.Ok? && claim {
      AcquireKeeps(p, s, lost, k, target.value, a.pid);
    } else if !claim && target.Ok? && !a.copyOut {
      DecrementKeeps(p, s, lost, k, target.value);
    }
  }

  lemma CountOrDecrementKeeps(p: Policy, s: State, lost: multiset<ModuleId>, k: Kind, e: Entry,
                              decrement: bool, q: Query)
    requires Inv(p, s, lost) && (p.disciplined ==> !decrement)
    ensures Inv(p, CountOrDecrement(s, k, e, decrement, q).0, lost)
  {
    var target := Target(s, k, e, q);
    if decrement && target.Ok? {
      DecrementKeeps(p, s, lost, k, target.value);
    }
  }

  lemma StepKeeps(p: Policy, s: State, lost: multiset<ModuleId>, step: Step)
    requires Inv(p, s, lost) && Allowed(p, s, step) && Apply(s, step).Some?
    ensures Inv(p, Apply(s, step).value, lost + LostBy(s, step))
  {
    assert lost + multiset{} == lost;
    match step
    case ClaimStep(k, e, a) => ClaimOrInfoKeeps(p, s, lost, k, e, true, a);
    case InfoStep(k, e, a) => ClaimOrInfoKeeps(p, s, lost, k, e, false, a);
    case ReleaseStep(k, e, t, pid) => ReleaseKeeps(p, s, lost, k, e, t, pid);
    case CountStep(k, e, q) => CountOrDecrementKeeps(p, s, lost, k, e, false, q);
    case ForcedDecrementStep(k, e, q) => CountOrDecrementKeeps(p, s, lost, k, e, true, q);
    case JanitorStep(pid) => JanitorKeeps(p, s, lost, pid);
    case ManageStep(d, m, register) => ManageKeeps(p, s, lost, d, m, register);
    case ReleaseDeviceStep(ptr, unregister) => ReleaseDeviceKeeps(p, s, lost, ptr, unregister);
  }

  // ---------------------------------------------------------------------------------------
  // All runs

  /** The pins given up along a run. */
  ghost function LostAlong(s: State, steps: seq<Step>): multiset<ModuleId>
    decreases |steps|
  {
    if steps == [] || |s.table| == 0 || Apply(s, steps[0]).None? then multiset{}
    else LostBy(s, steps[0]) + LostAlong(Apply(s, steps[0]).value, steps[1..])
  }

  lemma {:induction false} RunKeeps(p: Policy, s: State, lost: multiset<ModuleId>, steps: seq<Step>, s': State)
    requires Inv(p, s, lost) && IsRun(p, s, steps, s')
    ensures Inv(p, s', lost + LostAlong(s, steps))
    decreases |steps|
  {
    if steps == [] {
      assert lost + multiset{} == lost;
    } else {
      var s1 := Apply(s, steps[0]).value;
      StepKeeps(p, s, lost, steps[0]);
      RunKeeps(p, s1, lost + LostBy(s, steps[0]), steps[1..], s');
      assert lost + LostBy(s, steps[0]) + LostAlong(s1, steps[1..]) == lost + LostAlong(s, steps);
    }
  }

  lemma InitInv(p: Policy)
    ensures Inv(p, Init(), multiset{})
  {
    forall m: ModuleId ensures Load(Init().table, m) == 0 {
      LoadEmpty(Init().table, m);
    }
  }

  ghost predicate Reachable(p: Policy, steps: seq<Step>, s: State) {
    IsRun(p, Init(), steps, s)
  }

  lemma ReachableInv(p: Policy, steps: seq<Step>, s: State)
    requires Reachable(p, steps, s)
    ensures Inv(p, s, LostAlong(Init(), steps))
  {
    InitInv(p);
    RunKeeps(p, Init(), multiset{}, steps, s);
    assert multiset{} + LostAlong(Init(), steps) == LostAlong(Init(), steps);
  }

  /** One more step at the end of a run. */
  lemma {:induction false} AppendStep(p: Policy, s: State, steps: seq<Step>, s1: State, step: Step)
    requires IsRun(p, s, steps, s1)
    requires |s1.table| > 0 && Allowed(p, s1, step) && Apply(s1, step).Some?
    ensures IsRun(p, s, steps + [step], Apply(s1, step).value)
    decreases |steps|
  {
    var all := steps + [step];
    if steps == [] {
      assert all[1..] == [];
    } else {
      AppendStep(p, Apply(s, steps[0]).value, steps[1..], s1, step);
      assert all[1..] == steps[1..] + [step];
    }
  }

  /** A run that keeps to stricter assumptions keeps to laxer ones. */
  lemma {:induction false} RunUnderLaxerPolicy(p: Policy, p': Policy, s: State, steps: seq<Step>, s': State)
    requires IsRun(p, s, steps, s')
    requires (p'.disciplined ==> p.disciplined) && (p'.peaceful ==> p.peaceful) && (p'.covered ==> p.covered)
    ensures IsRun(p', s, steps, s')
    decreases |steps|
  {
    if steps != [] {
      RunUnderLaxerPolicy(p, p', Apply(s, steps[0]).value, steps[1..], s');
    }
  }
}
