/** The device table over whole runs: registration, slots, and automatic instance numbers. */
module TableRuns {
  import opened Base
  import opened Devices
  import opened Lookup
  import opened Regions
  import opened InstanceScan
  import opened RefState
  import opened RefInvariant
  import opened Janitor
  import opened Runs

  /** In every run the registered devices are those in the table, each in one slot. */
  lemma RegistryMatchesTable(p: Policy, steps: seq<Step>, s: State)
    requires Reachable(p, steps, s)
    ensures s.registered == Occupants(s.table)
    ensures forall i, j | 0 <= i < j < |s.table| && s.table[i].Some? && s.table[j].Some? ::
              s.table[i].value.ptr != s.table[j].value.ptr
  {
    ReachableInv(p, steps, s);
  }

  /** dev is the device the driver handed over: its names, its own instance number or an
      automatic one below which all are taken, its owner or else this module, and its
      resources, not in use and with their lengths completed. */
  ghost predicate EnrolledAs(table: Table, d: Draft, m: Option<ModuleId>, dev: Dev) {
    && dev.ptr == d.ptr && Some(dev.group) == d.group && Some(dev.name) == d.name
    && (if d.instance != 0 then dev.instance == d.instance
        else 1 <= dev.instance <= MAX_MANAGED_DEVICES
             && forall n | 1 <= n < dev.instance :: InUse(table, dev.group, dev.name, n))
    && DevLoad(dev) == 0 && dev.events == d.events
    && dev.owner == (if d.owner.Some? then d.owner else m)
    && |dev.mem| == |d.mem|
    && forall i | 0 <= i < |dev.mem| ::
         dev.mem[i].(window := d.mem[i].window) == d.mem[i] && Completes(d.mem[i].window, dev.mem[i].window)
  }

  ghost predicate FillsOnly(before: Table, after: Table, d: Draft, m: Option<ModuleId>, i: nat) {
    && i < |before| == |after| && before[i].None? && after[i].Some? && EnrolledAs(before, d, m, after[i].value)
    && forall j | 0 <= j < |before| && j != i :: after[j] == before[j]
  }

  ghost predicate FillsFirstFree(before: Table, after: Table, d: Draft, m: Option<ModuleId>) {
    exists i: nat :: FillsOnly(before, after, d, m, i) && forall j: nat | j < i :: before[j].Some?
  }

  /** Why managing a device fails, if it does. */
  ghost function ManageError(table: Table, d: Draft, register: Option<Errno>): Option<Errno>
    requires |table| > 0
  {
    if d.group.None? || d.name.None? then Some(EINVAL)
    else if d.instance == 0 && LastSlotContinues(table, d.group.value, d.name.value) then Some(ENOMEM)
    else if register.Some? then register
    else if HasFreeSlot(table) then None
    else Some(ENOMEM)
  }

  /** A managed device gets the first free slot and leaves the others alone; a failed attempt
      changes nothing. */
  lemma ManageOutcome(p: Policy, steps: seq<Step>, s: State, d: Draft, m: Option<ModuleId>, register: Option<Errno>)
    requires Reachable(p, steps, s) && Allowed(p, s, ManageStep(d, m, register))
    ensures |s.table| == MAX_MANAGED_DEVICES
    ensures var (s', r) := Manage(s, d, m, register);
            match ManageError(s.table, d, register)
            case Some(e) => r == Err(e) && s' == s
            case None => r == Ok(()) && FillsFirstFree(s.table, s'.table, d, m)
                         && s' == s.(table := s'.table, registered := s.registered + {d.ptr})
  {
    ReachableInv(p, steps, s);
    ManageKeeps(p, s, LostAlong(Init(), steps), d, m, register);
    WhyManageFails(s, d, m, register);
    var (s', r) := Manage(s, d, m, register);
    if r.Ok? {
      var i := FindSlot(s.table, None).value;
      forall j: nat | j < i ensures s.table[j].Some? {
        assert PtrAt(s.table, j) != None;
      }
      EnrolledAsDrafted(s.table, d, ChooseInstance(s.table, d).value, m);
      assert FillsOnly(s.table, s'.table, d, m, i);
    }
  }

  lemma WhyManageFails(s: State, d: Draft, m: Option<ModuleId>, register: Option<Errno>)
    requires |s.table| > 0
    ensures var r := Manage(s, d, m, register).1;
            match ManageError(s.table, d, register) case Some(e) => r == Err(e) case None => r == Ok(())
  {
    if d.group.Some? && d.name.Some? && d.instance == 0 {
      ScanGivesUp(s.table, d.group.value, d.name.value);
      var best := ScanMeasuresLongestChain(s.table, d.group.value, d.name.value);
    }
    forall i: nat | i < |s.table| ensures PtrAt(s.table, i) == None <==> s.table[i].None? {
    }
  }

  lemma EnrolledAsDrafted(table: Table, d: Draft, instance: int, m: Option<ModuleId>)
    requires |table| == MAX_MANAGED_DEVICES && ChooseInstance(table, d) == Ok(instance)
    requires forall r | r in d.mem + d.events :: r.refCount == 0
    ensures EnrolledAs(table, d, m, Enrolled(d, instance, m))
  {
    if d.instance == 0 {
      var best := ScanMeasuresLongestChain(table, d.group.value, d.name.value);
      var last := ScanCollision(table, d.group.value, d.name.value);
    }
    var dev := Enrolled(d, instance, m);
    forall r | r in dev.mem ensures r.refCount == 0 {
      var i :| 0 <= i < |d.mem| && r == dev.mem[i];
      assert d.mem[i] in d.mem + d.events;
    }
    forall i | 0 <= i < |dev.mem| ensures Completes(d.mem[i].window, dev.mem[i].window) {
      DefaultCompletes(d.mem[i].window);
    }
    forall r | r in dev.events ensures r.refCount == 0 {
      assert r in d.mem + d.events;
    }
    TotalZero(dev.mem);
    TotalZero(dev.events);
  }

  /** The two slots are both empty, or hold the same device under the same names and owner. */
  predicate SameDevice(o: Option<Dev>, o': Option<Dev>) {
    if o.None? then o'.None?
    else o'.Some? && o'.value.ptr == o.value.ptr && o'.value.instance == o.value.instance
         && o'.value.group == o.value.group && o'.value.name == o.value.name && o'.value.owner == o.value.owner
  }

  lemma CountKeepsSlot(table: Table, k: Kind, t: Token, n: nat, i: nat)
    requires LiveIn(table, k, t) && i < |table|
    ensures SameDevice(table[i], SetCount(table, k, t, n)[i])
  {
  }

  lemma DecrementKeepsSlot(s: State, k: Kind, t: Token, i: nat)
    requires i < |s.table|
    ensures var s' := Decrement(s, k, t);
            |s'.table| == |s.table| && SameDevice(s.table[i], s'.table[i])
  {
    if s.Live(k, t) && s.At(k, t).refCount > 0 {
      CountKeepsSlot(s.table, k, t, s.At(k, t).refCount - 1, i);
    }
  }

  lemma ClaimOrInfoKeepsSlot(s: State, k: Kind, e: Entry, claim: bool, a: ClaimArgs, i: nat)
    requires i < |s.table|
    ensures var s' := ClaimOrInfo(s, k, e, claim, a).0;
            |s'.table| == |s.table| && SameDevice(s.table[i], s'.table[i])
  {
    ClaimOrInfoEffect(s, k, e, claim, a);
    var target := Target(s, k, e, a.query);
    if target.Ok? {
      DecrementKeepsSlot(s, k, target.value, i);
      CountKeepsSlot(s.table, k, target.value, s.At(k, target.value).refCount + 1, i);
    }
  }

  lemma ReleaseKeepsSlot(s: State, k: Kind, e: Entry, t: Token, pid: int, i: nat)
    requires i < |s.table|
    ensures var s' := Release(s, k, e, t, pid).0;
            |s'.table| == |s.table| && SameDevice(s.table[i], s'.table[i])
  {
    DecrementKeepsSlot(s, k, t, i);
  }

  lemma CountOrDecrementKeepsSlot(s: State, k: Kind, e: Entry, decrement: bool, q: Query, i: nat)
    requires i < |s.table|
    ensures var s' := CountOrDecrement(s, k, e, decrement, q).0;
            |s'.table| == |s.table| && SameDevice(s.table[i], s'.table[i])
  {
    var target := Target(s, k, e, q);
    if target.Ok? { DecrementKeepsSlot(s, k, target.value, i); }
  }

  lemma RequestKeepsSlot(s: State, step: Step, i: nat)
    requires IsRequest(step) && i < |s.table|
    ensures var s' := Apply(s, step).value;
            |s'.table| == |s.table| && SameDevice(s.table[i], s'.table[i])
  {
    match step
    case ClaimStep(k, e, a) => ClaimOrInfoKeepsSlot(s, k, e, true, a, i);
    case InfoStep(k, e, a) => ClaimOrInfoKeepsSlot(s, k, e, false, a, i);
    case ReleaseStep(k, e, t, pid) => ReleaseKeepsSlot(s, k, e, t, pid, i);
    case CountStep(k, e, q) => CountOrDecrementKeepsSlot(s, k, e, false, q, i);
    case ForcedDecrementStep(k, e, q) => CountOrDecrementKeepsSlot(s, k, e, true, q, i);
  }

  lemma JanitorKeepsSlot(s: State, pid: int, i: nat)
    requires SweepSafe(s, pid) && i < |s.table|
    ensures var s' := JanitorClose(s, pid).value;
            |s'.table| == |s.table| && SameDevice(s.table[i], s'.table[i])
  {
    DecrementAllKeepsSlots(s, Memory, s.memRefs, pid, i);
    var s1 := Sweep(s, Memory, pid);
    DecrementAllList(s, Memory, s.memRefs, pid);
    DecrementAllKeepsSlots(s1, EventSource, s1.eventRefs, pid, i);
  }

  /** Requests and the janitor leave every slot to its device. */
  lemma RestKeepsSlot(s: State, step: Step, i: nat)
    requires (IsRequest(step) || step.JanitorStep?) && i < |s.table| && Apply(s, step).Some?
    ensures var s' := Apply(s, step).value;
            |s'.table| == |s.table| && SameDevice(s.table[i], s'.table[i])
  {
    if step.JanitorStep? { JanitorKeepsSlot(s, step.pid, i); } else { RequestKeepsSlot(s, step, i); }
  }

  /** No step but its own release moves a device out of its slot or renames it. */
  lemma StepKeepsSlots(p: Policy, s: State, lost: multiset<ModuleId>, step: Step, i: nat)
    requires Inv(p, s, lost) && Allowed(p, s, step) && Apply(s, step).Some?
    requires i < |s.table| && s.table[i].Some?
    requires step.ReleaseDeviceStep? ==> step.ptr != s.table[i].value.ptr
    ensures var s' := Apply(s, step).value;
            |s'.table| == |s.table| && SameDevice(s.table[i], s'.table[i])
  {
    if IsRequest(step) || step.JanitorStep? {
      RestKeepsSlot(s, step, i);
    }
  }

  lemma {:induction false} DecrementAllKeepsSlots(s: State, k: Kind, refs: seq<Ref>, pid: int, i: nat)
    requires i < |s.table|
    ensures var s' := DecrementAll(s, k, refs, pid);
            |s'.table| == |s.table| && SameDevice(s.table[i], s'.table[i])
    decreases |refs|
  {
    if refs != [] {
      var s1 := if refs[0].pid == pid then Decrement(s, k, refs[0].token) else s;
      DecrementKeepsSlot(s, k, refs[0].token, i);
      DecrementAllKeepsSlots(s1, k, refs[1..], pid, i);
    }
  }

  /** A device stays in its slot through any run that does not release it. */
  lemma {:induction false} RunKeepsSlots(p: Policy, s: State, lost: multiset<ModuleId>,
                                         steps: seq<Step>, s': State, i: nat)
    requires Inv(p, s, lost) && IsRun(p, s, steps, s')
    requires i < |s.table| && s.table[i].Some?
    requires forall step | step in steps :: step.ReleaseDeviceStep? ==> step.ptr != s.table[i].value.ptr
    ensures |s'.table| == |s.table| && SameDevice(s.table[i], s'.table[i])
    decreases |steps|
  {
    if steps != [] {
      StepKeeps(p, s, lost, steps[0]);
      StepKeepsSlots(p, s, lost, steps[0], i);
      RunKeepsSlots(p, Apply(s, steps[0]).value, lost + LostBy(s, steps[0]), steps[1..], s', i);
    }
  }

  // ---------------------------------------------------------------------------------------
  // Automatic instance numbers where nothing leaves

  /** No device leaves, and every device asks for an automatic instance number. */
  predicate OnlyAutomatic(step: Step) {
    !step.ReleaseDeviceStep? && (step.ManageStep? ==> step.draft.instance == 0)
  }

  /** Slot i holds a device of this group and name. */
  predicate HasName(table: Table, group: string, name: string, i: nat) {
    MatchesAt(table, i, InstanceQuery(group, name, 0), None)
  }

  /** The table is filled from the front, and the instances of the group and name rise with
      the slots without leaving any out. */
  ghost predicate Numbered(table: Table, group: string, name: string) {
    && (forall i, j | 0 <= i < j < |table| && table[j].Some? :: table[i].Some?)
    && (forall i: nat, j: nat | i < j && HasName(table, group, name, i) && HasName(table, group, name, j) ::
          table[i].value.instance < table[j].value.instance)
    && (forall i: nat, n | HasName(table, group, name, i) && 1 <= n < table[i].value.instance ::
          InUse(table, group, name, n))
  }

  lemma SameDevicesStayNumbered(table: Table, table': Table, group: string, name: string)
    requires Numbered(table, group, name)
    requires |table'| == |table| && forall i | 0 <= i < |table| :: SameDevice(table[i], table'[i])
    ensures Numbered(table', group, name)
  {
    forall i: nat, n ensures HasInstance(table', group, name, i, n) <==> HasInstance(table, group, name, i, n) {
    }
    forall n | InUse(table, group, name, n) ensures InUse(table', group, name, n) {
      var i: nat :| HasInstance(table, group, name, i, n);
      assert HasInstance(table', group, name, i, n);
    }
    forall i: nat ensures HasName(table', group, name, i) <==> HasName(table, group, name, i) {
      assert HasInstance(table', group, name, i, 0) <==> HasInstance(table, group, name, i, 0);
    }
  }

  /** Groups and names that compare equal are searched for alike. */
  lemma SameNamesSameSearch(table: Table, g: string, n: string, g': string, n': string)
    requires SameName(g, g') && SameName(n, n') && g != "" && n != ""
    ensures g' != "" && n' != ""
    ensures forall i: nat, k :: HasInstance(table, g, n, i, k) <==> HasInstance(table, g', n', i, k)
    ensures forall i: nat :: HasName(table, g, n, i) <==> HasName(table, g', n', i)
    ensures forall k :: InUse(table, g, n, k) <==> InUse(table, g', n', k)
  {
    forall i: nat, k ensures HasInstance(table, g, n, i, k) <==> HasInstance(table, g', n', i, k) {
    }
    forall i: nat ensures HasName(table, g, n, i) <==> HasName(table, g', n', i) {
      assert HasInstance(table, g, n, i, 0) <==> HasInstance(table, g', n', i, 0);
    }
  }

  lemma NumberedIsOrdered(table: Table, g: string, n: string, g': string, n': string)
    requires g != "" && n != "" && SameName(g, g') && SameName(n, n') && Numbered(table, g, n)
    ensures InInstanceOrder(table, g', n')
  {
    SameNamesSameSearch(table, g, n, g', n');
    forall p: nat, q: nat | p < q && HasName(table, g', n', p) && HasName(table, g', n', q)
      ensures table[p].value.instance <= table[q].value.instance
    {
      assert HasName(table, g, n, p) && HasName(table, g, n, q);
    }
  }

  /** The instance chosen for a device of a numbered group and name is above all others. */
  lemma ChosenIsAbove(table: Table, g: string, n: string, g': string, n': string)
    requires |table| > 0 && g != "" && n != "" && SameName(g, g') && SameName(n, n')
    requires Numbered(table, g, n) && NextInstance(table, g', n').Ok?
    ensures var k := NextInstance(table, g', n').value;
            && (forall i: nat | HasName(table, g, n, i) :: table[i].value.instance < k)
            && (forall j | 1 <= j < k :: InUse(table, g, n, j))
  {
    SameNamesSameSearch(table, g, n, g', n');
    NumberedIsOrdered(table, g, n, g', n');
    OrderedScanIsLeastUnused(table, g', n');
    var k := NextInstance(table, g', n').value;
    forall i: nat | HasName(table, g, n, i) ensures table[i].value.instance < k {
      assert HasInstance(table, g, n, i, table[i].value.instance);
      assert InUse(table, g, n, table[i].value.instance);
    }
  }

  lemma InstallStaysNumbered(table: Table, g: string, n: string, i: nat, dev: Dev)
    requires g != "" && n != "" && Numbered(table, g, n)
    requires i < |table| && table[i].None? && forall j | 0 <= j < i :: table[j].Some?
    requires NextInstance(table, dev.group, dev.name) == Ok(dev.instance)
    ensures Numbered(table[i := Some(dev)], g, n)
  {
    var table' := table[i := Some(dev)];
    if SameName(dev.group, g) && SameName(dev.name, n) {
      ChosenIsAbove(table, g, n, dev.group, dev.name);
    }
    forall p: nat, k | p != i ensures HasInstance(table', g, n, p, k) <==> HasInstance(table, g, n, p, k) {
    }
    forall p: nat | p != i ensures HasName(table', g, n, p) <==> HasName(table, g, n, p) {
    }
    assert HasName(table', g, n, i) <==> SameName(dev.group, g) && SameName(dev.name, n);
    forall k | InUse(table, g, n, k) ensures InUse(table', g, n, k) {
      var p: nat :| HasInstance(table, g, n, p, k);
      assert HasInstance(table', g, n, p, k);
    }
  }

  lemma StepStaysNumbered(p: Policy, s: State, lost: multiset<ModuleId>, step: Step, g: string, n: string)
    requires Inv(p, s, lost) && Allowed(p, s, step) && Apply(s, step).Some?
    requires OnlyAutomatic(step) && g != "" && n != "" && Numbered(s.table, g, n)
    ensures Numbered(Apply(s, step).value.table, g, n)
  {
    var s' := Apply(s, step).value;
    if step.ManageStep? {
      var d := step.draft;
      if Manage(s, d, step.thisModule, step.register).1.Ok? {
        var i := FindSlot(s.table, None).value;
        forall j: nat | j < i ensures s.table[j].Some? {
          assert PtrAt(s.table, j) != None;
        }
        InstallStaysNumbered(s.table, g, n, i, Enrolled(d, ChooseInstance(s.table, d).value, step.thisModule));
      }
    } else {
      RestKeepsSlot(s, step, 0);
      forall i: nat | i < |s.table| ensures SameDevice(s.table[i], s'.table[i]) {
        RestKeepsSlot(s, step, i);
      }
      SameDevicesStayNumbered(s.table, s'.table, g, n);
    }
  }

  lemma {:induction false} RunStaysNumbered(p: Policy, s: State, lost: multiset<ModuleId>,
                                            steps: seq<Step>, s': State, g: string, n: string)
    requires Inv(p, s, lost) && IsRun(p, s, steps, s')
    requires forall step | step in steps :: OnlyAutomatic(step)
    requires g != "" && n != "" && Numbered(s.table, g, n)
    ensures Numbered(s'.table, g, n)
    decreases |steps|
  {
    if steps != [] {
      StepKeeps(p, s, lost, steps[0]);
      StepStaysNumbered(p, s, lost, steps[0], g, n);
      RunStaysNumbered(p, Apply(s, steps[0]).value, lost + LostBy(s, steps[0]), steps[1..], s', g, n);
    }
  }

  /** As long as no device leaves and all ask for automatic instances, the devices of a group
      and name sit in instance order, no two share an instance, and the next one chosen is
      unused as documented. */
  lemma AutomaticInstancesUnique(p: Policy, steps: seq<Step>, s: State, g: string, n: string)
    requires Reachable(p, steps, s) && g != "" && n != ""
    requires forall step | step in steps :: OnlyAutomatic(step)
    ensures |s.table| > 0 && InInstanceOrder(s.table, g, n)
    ensures forall i: nat, j: nat | i < j && HasName(s.table, g, n, i) && HasName(s.table, g, n, j) ::
              s.table[i].value.instance != s.table[j].value.instance
    ensures NextInstance(s.table, g, n).Ok? ==> !InUse(s.table, g, n, NextInstance(s.table, g, n).value)
  {
    InitInv(p);
    ReachableInv(p, steps, s);
    RunStaysNumbered(p, Init(), multiset{}, steps, s, g, n);
    assert InInstanceOrder(s.table, g, n) by {
      forall i: nat, j: nat | i < j && HasName(s.table, g, n, i) && HasName(s.table, g, n, j)
        ensures s.table[i].value.instance <= s.table[j].value.instance
      {
      }
    }
    if NextInstance(s.table, g, n).Ok? { OrderedScanIsLeastUnused(s.table, g, n); }
  }
}
