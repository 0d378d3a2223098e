/** The device manager as a state machine. Every request runs under the global mutex, so each
    is one step. Outcomes of copies, allocations and registrations are inputs of a step. */
module RefState {
  import opened Base
  import opened Devices
  import opened Lookup
  import opened InstanceScan
  import opened Regions

  /** One entry of a reference list: who claimed what. */
  datatype Ref = Ref(token: Token, pid: int)

  /** pins holds each owner module once for every time the manager has taken a reference on
      it; registered are the devices currently registered with the kernel. */
  datatype State = State(
    table: Table,
    memRefs: seq<Ref>,
    eventRefs: seq<Ref>,
    pins: multiset<ModuleId>,
    registered: set<Device>)
  {
    function Refs(k: Kind): seq<Ref> {
      if k.Memory? then memRefs else eventRefs
    }

    function WithRefs(k: Kind, refs: seq<Ref>): State {
      if k.Memory? then this.(memRefs := refs) else this.(eventRefs := refs)
    }

    predicate Live(k: Kind, t: Token) {
      LiveIn(table, k, t)
    }

    function At(k: Kind, t: Token): Resource
      requires Live(k, t)
    {
      ResourceAt(table, k, t)
    }

    /** The modules pinned by one reference to a resource of the device at this token. */
    function OwnerOf(k: Kind, t: Token): multiset<ModuleId>
      requires Live(k, t)
    {
      OwnerBag(table[t.device].value.owner)
    }
  }

  /** The token names a resource of a device in the table. */
  predicate LiveIn(table: Table, k: Kind, t: Token) {
    && 0 <= t.device < |table| && table[t.device].Some?
    && 0 <= t.resource < |table[t.device].value.Resources(k)|
  }

  function ResourceAt(table: Table, k: Kind, t: Token): Resource
    requires LiveIn(table, k, t)
  {
    table[t.device].value.Resources(k)[t.resource]
  }

  function SetCount(table: Table, k: Kind, t: Token, n: nat): Table
    requires LiveIn(table, k, t)
  {
    var d := table[t.device].value;
    var rs := d.Resources(k);
    table[t.device := Some(d.WithResources(k, rs[t.resource := rs[t.resource].(refCount := n)]))]
  }

  function OwnerBag(owner: Option<ModuleId>): multiset<ModuleId> {
    if owner.Some? then multiset{owner.value} else multiset{}
  }

  function Init(): State {
    State(seq(MAX_MANAGED_DEVICES, i => None), [], [], multiset{}, {})
  }

  // ---------------------------------------------------------------------------------------
  // Counting references

  function Increment(s: State, k: Kind, t: Token): State
    requires s.Live(k, t)
  {
    s.(table := SetCount(s.table, k, t, s.At(k, t).refCount + 1), pins := s.pins + s.OwnerOf(k, t))
  }

  /** Leaves a zero count alone; a dead token changes nothing. */
  function Decrement(s: State, k: Kind, t: Token): State {
    if !s.Live(k, t) || s.At(k, t).refCount == 0 then s
    else s.(table := SetCount(s.table, k, t, s.At(k, t).refCount - 1), pins := s.pins - s.OwnerOf(k, t))
  }

  predicate Busy(s: State, k: Kind, t: Token, hostile: bool)
    requires s.Live(k, t)
  {
    s.At(k, t).refCount > 0 && !s.At(k, t).shared && !hostile
  }

  /** The list without the first entry equal to r. */
  function RemoveFirst(refs: seq<Ref>, r: Ref): seq<Ref> {
    if refs == [] then []
    else if refs[0] == r then refs[1..]
    else [refs[0]] + RemoveFirst(refs[1..], r)
  }

  /** A completed claim: one more reference, entered at the head of the list. */
  function Acquire(s: State, k: Kind, t: Token, pid: int): State
    requires s.Live(k, t)
  {
    Increment(s, k, t).WithRefs(k, [Ref(t, pid)] + s.Refs(k))
  }

  /** A release: one reference fewer, and the first entry of this process for it dropped. */
  function Drop(s: State, k: Kind, t: Token, pid: int): State {
    Decrement(s, k, t).WithRefs(k, RemoveFirst(s.Refs(k), Ref(t, pid)))
  }

  // ---------------------------------------------------------------------------------------
  // Requests on the manager device

  /** What arrives with every request: whether it could be copied in, and its version code. */
  datatype Entry = Entry(copyIn: bool, version: int)

  const KERNEL_MAJOR: int := 1

  predicate Compatible(version: int) {
    var major := version / 0x10000;
    major == KERNEL_MAJOR || (major == 0 && KERNEL_MAJOR == 1) || (major == 1 && KERNEL_MAJOR == 0)
  }

  function EntryError(e: Entry): Option<Errno> {
    if !e.copyIn then Some(EOVERFLOW)
    else if !Compatible(e.version) then Some(ENOEXEC)
    else None
  }

  /** What a claim or an info request reports back. */
  datatype Info = Info(token: Token, window: Window, shared: bool)

  function InfoOf(s: State, k: Kind, t: Token): Info
    requires s.Live(k, t)
  {
    Info(t, s.At(k, t).window, s.At(k, t).shared)
  }

  /** The target of a named request. */
  function Target(s: State, k: Kind, e: Entry, q: Query): (r: Result<Token>)
    ensures r.Ok? ==> s.Live(k, r.value)
  {
    if EntryError(e).Some? then Err(EntryError(e).value) else Locate(s.table, q, k)
  }

  /** The parameters of a claim; hostile overrides exclusive use. copyOut and alloc say whether
      the reply could be copied out and the list entry allocated. */
  datatype ClaimArgs = ClaimArgs(query: Query, pid: int, hostile: bool, copyOut: bool, alloc: bool)

  function ClaimOrInfo(s: State, k: Kind, e: Entry, claim: bool, a: ClaimArgs): (State, Result<Info>) {
    var target := Target(s, k, e, a.query);
    if target.Err? then (s, Err(target.error)) else
    var t := target.value;
    if claim && Busy(s, k, t, a.hostile) then (s, Err(EBUSY))
    else Reply(if claim then Increment(s, k, t) else s, k, t, claim, a, InfoOf(s, k, t))
  }

  /** The rest of the request, when a claim has been counted already. */
  function Reply(s: State, k: Kind, t: Token, claim: bool, a: ClaimArgs, info: Info): (State, Result<Info>) {
    if !a.copyOut then (Decrement(s, k, t), Err(EOVERFLOW))
    else if claim && !a.alloc then (Decrement(s, k, t), Err(ENOMEM))
    else (if claim then s.WithRefs(k, [Ref(t, a.pid)] + s.Refs(k)) else s, Ok(info))
  }

  function Release(s: State, k: Kind, e: Entry, t: Token, pid: int): (State, Result<()>) {
    if EntryError(e).Some? then (s, Err(EntryError(e).value))
    else if !(0 <= t.device < |s.table|) then (s, Err(EBADSLT))
    else if s.table[t.device].None? then (s, Err(ENODEV))
    else if !(0 <= t.resource < |s.table[t.device].value.Resources(k)|) then (s, Err(EBADSLT))
    else (Drop(s, k, t, pid), Ok(()))
  }

  function CountOrDecrement(s: State, k: Kind, e: Entry, decrement: bool, q: Query): (State, Result<nat>) {
    var target := Target(s, k, e, q);
    if target.Err? then (s, Err(target.error)) else
    var n := s.At(k, target.value).refCount;
    if !decrement then (s, Ok(n))
    else if n == 0 then (s, Err(ENOSPC))
    else (Decrement(s, k, target.value), Ok(0))
  }

  /** The request for the identifier of a pair of slots. */
  function IdRequest(s: State, k: Kind, e: Entry, t: Token, copyOut: bool): Result<Query>
    requires IsSized(s.table, k)
  {
    if EntryError(e).Some? then Err(EntryError(e).value) else
    var id := IdAt(s.table, k, t);
    if id.Ok? && !copyOut then Err(EOVERFLOW) else id
  }

  // ---------------------------------------------------------------------------------------
  // The janitor

  /** Decrements once for every entry of this process, in list order. */
  function DecrementAll(s: State, k: Kind, refs: seq<Ref>, pid: int): State
    decreases |refs|
  {
    if refs == [] then s
    else DecrementAll(if refs[0].pid == pid then Decrement(s, k, refs[0].token) else s, k, refs[1..], pid)
  }

  /** The entries of all other processes, in order. */
  function Others(refs: seq<Ref>, pid: int): seq<Ref> {
    if refs == [] then []
    else (if refs[0].pid == pid then [] else [refs[0]]) + Others(refs[1..], pid)
  }

  function Sweep(s: State, k: Kind, pid: int): State {
    DecrementAll(s, k, s.Refs(k), pid).WithRefs(k, Others(s.Refs(k), pid))
  }

  /** Every entry of this process names a resource of a device in the table. */
  ghost predicate SweepSafe(s: State, pid: int) {
    forall k, r | r in s.Refs(k) && r.pid == pid :: s.Live(k, r.token)
  }

  /** None stands for the kernel fault of a sweep that meets an empty slot. */
  ghost function JanitorClose(s: State, pid: int): Option<State> {
    if SweepSafe(s, pid) then Some(Sweep(Sweep(s, Memory, pid), EventSource, pid)) else None
  }

  // ---------------------------------------------------------------------------------------
  // Devices coming and going

  /** A device as the driver hands it over. */
  datatype Draft = Draft(
    ptr: Device,
    group: Option<string>,
    name: Option<string>,
    instance: int,
    mem: seq<Resource>,
    events: seq<Resource>,
    owner: Option<ModuleId>)

  function DefaultRegions(mem: seq<Resource>): seq<Resource> {
    seq(|mem|, i requires 0 <= i < |mem| => mem[i].(window := DefaultWindow(mem[i].window)))
  }

  /** The instance number a device is registered under. */
  function ChooseInstance(table: Table, d: Draft): Result<int>
    requires |table| > 0
  {
    if d.group.None? || d.name.None? then Err(EINVAL)
    else if d.instance != 0 then Ok(d.instance)
    else NextInstance(table, d.group.value, d.name.value)
  }

  function Enrolled(d: Draft, instance: int, thisModule: Option<ModuleId>): Dev
    requires d.group.Some? && d.name.Some?
  {
    Dev(d.ptr, d.group.value, d.name.value, instance, DefaultRegions(d.mem), d.events,
        if d.owner.Some? then d.owner else thisModule)
  }

  /** register is the outcome of the registration with the kernel; thisModule owns the devices
      that name no owner (none at all when the manager is built into the kernel). */
  function Manage(s: State, d: Draft, thisModule: Option<ModuleId>, register: Option<Errno>): (State, Result<()>)
    requires |s.table| > 0
  {
    var instance := ChooseInstance(s.table, d);
    if instance.Err? then (s, Err(instance.error))
    else if register.Some? then (s, Err(register.value))
    else
      var slot := FindSlot(s.table, None);
      if slot.None? then (s.(registered := s.registered - {d.ptr}), Err(ENOMEM))
      else (s.(table := s.table[slot.value := Some(Enrolled(d, instance.value, thisModule))],
               registered := s.registered + {d.ptr}), Ok(()))
  }

  function ReleaseDevice(s: State, ptr: Device, unregister: Option<Errno>): (State, Result<()>) {
    var slot := FindSlot(s.table, Some(ptr));
    var s1 := s.(registered := s.registered - {ptr});
    if slot.None? then (s1, Err(ENXIO))
    else (s1.(table := s.table[slot.value := None]), if unregister.Some? then Err(unregister.value) else Ok(()))
  }

  // ---------------------------------------------------------------------------------------
  // Steps and runs

  datatype Step =
    | ClaimStep(kind: Kind, entry: Entry, args: ClaimArgs)
    | InfoStep(kind: Kind, entry: Entry, args: ClaimArgs)
    | ReleaseStep(kind: Kind, entry: Entry, token: Token, pid: int)
    | CountStep(kind: Kind, entry: Entry, query: Query)
    | ForcedDecrementStep(kind: Kind, entry: Entry, query: Query)
    | JanitorStep(pid: int)
    | ManageStep(draft: Draft, thisModule: Option<ModuleId>, register: Option<Errno>)
    | ReleaseDeviceStep(ptr: Device, unregister: Option<Errno>)

  /** A request a process makes on the manager device. */
  predicate IsRequest(step: Step) {
    !step.JanitorStep? && !step.ManageStep? && !step.ReleaseDeviceStep?
  }

  ghost function Apply(s: State, step: Step): Option<State>
    requires |s.table| > 0
  {
    match step
    case ClaimStep(k, e, a) => Some(ClaimOrInfo(s, k, e, true, a).0)
    case InfoStep(k, e, a) => Some(ClaimOrInfo(s, k, e, false, a).0)
    case ReleaseStep(k, e, t, pid) => Some(Release(s, k, e, t, pid).0)
    case CountStep(k, e, q) => Some(CountOrDecrement(s, k, e, false, q).0)
    case ForcedDecrementStep(k, e, q) => Some(CountOrDecrement(s, k, e, true, q).0)
    case JanitorStep(pid) => JanitorClose(s, pid)
    case ManageStep(d, m, register) => Some(Manage(s, d, m, register).0)
    case ReleaseDeviceStep(ptr, unregister) => Some(ReleaseDevice(s, ptr, unregister).0)
  }

  /** What is assumed of drivers: they hand over C structures, with zero counts, of devices
      that are not in the table already. */
  predicate Admissible(s: State, step: Step) {
    step.ManageStep? ==>
      && |step.draft.mem| == MAX_DEV_MEM_REGIONS && |step.draft.events| == MAX_DEV_EVENTS
      && (forall r | r in step.draft.mem + step.draft.events :: r.refCount == 0)
      && FindSlot(s.table, Some(step.draft.ptr)).None?
  }

  /** Releases come from a holder, counts are not forced down, info replies can be copied out,
      and a device leaves only when its owner module is not pinned (the module cannot be
      unloaded while it is). */
  predicate Disciplined(s: State, step: Step) {
    match step
    case InfoStep(_, _, a) => a.copyOut
    case ReleaseStep(k, _, t, pid) => Ref(t, pid) in s.Refs(k)
    case ForcedDecrementStep(_, _, _) => false
    case ReleaseDeviceStep(ptr, _) =>
      var slot := FindSlot(s.table, Some(ptr));
      slot.Some? ==>
        var owner := s.table[slot.value].value.owner;
        owner.Some? && s.pins[owner.value] == 0
    case _ => true
  }

  /** Which extra assumptions a run keeps to: discipline, no hostile claims, and regions whose
      defaulted window lies inside their mapping. */
  datatype Policy = Policy(disciplined: bool, peaceful: bool, covered: bool)

  predicate Allowed(p: Policy, s: State, step: Step) {
    && Admissible(s, step)
    && (p.disciplined ==> Disciplined(s, step))
    && (p.peaceful && step.ClaimStep? ==> !step.args.hostile)
    && (p.covered && step.ManageStep? ==> forall r | r in step.draft.mem :: CoversAfterDefault(r.window))
  }

  /** The steps lead from s to s'. A step that faults ends the run: nothing comes after it. */
  ghost predicate IsRun(p: Policy, s: State, steps: seq<Step>, s': State)
    decreases |steps|
  {
    if steps == [] then s' == s
    else
      && |s.table| > 0 && Allowed(p, s, steps[0])
      && Apply(s, steps[0]).Some? && IsRun(p, Apply(s, steps[0]).value, steps[1..], s')
  }
}
