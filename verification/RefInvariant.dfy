/** The invariant of the device manager's runs and the elementary facts about its parts. */
module RefInvariant {
  import opened Base
  import opened Devices
  import opened Regions
  import opened RefState

  // ---------------------------------------------------------------------------------------
  // Measures

  /** How many list entries hold this token. */
  function Held(refs: seq<Ref>, t: Token): nat {
    if refs == [] then 0 else (if refs[0].token == t then 1 else 0) + Held(refs[1..], t)
  }

  function Total(rs: seq<Resource>): nat {
    if rs == [] then 0 else rs[0].refCount + Total(rs[1..])
  }

  /** All references to resources of one device. */
  function DevLoad(d: Dev): nat {
    Total(d.mem) + Total(d.events)
  }

  function SlotLoad(o: Option<Dev>, m: ModuleId): nat {
    if o.Some? && o.value.owner == Some(m) then DevLoad(o.value) else 0
  }

  /** All references to resources of the devices a module owns. */
  function Load(table: Table, m: ModuleId): nat {
    if table == [] then 0 else SlotLoad(table[0], m) + Load(table[1..], m)
  }

  function Occupants(table: Table): set<Device> {
    set i | 0 <= i < |table| && table[i].Some? :: table[i].value.ptr
  }

  // ---------------------------------------------------------------------------------------
  // The invariant

  /** Sizes as in C, and no device in two slots. */
  ghost predicate ShapedTable(table: Table) {
    && |table| == MAX_MANAGED_DEVICES
    && (forall i | 0 <= i < |table| && table[i].Some? ::
          |table[i].value.mem| == MAX_DEV_MEM_REGIONS && |table[i].value.events| == MAX_DEV_EVENTS)
    && (forall i, j | 0 <= i < j < |table| && table[i].Some? && table[j].Some? ::
          table[i].value.ptr != table[j].value.ptr)
  }

  ghost predicate InRange(refs: seq<Ref>, k: Kind) {
    forall r | r in refs :: 0 <= r.token.device < MAX_MANAGED_DEVICES && 0 <= r.token.resource < Capacity(k)
  }

  /** Exactly the devices in the table are registered, and list tokens are within bounds. */
  ghost predicate Shaped(s: State) {
    && ShapedTable(s.table) && s.registered == Occupants(s.table)
    && InRange(s.memRefs, Memory) && InRange(s.eventRefs, EventSource)
  }

  ghost predicate Bounded(s: State) {
    forall k, t | s.Live(k, t) :: s.At(k, t).refCount <= Held(s.Refs(k), t)
  }

  ghost predicate Exact(s: State) {
    && (forall k, t | s.Live(k, t) :: s.At(k, t).refCount == Held(s.Refs(k), t))
    && (forall k, r | r in s.Refs(k) :: s.Live(k, r.token))
  }

  ghost predicate Exclusive(s: State) {
    forall k, t | s.Live(k, t) && !s.At(k, t).shared :: s.At(k, t).refCount <= 1
  }

  ghost predicate Covered(s: State) {
    forall t | s.Live(Memory, t) :: InsideMapping(s.At(Memory, t).window)
  }

  /** lost are the pins of devices that were released while still claimed. */
  ghost predicate PinsBalance(s: State, lost: multiset<ModuleId>) {
    forall m: ModuleId :: s.pins[m] == Load(s.table, m) + lost[m]
  }

  ghost predicate Inv(p: Policy, s: State, lost: multiset<ModuleId>) {
    && Shaped(s) && Bounded(s) && PinsBalance(s, lost)
    && (p.disciplined ==> Exact(s) && lost == multiset{})
    && (p.peaceful ==> Exclusive(s))
    && (p.covered ==> Covered(s))
  }

  // ---------------------------------------------------------------------------------------
  // Lists

  lemma {:induction false} HeldRemoveFirst(refs: seq<Ref>, r: Ref, t: Token)
    ensures Held(RemoveFirst(refs, r), t) == Held(refs, t) - (if r in refs && r.token == t then 1 else 0)
    ensures forall x | x in RemoveFirst(refs, r) :: x in refs
  {
    if refs != [] && refs[0] != r {
      HeldRemoveFirst(refs[1..], r, t);
      var tail := RemoveFirst(refs[1..], r);
      assert ([refs[0]] + tail)[1..] == tail;
    }
  }

  lemma {:induction false} HeldMember(refs: seq<Ref>, t: Token)
    ensures Held(refs, t) > 0 <==> exists r :: r in refs && r.token == t
  {
    if refs != [] {
      HeldMember(refs[1..], t);
      assert refs[0] in refs;
    }
  }

  /** Two entries with one token count twice. */
  lemma {:induction false} HeldTwice(refs: seq<Ref>, i: nat, j: nat)
    requires i < j < |refs| && refs[i].token == refs[j].token
    ensures Held(refs, refs[i].token) >= 2
  {
    if i > 0 {
      HeldTwice(refs[1..], i - 1, j - 1);
    } else {
      assert refs[j] == refs[1..][j - 1] && refs[j] in refs[1..];
      HeldMember(refs[1..], refs[0].token);
    }
  }

  // ---------------------------------------------------------------------------------------
  // Sums

  lemma {:induction false} TotalUpdate(rs: seq<Resource>, i: nat, r: Resource)
    requires i < |rs|
    ensures Total(rs[i := r]) + rs[i].refCount == Total(rs) + r.refCount
  {
    if i == 0 {
      assert rs[0 := r][1..] == rs[1..];
    } else {
      TotalUpdate(rs[1..], i - 1, r);
      assert rs[i := r][1..] == rs[1..][i - 1 := r];
    }
  }

  lemma {:induction false} TotalAtLeast(rs: seq<Resource>, i: nat)
    requires i < |rs|
    ensures rs[i].refCount <= Total(rs)
  {
    if i > 0 { TotalAtLeast(rs[1..], i - 1); }
  }

  lemma {:induction false} TotalZero(rs: seq<Resource>)
    requires forall r | r in rs :: r.refCount == 0
    ensures Total(rs) == 0
  {
    if rs != [] {
      assert rs[0] in rs;
      TotalZero(rs[1..]);
    }
  }

  lemma {:induction false} LoadUpdate(table: Table, i: nat, o: Option<Dev>, m: ModuleId)
    requires i < |table|
    ensures Load(table[i := o], m) + SlotLoad(table[i], m) == Load(table, m) + SlotLoad(o, m)
  {
    if i == 0 {
      assert table[0 := o][1..] == table[1..];
    } else {
      LoadUpdate(table[1..], i - 1, o, m);
      assert table[i := o][1..] == table[1..][i - 1 := o];
    }
  }

  lemma {:induction false} LoadEmpty(table: Table, m: ModuleId)
    requires forall i :: 0 <= i < |table| ==> table[i].None?
    ensures Load(table, m) == 0
  {
    if table != [] { LoadEmpty(table[1..], m); }
  }

  // ---------------------------------------------------------------------------------------
  // Changing one count

  /** Only the count at the token changes. */
  lemma CountFrame(table: Table, k: Kind, t: Token, n: nat)
    requires LiveIn(table, k, t)
    ensures forall k', t' :: LiveIn(SetCount(table, k, t, n), k', t') <==> LiveIn(table, k', t')
    ensures forall k', t' | LiveIn(table, k', t') ::
              ResourceAt(SetCount(table, k, t, n), k', t')
              == if k' == k && t' == t then ResourceAt(table, k, t).(refCount := n) else ResourceAt(table, k', t')
    ensures OwnerBag(SetCount(table, k, t, n)[t.device].value.owner) == OwnerBag(table[t.device].value.owner)
    ensures ShapedTable(table) ==> ShapedTable(SetCount(table, k, t, n))
  {
  }

  lemma CountOccupants(table: Table, k: Kind, t: Token, n: nat)
    requires LiveIn(table, k, t)
    ensures Occupants(SetCount(table, k, t, n)) == Occupants(table)
  {
    var table' := SetCount(table, k, t, n);
    forall p | p in Occupants(table) ensures p in Occupants(table') {
      var i :| 0 <= i < |table| && table[i].Some? && table[i].value.ptr == p;
      assert table'[i].Some? && table'[i].value.ptr == p;
    }
    forall p | p in Occupants(table') ensures p in Occupants(table) {
      var i :| 0 <= i < |table| && table'[i].Some? && table'[i].value.ptr == p;
      assert table[i].Some? && table[i].value.ptr == p;
    }
  }

  /** Writing back the count that was there restores the table. */
  lemma CountRestored(table: Table, k: Kind, t: Token, n: nat)
    requires LiveIn(table, k, t)
    ensures var table' := SetCount(table, k, t, n);
            && LiveIn(table', k, t) && ResourceAt(table', k, t).refCount == n
            && OwnerBag(table'[t.device].value.owner) == OwnerBag(table[t.device].value.owner)
            && SetCount(table', k, t, ResourceAt(table, k, t).refCount) == table
  {
    var table' := SetCount(table, k, t, n);
    var rs := table[t.device].value.Resources(k);
    assert table'[t.device].value.Resources(k)[t.resource := rs[t.resource]] == rs;
    assert table'[t.device := table[t.device]] == table;
  }

  /** The owner's load moves by the change of the count. */
  lemma CountLoad(table: Table, k: Kind, t: Token, n: nat, m: ModuleId)
    requires LiveIn(table, k, t)
    ensures var owned := table[t.device].value.owner == Some(m);
            var before := ResourceAt(table, k, t).refCount;
            && OwnerBag(table[t.device].value.owner)[m] == (if owned then 1 else 0)
            && (owned ==> before <= Load(table, m))
            && Load(SetCount(table, k, t, n), m) == Load(table, m) + (if owned then n - before else 0)
  {
    var rs := table[t.device].value.Resources(k);
    TotalUpdate(rs, t.resource, rs[t.resource].(refCount := n));
    TotalAtLeast(rs, t.resource);
    LoadUpdate(table, t.device, SetCount(table, k, t, n)[t.device], m);
    LoadUpdate(table, t.device, None, m);
  }
}
