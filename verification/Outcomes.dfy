/** What each request answers and does, in terms of the fields of the state. */
module Outcomes {
  import opened Base
  import opened Devices
  import opened Lookup
  import opened RefState
  import opened RefInvariant
  import opened Janitor
  import opened Runs
  import opened TableRuns

  /** Between s and s' the count of one resource becomes n, with these pins and this list of
      its kind; no other field of any resource, device, list or registration changes. */
  ghost predicate OnlyCount(s: State, s': State, k: Kind, t: Token, n: nat, pins: multiset<ModuleId>, refs: seq<Ref>)
    requires s.Live(k, t)
  {
    && OneCountSet(s.table, s'.table, k, t, n)
    && s'.pins == pins && s'.registered == s.registered
    && (if k.Memory? then s'.memRefs == refs && s'.eventRefs == s.eventRefs
        else s'.eventRefs == refs && s'.memRefs == s.memRefs)
  }

  ghost predicate OneCountSet(table: Table, table': Table, k: Kind, t: Token, n: nat)
    requires LiveIn(table, k, t)
  {
    && |table'| == |table| && (forall i | 0 <= i < |table| :: SameDevice(table[i], table'[i]))
    && (forall k', t' :: LiveIn(table', k', t') <==> LiveIn(table, k', t'))
    && (forall k', t' | LiveIn(table, k', t') ::
          ResourceAt(table', k', t')
          == if k' == k && t' == t then ResourceAt(table, k, t).(refCount := n) else ResourceAt(table, k', t'))
  }

  /** The module of the device, once, if it has one. */
  function Pin(s: State, t: Token): multiset<ModuleId>
    requires 0 <= t.device < |s.table| && s.table[t.device].Some?
  {
    var owner := s.table[t.device].value.owner;
    if owner.Some? then multiset{owner.value} else multiset{}
  }

  lemma SetCountOnly(s: State, k: Kind, t: Token, n: nat, pins: multiset<ModuleId>, refs: seq<Ref>)
    requires s.Live(k, t)
    ensures OnlyCount(s, s.(table := SetCount(s.table, k, t, n), pins := pins).WithRefs(k, refs), k, t, n, pins, refs)
  {
    CountFrame(s.table, k, t, n);
    forall i | 0 <= i < |s.table| ensures SameDevice(s.table[i], SetCount(s.table, k, t, n)[i]) {
      CountKeepsSlot(s.table, k, t, n, i);
    }
  }

  lemma DropShape(s: State, k: Kind, t: Token, pid: int)
    requires s.Live(k, t) && s.At(k, t).refCount > 0
    ensures var s1 := s.(table := SetCount(s.table, k, t, s.At(k, t).refCount - 1), pins := s.pins - Pin(s, t));
            && Decrement(s, k, t) == s1 == s1.WithRefs(k, s.Refs(k))
            && Drop(s, k, t, pid) == s1.WithRefs(k, RemoveFirst(s.Refs(k), Ref(t, pid)))
  {
    assert Pin(s, t) == s.OwnerOf(k, t);
  }

  /** One reference fewer, or none where there is none. */
  lemma DecrementOnly(s: State, k: Kind, t: Token)
    requires s.Live(k, t)
    ensures var n := s.At(k, t).refCount;
            if n == 0 then Decrement(s, k, t) == s
            else OnlyCount(s, Decrement(s, k, t), k, t, n - 1, s.pins - Pin(s, t), s.Refs(k))
  {
    var n := s.At(k, t).refCount;
    if n > 0 {
      DropShape(s, k, t, 0);
      SetCountOnly(s, k, t, n - 1, s.pins - Pin(s, t), s.Refs(k));
    }
  }

  lemma AcquireOnly(s: State, k: Kind, t: Token, pid: int)
    requires s.Live(k, t)
    ensures OnlyCount(s, Acquire(s, k, t, pid), k, t, s.At(k, t).refCount + 1, s.pins + Pin(s, t),
                      [Ref(t, pid)] + s.Refs(k))
  {
    assert Pin(s, t) == s.OwnerOf(k, t);
    SetCountOnly(s, k, t, s.At(k, t).refCount + 1, s.pins + Pin(s, t), [Ref(t, pid)] + s.Refs(k));
  }

  // ---------------------------------------------------------------------------------------
  // Requests by name

  /** Major versions 0 and 1 are served; a failed copy is noticed first, and the name is
      looked up last. */
  lemma TargetOutcome(s: State, k: Kind, e: Entry, q: Query)
    ensures EntryError(e) == if !e.copyIn then Some(EOVERFLOW)
                             else if 0 <= e.version < 0x20000 then None
                             else Some(ENOEXEC)
    ensures Target(s, k, e, q) == if EntryError(e).Some? then Err(EntryError(e).value) else Locate(s.table, q, k)
  {
  }

  /** A claim succeeds if and only if the resource is free, shared, or claimed with the hostile
      option, and the reply and the list entry work out; then it adds one reference, one pin
      and the entry. */
  lemma ClaimOutcome(s: State, k: Kind, e: Entry, a: ClaimArgs)
    requires Target(s, k, e, a.query).Ok?
    ensures var (s', r) := ClaimOrInfo(s, k, e, true, a);
            var t := Target(s, k, e, a.query).value;
            var res := s.At(k, t);
            && (r.Ok? <==> (res.refCount == 0 || res.shared || a.hostile) && a.copyOut && a.alloc)
            && (r.Ok? ==>
                  && r.value.token == t && r.value.window == res.window && r.value.shared == res.shared
                  && OnlyCount(s, s', k, t, res.refCount + 1, s.pins + Pin(s, t), [Ref(t, a.pid)] + s.Refs(k)))
            && (r.Err? ==> s' == s)
            && (r == Err(EBUSY) <==> res.refCount > 0 && !res.shared && !a.hostile)
            && (r == Err(EOVERFLOW) <==> r.Err? && r != Err(EBUSY) && !a.copyOut)
            && (r == Err(ENOMEM) <==> r.Err? && r != Err(EBUSY) && a.copyOut)
  {
    ClaimOrInfoEffect(s, k, e, true, a);
    AcquireOnly(s, k, Target(s, k, e, a.query).value, a.pid);
  }

  /** An info request answers for any resource, in use or not, and only reads; if its reply
      cannot be copied out, it takes a reference and a pin away where there are any. */
  lemma InfoReplyOutcome(s: State, k: Kind, e: Entry, a: ClaimArgs)
    requires Target(s, k, e, a.query).Ok?
    ensures var (s', r) := ClaimOrInfo(s, k, e, false, a);
            var t := Target(s, k, e, a.query).value;
            var res := s.At(k, t);
            if a.copyOut then
              && r.Ok? && s' == s
              && r.value.token == t && r.value.window == res.window && r.value.shared == res.shared
            else
              && r == Err(EOVERFLOW)
              && if res.refCount == 0 then s' == s
                 else OnlyCount(s, s', k, t, res.refCount - 1, s.pins - Pin(s, t), s.Refs(k))
  {
    DecrementOnly(s, k, Target(s, k, e, a.query).value);
  }

  /** The reference count query reads the count; the forced decrement takes one reference and
      one pin away, and no list entry, unless there is no reference. */
  lemma CountOutcome(s: State, k: Kind, e: Entry, q: Query)
    requires Target(s, k, e, q).Ok?
    ensures var t := Target(s, k, e, q).value;
            var n := s.At(k, t).refCount;
            var (s', r) := CountOrDecrement(s, k, e, true, q);
            && CountOrDecrement(s, k, e, false, q) == (s, Ok(n))
            && if n == 0 then r == Err(ENOSPC) && s' == s
               else r == Ok(0) && OnlyCount(s, s', k, t, n - 1, s.pins - Pin(s, t), s.Refs(k))
  {
    DecrementOnly(s, k, Target(s, k, e, q).value);
  }

  /** A named request that finds nothing says why and does nothing. */
  lemma NoTargetOutcome(s: State, k: Kind, e: Entry, q: Query)
    requires Target(s, k, e, q).Err?
    ensures forall claim, a: ClaimArgs | a.query == q ::
              ClaimOrInfo(s, k, e, claim, a) == (s, Err(Target(s, k, e, q).error))
    ensures forall decrement :: CountOrDecrement(s, k, e, decrement, q) == (s, Err(Target(s, k, e, q).error))
    ensures Target(s, k, e, q).error == if EntryError(e).Some? then EntryError(e).value else ENXIO
  {
    if EntryError(e).None? { LocateNotFound(s.table, q, k); }
  }

  // ---------------------------------------------------------------------------------------
  // Requests by slot

  /** refs' is refs without its first entry equal to r, if there is one. */
  ghost predicate FirstDeleted(refs: seq<Ref>, r: Ref, refs': seq<Ref>) {
    if r !in refs then refs' == refs
    else exists i: nat :: i < |refs| && refs[i] == r && r !in refs[..i] && refs' == refs[..i] + refs[i + 1..]
  }

  lemma RemoveFirstDeletes(refs: seq<Ref>, r: Ref)
    ensures FirstDeleted(refs, r, RemoveFirst(refs, r))
  {
    if r in refs {
      var i := FirstAt(refs, r);
      RemoveFirstAt(refs, i);
    } else {
      RemoveFirstAbsent(refs, r);
    }
  }

  lemma {:induction false} FirstAt(refs: seq<Ref>, r: Ref) returns (i: nat)
    requires r in refs
    ensures i < |refs| && refs[i] == r && r !in refs[..i]
  {
    if refs[0] == r {
      i := 0;
    } else {
      var j := FirstAt(refs[1..], r);
      i := j + 1;
      assert refs[..i] == [refs[0]] + refs[1..][..j];
    }
  }

  /** A release is accepted from anyone for any resource of a device in the table. It takes one
      reference and one pin away if there is a reference, and the first entry of this process
      for the token off the list if there is one. */
  lemma ReleaseOutcome(s: State, k: Kind, e: Entry, t: Token, pid: int)
    ensures var (s', r) := Release(s, k, e, t, pid);
            && (r.Ok? <==> EntryError(e).None? && s.Live(k, t))
            && (r.Err? ==> s' == s)
            && (r.Ok? ==>
                  var n := s.At(k, t).refCount;
                  && FirstDeleted(s.Refs(k), Ref(t, pid), s'.Refs(k))
                  && OnlyCount(s, s', k, t, if n == 0 then 0 else n - 1,
                               if n == 0 then s.pins else s.pins - Pin(s, t), s'.Refs(k)))
  {
    var r := Ref(t, pid);
    if Release(s, k, e, t, pid).1.Ok? {
      RemoveFirstDeletes(s.Refs(k), r);
      DropOnly(s, k, t, pid);
    }
  }

  lemma DropOnly(s: State, k: Kind, t: Token, pid: int)
    requires s.Live(k, t)
    ensures var n := s.At(k, t).refCount;
            OnlyCount(s, Drop(s, k, t, pid), k, t, if n == 0 then 0 else n - 1,
                      if n == 0 then s.pins else s.pins - Pin(s, t), RemoveFirst(s.Refs(k), Ref(t, pid)))
  {
    var n, refs := s.At(k, t).refCount, RemoveFirst(s.Refs(k), Ref(t, pid));
    if n > 0 {
      DropShape(s, k, t, pid);
      SetCountOnly(s, k, t, n - 1, s.pins - Pin(s, t), refs);
    } else {
      assert Drop(s, k, t, pid) == s.WithRefs(k, refs);
      ListOnly(s, k, t, refs);
    }
  }

  lemma ListOnly(s: State, k: Kind, t: Token, refs: seq<Ref>)
    requires s.Live(k, t)
    ensures OnlyCount(s, s.WithRefs(k, refs), k, t, s.At(k, t).refCount, s.pins, refs)
  {
    var s', res := s.WithRefs(k, refs), s.At(k, t);
    assert s'.table == s.table && res.(refCount := res.refCount) == res;
  }

  /** Why a release is refused: with a device slot in range but empty, whatever the resource
      slot; and with either slot out of range. */
  lemma ReleaseErrors(s: State, k: Kind, e: Entry, t: Token, pid: int)
    ensures var r := Release(s, k, e, t, pid).1;
            var empty := 0 <= t.device < |s.table| && s.table[t.device].None?;
            && (EntryError(e).Some? ==> r == Err(EntryError(e).value))
            && (EntryError(e).None? ==>
                  && (r == Err(ENODEV) <==> empty)
                  && (r == Err(EBADSLT) <==> !s.Live(k, t) && !empty)
                  && (r.Err? ==> r == Err(ENODEV) || r == Err(EBADSLT)))
  {
  }

  /** The identifier of a pair of slots holds the names a comparison on 256 characters cannot
      tell from those of the device and the resource. Slots out of range come before an empty
      device slot, that before an unused resource, and that before a missing name. */
  lemma IdOutcome(table: Table, k: Kind, t: Token)
    requires IsSized(table, k)
    ensures var r := IdAt(table, k, t);
            var inRange := 0 <= t.device < 256 && 0 <= t.resource < Capacity(k);
            && (r == Err(EBADSLT) <==> !inRange)
            && (r == Err(ENODEV) <==> inRange && table[t.device].None?)
            && (inRange && table[t.device].Some? ==>
                  var d := table[t.device].value;
                  var res := d.Resources(k)[t.resource];
                  && (r == Err(EINVAL) <==> res.code == 0)
                  && (r == Err(Fault) <==> res.code != 0 && res.name.None?)
                  && (r.Ok? <==> res.code != 0 && res.name.Some?)
                  && (r.Ok? ==> r.value.instance == d.instance && IsCopy(r.value.group, d.group)
                                && IsCopy(r.value.device, d.name) && IsCopy(r.value.resource, res.name.value)))
  {
    var r := IdAt(table, k, t);
    if r.Ok? {
      var d := table[t.device].value;
      CopyIsSame(d.group);
      CopyIsSame(d.name);
      CopyIsSame(d.Resources(k)[t.resource].name.value);
    }
  }

  /** What a 256 character buffer shows of a name. */
  predicate IsCopy(copy: string, name: string) {
    |copy| <= 256 && EqualUpTo(copy, name, 256)
  }

  lemma CopyIsSame(name: string)
    ensures IsCopy(Clip(name), name)
  {
    SameNameIsStrncmp(name, name);
    SameNameIsStrncmp(Clip(name), name);
  }

  /** The request for it fails early on its own account and last for want of copying out. */
  lemma IdRequestOutcome(s: State, k: Kind, e: Entry, t: Token, copyOut: bool)
    requires IsSized(s.table, k)
    ensures var r := IdRequest(s, k, e, t, copyOut);
            && (r.Ok? <==> EntryError(e).None? && IdAt(s.table, k, t).Ok? && copyOut)
            && (r.Ok? ==> r == IdAt(s.table, k, t))
            && (EntryError(e).Some? ==> r == Err(EntryError(e).value))
            && (EntryError(e).None? && IdAt(s.table, k, t).Err? ==> r == IdAt(s.table, k, t))
            && (EntryError(e).None? && IdAt(s.table, k, t).Ok? && !copyOut ==> r == Err(EOVERFLOW))
  {
  }

  // ---------------------------------------------------------------------------------------
  // Devices leaving

  ghost predicate HoldsAt(table: Table, i: nat, ptr: Device) {
    i < |table| && table[i].Some? && table[i].value.ptr == ptr
  }

  /** Releasing a device empties its slot and nothing else, and unregisters it whether it was
      in the table or not; not having been there is the error that counts. */
  lemma ReleaseDeviceOutcome(s: State, ptr: Device, unregister: Option<Errno>)
    ensures var (s', r) := ReleaseDevice(s, ptr, unregister);
            && s' == s.(table := s'.table, registered := s.registered - {ptr})
            && (r == Ok(()) <==> unregister.None? && exists i: nat :: HoldsAt(s.table, i, ptr))
            && if exists i: nat :: HoldsAt(s.table, i, ptr) then
                 && (unregister.Some? ==> r == Err(unregister.value))
                 && exists i: nat :: HoldsAt(s.table, i, ptr) && (forall j: nat | j < i :: !HoldsAt(s.table, j, ptr))
                                     && s'.table == s.table[i := None]
               else r == Err(ENXIO) && s'.table == s.table
  {
    assert forall i: nat | i < |s.table| :: HoldsAt(s.table, i, ptr) <==> PtrAt(s.table, i) == Some(ptr);
    var slot := FindSlot(s.table, Some(ptr));
    if slot.Some? { assert HoldsAt(s.table, slot.value, ptr); }
  }
}
