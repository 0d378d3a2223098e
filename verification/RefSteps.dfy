/** Every kind of change keeps the invariant. */
module RefSteps {
  import opened Base
  import opened Devices
  import opened Regions
  import opened RefState
  import opened RefInvariant

  lemma BagCancel(a: multiset<ModuleId>, b: multiset<ModuleId>)
    ensures a + b - b == a
  {
  }

  /** A decrement undoes an increment, pins included. */
  lemma DecrementUndoesIncrement(s: State, k: Kind, t: Token)
    requires s.Live(k, t)
    ensures Decrement(Increment(s, k, t), k, t) == s
  {
    var n := s.At(k, t).refCount;
    CountRestored(s.table, k, t, n + 1);
    BagCancel(s.pins, s.OwnerOf(k, t));
  }

  /** Changing a reference list leaves the table and all counts alone. */
  lemma RefsFrame(s: State, k: Kind, refs: seq<Ref>, lost: multiset<ModuleId>)
    ensures var s' := s.WithRefs(k, refs);
            && (forall k', t' :: s'.Live(k', t') <==> s.Live(k', t'))
            && (forall k', t' | s.Live(k', t') :: s'.At(k', t') == s.At(k', t'))
            && (forall k' :: s'.Refs(k') == if k' == k then refs else s.Refs(k'))
            && (PinsBalance(s, lost) ==> PinsBalance(s', lost))
            && (Shaped(s) && InRange(refs, k) ==> Shaped(s'))
  {
  }

  /** s1 differs from s in the count at one token only. */
  ghost predicate OneCountChanged(s: State, s1: State, k: Kind, t: Token) {
    && (forall k' :: s1.Refs(k') == s.Refs(k'))
    && (forall k', t' :: s1.Live(k', t') <==> s.Live(k', t'))
    && (forall k', t' | s.Live(k', t') ::
          && ((k' == k && t' == t) || s1.At(k', t') == s.At(k', t'))
          && s1.At(k', t') == s.At(k', t').(refCount := s1.At(k', t').refCount))
  }

  /** A new count and a new list that fit together at the token, and nowhere else disagree
      with the old ones, keep the invariant. */
  lemma Recombine(p: Policy, s: State, s1: State, lost: multiset<ModuleId>, k: Kind, t: Token, refs: seq<Ref>)
    requires Inv(p, s, lost) && Shaped(s1) && PinsBalance(s1, lost)
    requires s.Live(k, t) && OneCountChanged(s, s1, k, t)
    requires forall r | r in refs :: r.token == t || r in s.Refs(k)
    requires forall t' | t' != t :: Held(refs, t') == Held(s.Refs(k), t')
    requires if p.disciplined then s1.At(k, t).refCount == Held(refs, t) else s1.At(k, t).refCount <= Held(refs, t)
    requires p.peaceful && !s.At(k, t).shared ==> s1.At(k, t).refCount <= 1
    ensures Inv(p, s1.WithRefs(k, refs), lost)
  {
    var s' := s1.WithRefs(k, refs);
    RefsFrame(s1, k, refs, lost);
    forall k', t' | s'.Live(k', t')
      ensures s'.At(k', t').refCount <= Held(s'.Refs(k'), t')
      ensures p.disciplined ==> s'.At(k', t').refCount == Held(s'.Refs(k'), t')
      ensures p.peaceful && !s'.At(k', t').shared ==> s'.At(k', t').refCount <= 1
    {
      assert s.Live(k', t');
    }
    if p.disciplined {
      forall k', r | r in s'.Refs(k') ensures s'.Live(k', r.token) {
        if !(k' == k && r.token == t) { assert r in s.Refs(k'); }
      }
    }
    if p.covered {
      forall t' | s'.Live(Memory, t') ensures InsideMapping(s'.At(Memory, t').window) {
        assert s.Live(Memory, t');
      }
    }
  }

  /** s1 is s with this count, everything else the invariant speaks of intact. */
  ghost predicate CountMoved(s: State, s1: State, k: Kind, t: Token, n: nat, lost: multiset<ModuleId>)
    requires s.Live(k, t)
  {
    Shaped(s1) && PinsBalance(s1, lost) && OneCountChanged(s, s1, k, t) && s1.At(k, t).refCount == n
  }

  /** A changed count with the owner's pins moved by as much. */
  lemma CountParts(s: State, k: Kind, t: Token, n: nat, pins: multiset<ModuleId>, lost: multiset<ModuleId>)
    requires Shaped(s) && PinsBalance(s, lost) && s.Live(k, t)
    requires if s.At(k, t).refCount <= n then n == s.At(k, t).refCount + 1 && pins == s.pins + s.OwnerOf(k, t)
             else n == s.At(k, t).refCount - 1 && pins == s.pins - s.OwnerOf(k, t)
    ensures CountMoved(s, s.(table := SetCount(s.table, k, t, n), pins := pins), k, t, n, lost)
  {
    var s1 := s.(table := SetCount(s.table, k, t, n), pins := pins);
    CountFrame(s.table, k, t, n);
    CountOccupants(s.table, k, t, n);
    assert forall k' :: s1.Refs(k') == s.Refs(k');
    forall m: ModuleId ensures s1.pins[m] == Load(s1.table, m) + lost[m] {
      CountLoad(s.table, k, t, n, m);
    }
  }

  lemma IncrementParts(s: State, k: Kind, t: Token, lost: multiset<ModuleId>)
    requires Shaped(s) && PinsBalance(s, lost) && s.Live(k, t)
    ensures CountMoved(s, Increment(s, k, t), k, t, s.At(k, t).refCount + 1, lost)
  {
    CountParts(s, k, t, s.At(k, t).refCount + 1, s.pins + s.OwnerOf(k, t), lost);
  }

  /** A decrement never takes a pin the owner does not have. */
  lemma PinsSuffice(s: State, k: Kind, t: Token, lost: multiset<ModuleId>)
    requires PinsBalance(s, lost) && s.Live(k, t) && s.At(k, t).refCount > 0
    ensures s.OwnerOf(k, t) <= s.pins
  {
    forall m: ModuleId ensures s.OwnerOf(k, t)[m] <= s.pins[m] {
      CountLoad(s.table, k, t, 0, m);
    }
  }

  lemma DecrementParts(s: State, k: Kind, t: Token, lost: multiset<ModuleId>)
    requires Shaped(s) && PinsBalance(s, lost) && s.Live(k, t)
    ensures var n := s.At(k, t).refCount;
            CountMoved(s, Decrement(s, k, t), k, t, if n == 0 then 0 else n - 1, lost)
  {
    if s.At(k, t).refCount > 0 {
      CountParts(s, k, t, s.At(k, t).refCount - 1, s.pins - s.OwnerOf(k, t), lost);
    }
  }

  lemma AcquireKeeps(p: Policy, s: State, lost: multiset<ModuleId>, k: Kind, t: Token, pid: int)
    requires Inv(p, s, lost) && s.Live(k, t)
    requires p.peaceful ==> !Busy(s, k, t, false)
    ensures Inv(p, Acquire(s, k, t, pid), lost)
  {
    var refs := [Ref(t, pid)] + s.Refs(k);
    assert refs[1..] == s.Refs(k);
    IncrementParts(s, k, t, lost);
    Recombine(p, s, Increment(s, k, t), lost, k, t, refs);
  }

  /** The list is not looked at, so this keeps the bound but not the exact correspondence. */
  lemma DecrementKeeps(p: Policy, s: State, lost: multiset<ModuleId>, k: Kind, t: Token)
    requires Inv(p, s, lost)
    requires p.disciplined ==> Decrement(s, k, t) == s
    ensures Inv(p, Decrement(s, k, t), lost)
  {
    if s.Live(k, t) {
      DecrementParts(s, k, t, lost);
      Recombine(p, s, Decrement(s, k, t), lost, k, t, s.Refs(k));
      assert Decrement(s, k, t).WithRefs(k, s.Refs(k)) == Decrement(s, k, t);
    }
  }

  lemma DropKeeps(p: Policy, s: State, lost: multiset<ModuleId>, k: Kind, t: Token, pid: int)
    requires Inv(p, s, lost) && s.Live(k, t)
    requires p.disciplined ==> Ref(t, pid) in s.Refs(k)
    ensures Inv(p, Drop(s, k, t, pid), lost)
  {
    var r, refs := Ref(t, pid), RemoveFirst(s.Refs(k), Ref(t, pid));
    DecrementParts(s, k, t, lost);
    HeldMember(s.Refs(k), t);
    forall t' ensures Held(refs, t') == Held(s.Refs(k), t') - (if r in s.Refs(k) && t == t' then 1 else 0) {
      HeldRemoveFirst(s.Refs(k), r, t');
    }
    HeldRemoveFirst(s.Refs(k), r, t);
    Recombine(p, s, Decrement(s, k, t), lost, k, t, refs);
  }

  // ---------------------------------------------------------------------------------------
  // Devices coming and going

  lemma InstallKeeps(p: Policy, s: State, lost: multiset<ModuleId>, i: nat, d: Dev)
    requires Inv(p, s, lost)
    requires i < |s.table| && s.table[i].None?
    requires |d.mem| == MAX_DEV_MEM_REGIONS && |d.events| == MAX_DEV_EVENTS
    requires forall r | r in d.mem + d.events :: r.refCount == 0
    requires d.ptr !in Occupants(s.table)
    requires p.covered ==> forall r | r in d.mem :: InsideMapping(r.window)
    ensures p.disciplined ==> forall k, r | r in s.Refs(k) :: r.token.device != i
    ensures Inv(p, s.(table := s.table[i := Some(d)], registered := s.registered + {d.ptr}), lost)
  {
    var s' := s.(table := s.table[i := Some(d)], registered := s.registered + {d.ptr});
    OccupantsUpdate(s.table, i, Some(d));
    forall m: ModuleId ensures Load(s'.table, m) == Load(s.table, m) {
      assert forall r | r in d.mem :: r in d.mem + d.events;
      assert forall r | r in d.events :: r in d.mem + d.events;
      TotalZero(d.mem);
      TotalZero(d.events);
      LoadUpdate(s.table, i, Some(d), m);
    }
    assert Shaped(s') by { SlotShape(s, i, Some(d)); }
    forall k, t | s'.Live(k, t)
      ensures if t.device == i then s'.At(k, t).refCount == 0 && s'.At(k, t) in d.mem + d.events
              else s.Live(k, t) && s'.At(k, t) == s.At(k, t)
    {
    }
    assert forall k :: s'.Refs(k) == s.Refs(k);
    if p.disciplined {
      forall k, t | s'.Live(k, t) && t.device == i ensures Held(s.Refs(k), t) == 0 {
        HeldMember(s.Refs(k), t);
      }
      forall k, r | r in s.Refs(k) ensures s'.Live(k, r.token) {
        assert s.Live(k, r.token);
      }
    }
  }

  /** A table slot may be filled or emptied without disturbing the shape of the rest. */
  lemma SlotShape(s: State, i: nat, o: Option<Dev>)
    requires Shaped(s) && i < |s.table|
    requires o.Some? ==> s.table[i].None? && o.value.ptr !in Occupants(s.table)
    requires o.Some? ==> |o.value.mem| == MAX_DEV_MEM_REGIONS && |o.value.events| == MAX_DEV_EVENTS
    ensures Shaped(s.(table := s.table[i := o], registered := Occupants(s.table[i := o])))
  {
    var s' := s.(table := s.table[i := o], registered := Occupants(s.table[i := o]));
    forall j | 0 <= j < |s.table| && s.table[j].Some? ensures s.table[j].value.ptr in Occupants(s.table) {
    }
    assert forall k :: s'.Refs(k) == s.Refs(k);
  }

  lemma OccupantsUpdate(table: Table, i: nat, o: Option<Dev>)
    requires i < |table|
    requires forall a, b | 0 <= a < b < |table| && table[a].Some? && table[b].Some? ::
               table[a].value.ptr != table[b].value.ptr
    ensures Occupants(table[i := o]) ==
            Occupants(table) - (if table[i].Some? then {table[i].value.ptr} else {})
            + (if o.Some? then {o.value.ptr} else {})
  {
    var table' := table[i := o];
    forall p | p in Occupants(table) && (table[i].None? || p != table[i].value.ptr) ensures p in Occupants(table') {
      var j :| 0 <= j < |table| && table[j].Some? && table[j].value.ptr == p;
      assert table'[j].Some? && table'[j].value.ptr == p;
    }
    forall p | p in Occupants(table') && (o.None? || p != o.value.ptr)
      ensures p in Occupants(table) && (table[i].Some? ==> p != table[i].value.ptr)
    {
      var j :| 0 <= j < |table| && table'[j].Some? && table'[j].value.ptr == p;
      assert j != i && table[j].Some? && table[j].value.ptr == p;
    }
    if o.Some? { assert table'[i].Some? && table'[i].value.ptr == o.value.ptr; }
  }

  /** The pins nobody will ever give back: those of a device released while claimed. */
  function Abandoned(d: Dev): multiset<ModuleId> {
    if d.owner.Some? then multiset{}[d.owner.value := DevLoad(d)] else multiset{}
  }

  lemma EvictKeeps(p: Policy, s: State, lost: multiset<ModuleId>, i: nat)
    requires Inv(p, s, lost)
    requires i < |s.table| && s.table[i].Some?
    requires p.disciplined ==>
               s.table[i].value.owner.Some? && s.pins[s.table[i].value.owner.value] == 0
    ensures Inv(p, s.(table := s.table[i := None], registered := s.registered - {s.table[i].value.ptr}),
                lost + Abandoned(s.table[i].value))
  {
    var d := s.table[i].value;
    var s' := s.(table := s.table[i := None], registered := s.registered - {d.ptr});
    OccupantsUpdate(s.table, i, None);
    forall m: ModuleId ensures Load(s'.table, m) + Abandoned(d)[m] == Load(s.table, m) {
      LoadUpdate(s.table, i, None, m);
    }
    assert s' == s.(table := s.table[i := None], registered := Occupants(s.table[i := None]));
    SlotShape(s, i, None);
    forall k, t ensures s'.Live(k, t) <==> s.Live(k, t) && t.device != i {
    }
    assert forall k, t | s'.Live(k, t) :: s'.At(k, t) == s.At(k, t);
    assert forall k :: s'.Refs(k) == s.Refs(k);
    if p.disciplined {
      IdleDeviceUnheld(s, i);
    }
  }

  /** No entry names a device whose owner is not pinned. */
  lemma IdleDeviceUnheld(s: State, i: nat)
    requires Shaped(s) && Exact(s) && PinsBalance(s, multiset{})
    requires i < |s.table| && s.table[i].Some? && s.table[i].value.owner.Some?
    requires s.pins[s.table[i].value.owner.value] == 0
    ensures DevLoad(s.table[i].value) == 0
    ensures forall k, r | r in s.Refs(k) :: r.token.device != i
  {
    var d := s.table[i].value;
    LoadUpdate(s.table, i, None, d.owner.value);
    forall k, r | r in s.Refs(k) ensures r.token.device != i {
      if r.token.device == i {
        TotalAtLeast(d.Resources(k), r.token.resource);
        HeldMember(s.Refs(k), r.token);
      }
    }
  }
}
