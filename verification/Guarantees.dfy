/** What the runs of the device manager guarantee, and exactly where they stop doing so. */
module Guarantees {
  import opened Base
  import opened Devices
  import opened Lookup
  import opened Regions
  import opened RefState
  import opened RefInvariant
  import opened RefSteps
  import opened Janitor
  import opened Runs

  // ---------------------------------------------------------------------------------------
  // Counts and entries

  /** However badly processes behave, no count exceeds the entries that could give it back. */
  lemma CountsBounded(p: Policy, steps: seq<Step>, s: State, k: Kind, t: Token)
    requires Reachable(p, steps, s) && s.Live(k, t)
    ensures s.At(k, t).refCount <= Held(s.Refs(k), t)
  {
    ReachableInv(p, steps, s);
  }

  /** In a disciplined run counts are exactly the entries, every entry names a resource of a
      device in the table, and so no process can die in a way that faults the janitor. */
  lemma DisciplinedCountsExact(p: Policy, steps: seq<Step>, s: State)
    requires Reachable(p, steps, s) && p.disciplined
    ensures forall k, t | s.Live(k, t) :: s.At(k, t).refCount == Held(s.Refs(k), t)
    ensures forall k, r | r in s.Refs(k) :: s.Live(k, r.token)
    ensures forall pid :: JanitorClose(s, pid).Some?
  {
    ReachableInv(p, steps, s);
  }

  /** So in a disciplined run the reference count request reports the number of entries, and
      an ordinary claim of a resource that is not shared is turned away exactly when some
      process has an entry for it. */
  lemma DisciplinedAnswers(p: Policy, steps: seq<Step>, s: State, k: Kind, e: Entry, q: Query)
    requires Reachable(p, steps, s) && p.disciplined && Target(s, k, e, q).Ok?
    ensures var t := Target(s, k, e, q).value;
            && CountOrDecrement(s, k, e, false, q) == (s, Ok(Held(s.Refs(k), t)))
            && forall a: ClaimArgs | a.query == q && !a.hostile ::
                 ClaimOrInfo(s, k, e, true, a).1 == Err(EBUSY) <==>
                 !s.At(k, t).shared && exists r :: r in s.Refs(k) && r.token == t
  {
    ReachableInv(p, steps, s);
    HeldMember(s.Refs(k), Target(s, k, e, q).value);
  }

  /** Along every run a module is pinned as often as its devices are referenced, plus the
      references on devices it released too early. */
  lemma PinsConserved(p: Policy, steps: seq<Step>, s: State, m: ModuleId)
    requires Reachable(p, steps, s)
    ensures s.pins[m] == Load(s.table, m) + LostAlong(Init(), steps)[m]
    ensures p.disciplined ==> s.pins[m] == Load(s.table, m)
  {
    ReachableInv(p, steps, s);
  }

  /** A module is never unpinned more often than it was pinned. */
  lemma PinsNeverUnderflow(p: Policy, steps: seq<Step>, s: State, k: Kind, t: Token)
    requires Reachable(p, steps, s) && s.Live(k, t) && s.At(k, t).refCount > 0
    ensures s.OwnerOf(k, t) <= s.pins
  {
    ReachableInv(p, steps, s);
    PinsSuffice(s, k, t, LostAlong(Init(), steps));
  }

  /** Without hostile claims a resource not marked shared has one reference at most; with
      discipline on top, one entry and so one holder. */
  lemma ExclusiveUse(p: Policy, steps: seq<Step>, s: State, k: Kind, t: Token)
    requires Reachable(p, steps, s) && p.peaceful
    requires s.Live(k, t) && !s.At(k, t).shared
    ensures s.At(k, t).refCount <= 1
    ensures p.disciplined ==>
              forall i, j | 0 <= i < j < |s.Refs(k)| :: !(s.Refs(k)[i].token == s.Refs(k)[j].token == t)
  {
    ReachableInv(p, steps, s);
    if p.disciplined {
      forall i, j | 0 <= i < j < |s.Refs(k)| && s.Refs(k)[i].token == s.Refs(k)[j].token
        ensures s.Refs(k)[i].token != t
      {
        HeldTwice(s.Refs(k), i, j);
      }
    }
  }

  /** The steps that break discipline, with the resource they take a reference from. */
  function Robbed(s: State, step: Step): Option<(Kind, Token)> {
    match step
    case InfoStep(k, e, a) =>
      var t := Target(s, k, e, a.query);
      if t.Ok? && !a.copyOut then Some((k, t.value)) else None
    case ForcedDecrementStep(k, e, q) =>
      var t := Target(s, k, e, q);
      if t.Ok? then Some((k, t.value)) else None
    case ReleaseStep(k, e, t, pid) =>
      if Ref(t, pid) !in s.Refs(k) && Release(s, k, e, t, pid).1.Ok? then Some((k, t)) else None
    case _ => None
  }

  /** Exactly which requests destroy the correspondence of counts and entries: a failing info
      reply, a forced decrement or a release by a process without an entry, when they hit a
      resource that is in use. */
  lemma RequestBreaksExactness(s: State, step: Step)
    requires Inv(Policy(true, false, false), s, multiset{}) && IsRequest(step)
    ensures Exact(Apply(s, step).value) <==>
            !(Robbed(s, step).Some? && s.At(Robbed(s, step).value.0, Robbed(s, step).value.1).refCount > 0)
  {
    var p, s' := Policy(true, false, false), Apply(s, step).value;
    if step.ClaimStep? || step.InfoStep? {
      ClaimOrInfoEffect(s, step.kind, step.entry, step.ClaimStep?, step.args);
    }
    if Robbed(s, step).Some? {
      var (k, t) := Robbed(s, step).value;
      if step.ReleaseStep? { RemoveFirstAbsent(s.Refs(k), Ref(step.token, step.pid)); }
      assert s'.Refs(k) == s.Refs(k);
      assert s' == Decrement(s, k, t);
      if s.At(k, t).refCount > 0 {
        DecrementParts(s, k, t, multiset{});
        assert s'.Live(k, t) && s'.At(k, t).refCount == Held(s.Refs(k), t) - 1;
      }
    } else if Disciplined(s, step) {
      StepKeeps(p, s, multiset{}, step);
    } else {
      assert s' == s;
    }
  }

  /** Why a device must not leave while it is claimed: afterwards the janitor faults for
      exactly those processes that have an entry for one of its resources. */
  lemma ReleasedDeviceFaultsJanitor(s: State, ptr: Device, unregister: Option<Errno>, pid: int)
    requires Inv(Policy(true, false, false), s, multiset{}) && FindSlot(s.table, Some(ptr)).Some?
    ensures JanitorClose(ReleaseDevice(s, ptr, unregister).0, pid).None? <==>
            exists k, r :: r in s.Refs(k) && r.pid == pid && r.token.device == FindSlot(s.table, Some(ptr)).value
  {
    var i := FindSlot(s.table, Some(ptr)).value;
    var s' := ReleaseDevice(s, ptr, unregister).0;
    assert forall k :: s'.Refs(k) == s.Refs(k);
    forall k, t ensures s'.Live(k, t) <==> s.Live(k, t) && t.device != i {
    }
  }

  // ---------------------------------------------------------------------------------------
  // Claims

  /** A claim that reports an error, whichever, changed nothing; one that succeeds is undone
      without trace when the same process releases the token it was given. */
  lemma ClaimIsAllOrNothing(s: State, k: Kind, e: Entry, a: ClaimArgs)
    ensures var (s', r) := ClaimOrInfo(s, k, e, true, a);
            if r.Err? then s' == s
            else s'.Refs(k) == [Ref(r.value.token, a.pid)] + s.Refs(k)
                 && forall e2 | EntryError(e2).None? :: Release(s', k, e2, r.value.token, a.pid) == (s, Ok(()))
  {
    ClaimOrInfoEffect(s, k, e, true, a);
    var (s', r) := ClaimOrInfo(s, k, e, true, a);
    if r.Ok? {
      var t := r.value.token;
      AcquireThenDrop(s, k, t, a.pid);
      CountFrame(s.table, k, t, s.At(k, t).refCount + 1);
      assert s'.Live(k, t);
    }
  }

  lemma AcquireThenDrop(s: State, k: Kind, t: Token, pid: int)
    requires s.Live(k, t)
    ensures Drop(Acquire(s, k, t, pid), k, t, pid) == s
  {
    var s1, list := Increment(s, k, t), [Ref(t, pid)] + s.Refs(k);
    DecrementUndoesIncrement(s, k, t);
    assert s1.WithRefs(k, list).table == s1.table;
    assert Decrement(s1.WithRefs(k, list), k, t) == Decrement(s1, k, t).WithRefs(k, list);
    assert list[1..] == s.Refs(k);
    assert s.WithRefs(k, list).WithRefs(k, s.Refs(k)) == s;
  }

  // ---------------------------------------------------------------------------------------
  // Lookups

  /** Searches look at names only. */
  lemma {:induction false} FindResourceIgnoresCounts(rs: seq<Resource>, rs': seq<Resource>, name: string)
    requires |rs| == |rs'| && forall i | 0 <= i < |rs| :: rs[i].name == rs'[i].name
    ensures FindResource(rs, name) == FindResource(rs', name)
  {
    var r, r' := FindResource(rs, name), FindResource(rs', name);
    assert forall i | 0 <= i < |rs| :: Named(rs[i], name) == Named(rs'[i], name);
  }

  lemma LocateIgnoresCounts(table: Table, k: Kind, t: Token, n: nat, q: Query)
    requires LiveIn(table, k, t)
    ensures Locate(SetCount(table, k, t, n), q, k) == Locate(table, q, k)
  {
    var table' := SetCount(table, k, t, n);
    forall i: nat, name | i < |table| && table[i].Some?
      ensures FindResource(table'[i].value.Resources(k), name) == FindResource(table[i].value.Resources(k), name)
    {
      FindResourceIgnoresCounts(table[i].value.Resources(k), table'[i].value.Resources(k), name);
    }
    forall i: nat ensures MatchesAt(table', i, q, Some(k)) == MatchesAt(table, i, q, Some(k)) {
    }
    var r, r' := FindDevice(table, q, Some(k), 0), FindDevice(table', q, Some(k), 0);
    assert r == r';
  }

  // ---------------------------------------------------------------------------------------
  // Windows

  /** When drivers give windows that fit after defaulting, every exposed window of every
      device in the table lies inside its mapping. */
  lemma WindowsInsideMappings(p: Policy, steps: seq<Step>, s: State, t: Token)
    requires Reachable(p, steps, s) && p.covered && s.Live(Memory, t)
    ensures InsideMapping(s.At(Memory, t).window)
  {
    ReachableInv(p, steps, s);
  }
}
