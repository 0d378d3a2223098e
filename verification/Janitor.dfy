/** The cleanup after a dead process, against the releases that process never made. */
module Janitor {
  import opened Base
  import opened Devices
  import opened RefState
  import opened RefInvariant
  import opened RefSteps

  /** A request that passes the entry checks. */
  function GoodEntry(): Entry {
    Entry(true, 0x10000 * KERNEL_MAJOR)
  }

  /** The entries of one process, in order. */
  function Mine(refs: seq<Ref>, pid: int): seq<Ref> {
    if refs == [] then []
    else (if refs[0].pid == pid then [refs[0]] else []) + Mine(refs[1..], pid)
  }

  /** The process that made these entries releases them one request at a time. */
  function ReleaseEach(s: State, k: Kind, refs: seq<Ref>): State
    decreases |refs|
  {
    if refs == [] then s
    else ReleaseEach(Release(s, k, GoodEntry(), refs[0].token, refs[0].pid).0, k, refs[1..])
  }

  lemma {:induction false} RemoveFirstAfter(pre: seq<Ref>, r: Ref, rest: seq<Ref>)
    requires r !in pre
    ensures RemoveFirst(pre + [r] + rest, r) == pre + rest
  {
    var whole := pre + [r] + rest;
    if pre == [] {
      assert whole[1..] == rest;
    } else {
      RemoveFirstAfter(pre[1..], r, rest);
      assert whole[1..] == pre[1..] + [r] + rest;
      assert pre[0] in pre;
    }
  }

  lemma {:induction false} RemoveFirstAbsent(refs: seq<Ref>, r: Ref)
    requires r !in refs
    ensures RemoveFirst(refs, r) == refs
  {
    if refs != [] { RemoveFirstAbsent(refs[1..], r); }
  }

  /** Deleting an entry in the middle of the walk is deleting its first occurrence. */
  lemma {:induction false} RemoveFirstAt(refs: seq<Ref>, i: nat)
    requires i < |refs| && refs[i] !in refs[..i]
    ensures RemoveFirst(refs, refs[i]) == refs[..i] + refs[i + 1..]
  {
    if i > 0 {
      var tail := refs[1..];
      assert refs[..i][0] == refs[0] && refs[..i][1..] == tail[..i - 1];
      RemoveFirstAt(tail, i - 1);
      assert [refs[0]] + (tail[..i - 1] + tail[i..]) == refs[..i] + refs[i + 1..];
    }
  }

  lemma {:induction false} DecrementAllIgnoresList(s: State, k: Kind, refs: seq<Ref>, pid: int, list: seq<Ref>)
    ensures DecrementAll(s.WithRefs(k, list), k, refs, pid) == DecrementAll(s, k, refs, pid).WithRefs(k, list)
    decreases |refs|
  {
    if refs != [] {
      var s1 := if refs[0].pid == pid then Decrement(s, k, refs[0].token) else s;
      DecrementAllIgnoresList(s1, k, refs[1..], pid, list);
    }
  }

  /** The state of a sweep that has dealt with the entries up to rest. */
  function SweepRest(s: State, k: Kind, pre: seq<Ref>, rest: seq<Ref>, pid: int): State {
    DecrementAll(s, k, rest, pid).WithRefs(k, pre + Others(rest, pid))
  }

  /** One more entry of the sweep. */
  lemma SweepNext(s: State, k: Kind, pre: seq<Ref>, rest: seq<Ref>, pid: int)
    requires rest != [] && s.Refs(k) == pre + rest
    requires forall r | r in pre :: r.pid != pid
    ensures var t := rest[0].token;
            if rest[0].pid == pid
            then Drop(s, k, t, pid).Refs(k) == pre + rest[1..]
                 && SweepRest(s, k, pre, rest, pid) == SweepRest(Drop(s, k, t, pid), k, pre, rest[1..], pid)
            else pre + [rest[0]] + rest[1..] == s.Refs(k)
                 && SweepRest(s, k, pre, rest, pid) == SweepRest(s, k, pre + [rest[0]], rest[1..], pid)
  {
    assert rest == [rest[0]] + rest[1..];
    if rest[0].pid == pid {
      var t := rest[0].token;
      assert pre + rest == pre + [rest[0]] + rest[1..];
      RemoveFirstAfter(pre, rest[0], rest[1..]);
      DecrementAllIgnoresList(Decrement(s, k, t), k, rest[1..], pid, pre + rest[1..]);
    } else {
      assert pre + Others(rest, pid) == pre + [rest[0]] + Others(rest[1..], pid);
    }
  }

  lemma DropKeepsLiveness(s: State, k: Kind, t: Token, pid: int)
    ensures forall k', t' :: Drop(s, k, t, pid).Live(k', t') <==> s.Live(k', t')
  {
    if s.Live(k, t) && s.At(k, t).refCount > 0 {
      CountFrame(s.table, k, t, s.At(k, t).refCount - 1);
    }
  }

  lemma {:induction false} SweepRestIsReleases(s: State, k: Kind, pre: seq<Ref>, rest: seq<Ref>, pid: int)
    requires s.Refs(k) == pre + rest
    requires forall r | r in pre :: r.pid != pid
    requires forall r | r in rest && r.pid == pid :: s.Live(k, r.token)
    ensures SweepRest(s, k, pre, rest, pid) == ReleaseEach(s, k, Mine(rest, pid))
    ensures forall k', t' :: SweepRest(s, k, pre, rest, pid).Live(k', t') <==> s.Live(k', t')
    decreases |rest|
  {
    if rest == [] {
      assert pre + [] == s.Refs(k);
      assert s.WithRefs(k, s.Refs(k)) == s;
    } else {
      SweepNext(s, k, pre, rest, pid);
      if rest[0].pid == pid {
        var t := rest[0].token;
        assert rest[0] in rest;
        DropKeepsLiveness(s, k, t, pid);
        SweepRestIsReleases(Drop(s, k, t, pid), k, pre, rest[1..], pid);
        var mine := Mine(rest, pid);
        assert mine[0] == rest[0] && mine[1..] == Mine(rest[1..], pid);
      } else {
        SweepRestIsReleases(s, k, pre + [rest[0]], rest[1..], pid);
        assert Mine(rest, pid) == Mine(rest[1..], pid);
      }
    }
  }

  ghost predicate SweepSafeFor(s: State, k: Kind, pid: int) {
    AllLive(s, k, s.Refs(k), pid)
  }

  /** Of these entries, those of this process name resources of devices in the table. */
  ghost predicate AllLive(s: State, k: Kind, refs: seq<Ref>, pid: int) {
    forall r | r in refs && r.pid == pid :: s.Live(k, r.token)
  }

  lemma AllLiveNext(s: State, k: Kind, refs: seq<Ref>, pid: int)
    requires refs != []
    ensures refs[0].pid == pid && !s.Live(k, refs[0].token) ==> !AllLive(s, k, refs, pid)
    ensures refs[0].pid != pid ==> (AllLive(s, k, refs, pid) <==> AllLive(s, k, refs[1..], pid))
    ensures refs[0].pid == pid && s.Live(k, refs[0].token) ==>
              (AllLive(s, k, refs, pid) <==> AllLive(Drop(s, k, refs[0].token, pid), k, refs[1..], pid))
  {
    DropKeepsLiveness(s, k, refs[0].token, pid);
    assert refs[0] in refs;
    assert forall r :: r in refs <==> r == refs[0] || r in refs[1..];
  }

  /** One half of the cleanup. */
  lemma SweepIsReleases(s: State, k: Kind, pid: int)
    requires SweepSafeFor(s, k, pid)
    ensures Sweep(s, k, pid) == ReleaseEach(s, k, Mine(s.Refs(k), pid))
    ensures forall k', t' :: Sweep(s, k, pid).Live(k', t') <==> s.Live(k', t')
    ensures forall k' :: Sweep(s, k, pid).Refs(k') == if k' == k then Others(s.Refs(k), pid) else s.Refs(k')
  {
    assert [] + s.Refs(k) == s.Refs(k);
    SweepRestIsReleases(s, k, [], s.Refs(k), pid);
    SweepIsRest(s, k, pid);
    DecrementAllList(s, k, s.Refs(k), pid);
  }

  /** The janitor faults in one of its two sweeps, the second of which finds the entries and
      the devices the first has left alone. */
  lemma SweepsSafe(s: State, pid: int)
    ensures SweepSafe(s, pid) <==>
            SweepSafeFor(s, Memory, pid) && SweepSafeFor(Sweep(s, Memory, pid), EventSource, pid)
  {
    assert SweepSafe(s, pid) <==> SweepSafeFor(s, Memory, pid) && SweepSafeFor(s, EventSource, pid);
    if SweepSafeFor(s, Memory, pid) { SweepIsReleases(s, Memory, pid); }
  }

  /** Where it does not fault, closing the janitor file of a process does exactly what that
      process would have done by releasing each of its entries in order: same counts, same
      pins, and the entries of the other processes in their order. */
  lemma JanitorIsReleases(s: State, pid: int)
    requires SweepSafe(s, pid)
    ensures var s1 := ReleaseEach(s, Memory, Mine(s.memRefs, pid));
            var s2 := ReleaseEach(s1, EventSource, Mine(s.eventRefs, pid));
            && JanitorClose(s, pid) == Some(s2)
            && s2.memRefs == Others(s.memRefs, pid) && s2.eventRefs == Others(s.eventRefs, pid)
  {
    assert SweepSafeFor(s, Memory, pid) && SweepSafeFor(s, EventSource, pid);
    SweepIsReleases(s, Memory, pid);
    var s1 := Sweep(s, Memory, pid);
    assert s1.Refs(EventSource) == s.Refs(EventSource) && s1.Refs(Memory) == Others(s.memRefs, pid);
    SweepIsReleases(s1, EventSource, pid);
    var s2 := Sweep(s1, EventSource, pid);
    assert s2.Refs(Memory) == s1.Refs(Memory) && s2.Refs(EventSource) == Others(s.eventRefs, pid);
  }

  lemma {:induction false} OthersMembers(refs: seq<Ref>, pid: int)
    ensures forall r :: r in Others(refs, pid) <==> r in refs && r.pid != pid
  {
    if refs != [] {
      OthersMembers(refs[1..], pid);
      assert forall r :: r in refs <==> r == refs[0] || r in refs[1..];
    }
  }

  /** What a process registers with the janitor for: once its file is closed, nobody holds
      anything in its name, and the entries of all others are as they were, in order. */
  lemma JanitorForgets(s: State, pid: int)
    requires SweepSafe(s, pid)
    ensures var s' := JanitorClose(s, pid).value;
            && (forall k, r | r in s'.Refs(k) :: r.pid != pid)
            && (forall k, r | r in s.Refs(k) && r.pid != pid :: r in s'.Refs(k))
            && s'.memRefs == Others(s.memRefs, pid) && s'.eventRefs == Others(s.eventRefs, pid)
  {
    JanitorIsReleases(s, pid);
    OthersMembers(s.memRefs, pid);
    OthersMembers(s.eventRefs, pid);
    var s' := JanitorClose(s, pid).value;
    assert s'.Refs(Memory) == s'.memRefs && s'.Refs(EventSource) == s'.eventRefs;
  }

  lemma SweepIsRest(s: State, k: Kind, pid: int)
    ensures Sweep(s, k, pid) == SweepRest(s, k, [], s.Refs(k), pid)
  {
    assert [] + Others(s.Refs(k), pid) == Others(s.Refs(k), pid);
  }

  lemma {:induction false} DecrementAllList(s: State, k: Kind, refs: seq<Ref>, pid: int)
    ensures DecrementAll(s, k, refs, pid).memRefs == s.memRefs
    ensures DecrementAll(s, k, refs, pid).eventRefs == s.eventRefs
    decreases |refs|
  {
    if refs != [] {
      DecrementAllList(if refs[0].pid == pid then Decrement(s, k, refs[0].token) else s, k, refs[1..], pid);
    }
  }

  /** A sweep keeps the invariant, each of its removals being a release by a holder. */
  lemma {:induction false} SweepRestKeeps(p: Policy, s: State, lost: multiset<ModuleId>, k: Kind,
                                          pre: seq<Ref>, rest: seq<Ref>, pid: int)
    requires Inv(p, s, lost) && s.Refs(k) == pre + rest
    requires forall r | r in pre :: r.pid != pid
    requires forall r | r in rest && r.pid == pid :: s.Live(k, r.token)
    ensures Inv(p, SweepRest(s, k, pre, rest, pid), lost)
    decreases |rest|
  {
    if rest == [] {
      assert pre + [] == s.Refs(k);
      assert s.WithRefs(k, s.Refs(k)) == s;
    } else {
      SweepNext(s, k, pre, rest, pid);
      if rest[0].pid == pid {
        var t := rest[0].token;
        assert rest[0] in rest && rest[0] in s.Refs(k);
        DropKeepsLiveness(s, k, t, pid);
        DropKeeps(p, s, lost, k, t, pid);
        SweepRestKeeps(p, Drop(s, k, t, pid), lost, k, pre, rest[1..], pid);
      } else {
        SweepRestKeeps(p, s, lost, k, pre + [rest[0]], rest[1..], pid);
      }
    }
  }

  lemma SweepKeeps(p: Policy, s: State, lost: multiset<ModuleId>, k: Kind, pid: int)
    requires Inv(p, s, lost) && SweepSafeFor(s, k, pid)
    ensures Inv(p, Sweep(s, k, pid), lost)
  {
    assert [] + s.Refs(k) == s.Refs(k);
    SweepRestKeeps(p, s, lost, k, [], s.Refs(k), pid);
    SweepIsRest(s, k, pid);
  }

  lemma JanitorKeeps(p: Policy, s: State, lost: multiset<ModuleId>, pid: int)
    requires Inv(p, s, lost) && SweepSafe(s, pid)
    ensures Inv(p, JanitorClose(s, pid).value, lost)
  {
    assert SweepSafeFor(s, Memory, pid) && SweepSafeFor(s, EventSource, pid);
    SweepIsReleases(s, Memory, pid);
    SweepKeeps(p, s, lost, Memory, pid);
    SweepKeeps(p, Sweep(s, Memory, pid), lost, EventSource, pid);
  }
}
