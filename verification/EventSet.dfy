/** Sets of event sources to wait for. */
module EventSet {
  import opened Base

  // ---------------------------------------------------------------------------------------
  // The set after any sequence of operations

  datatype SetOp = Zero | Add(fd: nat) | Remove(fd: nat)

  datatype FdSet = FdSet(fds: set<nat>, maxFd: nat)

  function ApplyOp(s: FdSet, op: SetOp): FdSet {
    match op
    case Zero => FdSet({}, 0)
    case Add(fd) => FdSet(s.fds + {fd}, if fd > s.maxFd then fd else s.maxFd)
    case Remove(fd) => FdSet(s.fds - {fd}, s.maxFd)
  }

  function ApplyOps(s: FdSet, ops: seq<SetOp>): FdSet {
    if ops == [] then s else ApplyOp(ApplyOps(s, ops[..|ops| - 1]), ops[|ops| - 1])
  }

  /** fd was added at some point, and neither removed nor cleared away later. */
  ghost predicate Present(ops: seq<SetOp>, fd: nat) {
    exists i :: 0 <= i < |ops| && ops[i] == Add(fd)
                && forall j | i < j < |ops| :: ops[j] != Remove(fd) && ops[j] != Zero
  }

  /** fd was added since the set was last cleared. */
  ghost predicate AddedSinceZero(ops: seq<SetOp>, fd: nat) {
    exists i :: 0 <= i < |ops| && ops[i] == Add(fd) && forall j | i < j < |ops| :: ops[j] != Zero
  }

  lemma PresentSnoc(ops: seq<SetOp>, op: SetOp, fd: nat)
    ensures Present(ops + [op], fd) <==> op == Add(fd) || (Present(ops, fd) && op != Remove(fd) && op != Zero)
  {
    var all := ops + [op];
    if Present(ops, fd) && op != Remove(fd) && op != Zero {
      var i :| 0 <= i < |ops| && ops[i] == Add(fd)
               && forall j | i < j < |ops| :: ops[j] != Remove(fd) && ops[j] != Zero;
      assert all[i] == Add(fd);
    }
    if op == Add(fd) { assert all[|ops|] == Add(fd); }
    if Present(all, fd) && op != Add(fd) {
      var i :| 0 <= i < |all| && all[i] == Add(fd)
               && forall j | i < j < |all| :: all[j] != Remove(fd) && all[j] != Zero;
      assert ops[i] == Add(fd) && all[|ops|] == op;
      assert forall j | i < j < |ops| :: ops[j] == all[j];
    }
  }

  lemma AddedSnoc(ops: seq<SetOp>, op: SetOp, fd: nat)
    ensures AddedSinceZero(ops + [op], fd) <==> op == Add(fd) || (AddedSinceZero(ops, fd) && op != Zero)
  {
    var all := ops + [op];
    if AddedSinceZero(ops, fd) && op != Zero {
      var i :| 0 <= i < |ops| && ops[i] == Add(fd) && forall j | i < j < |ops| :: ops[j] != Zero;
      assert all[i] == Add(fd);
    }
    if op == Add(fd) { assert all[|ops|] == Add(fd); }
    if AddedSinceZero(all, fd) && op != Add(fd) {
      var i :| 0 <= i < |all| && all[i] == Add(fd) && forall j | i < j < |all| :: all[j] != Zero;
      assert ops[i] == Add(fd) && all[|ops|] == op;
      assert forall j | i < j < |ops| :: ops[j] == all[j];
    }
  }

  /** The members are those present by history; max_fd is 0 or the largest descriptor added
      since the last clearing, so it bounds the members. */
  ghost predicate TellsHistory(r: FdSet, ops: seq<SetOp>) {
    && (forall fd: nat :: fd in r.fds <==> Present(ops, fd))
    && (forall fd: nat | AddedSinceZero(ops, fd) :: fd <= r.maxFd)
    && (r.maxFd == 0 || AddedSinceZero(ops, r.maxFd))
    && (forall fd | fd in r.fds :: fd <= r.maxFd)
  }

  /** So it is after any sequence of operations that starts by clearing the structure,
      whatever it held before. */
  lemma {:induction false} MembersAndBound(s: FdSet, ops: seq<SetOp>)
    requires ops != [] && ops[0] == Zero
    ensures TellsHistory(ApplyOps(s, ops), ops)
    decreases |ops|
  {
    var before, op := ops[..|ops| - 1], ops[|ops| - 1];
    assert ops == before + [op];
    if before != [] { MembersAndBound(s, before); }
    forall fd: nat
      ensures Present(ops, fd) <==> op == Add(fd) || (Present(before, fd) && op != Remove(fd) && op != Zero)
      ensures AddedSinceZero(ops, fd) <==> op == Add(fd) || (AddedSinceZero(before, fd) && op != Zero)
    {
      PresentSnoc(before, op, fd);
      AddedSnoc(before, op, fd);
    }
  }

  // ---------------------------------------------------------------------------------------
  // Waiting

  /** The members in increasing order. */
  ghost predicate IsAscendingListOf(list: seq<nat>, s: set<nat>) {
    && (forall fd :: fd in list <==> fd in s)
    && (forall i, j | 0 <= i < j < |list| :: list[i] < list[j])
  }

  function Below(s: set<nat>, bound: nat): set<nat> {
    set fd | fd in s && fd < bound
  }

  /** One more descriptor looked at. */
  lemma AscendingStep(list: seq<nat>, s: set<nat>, fd: nat)
    requires IsAscendingListOf(list, Below(s, fd))
    ensures IsAscendingListOf(if fd in s then list + [fd] else list, Below(s, fd + 1))
  {
    assert Below(s, fd + 1) == Below(s, fd) + (if fd in s then {fd} else {});
    assert forall i | 0 <= i < |list| :: list[i] in list;
  }

  lemma {:induction false} AscendingListSize(list: seq<nat>, s: set<nat>)
    requires IsAscendingListOf(list, s)
    ensures |list| == |s|
    decreases |list|
  {
    if list == [] {
      assert s == {};
    } else {
      var last := list[|list| - 1];
      var init := list[..|list| - 1];
      assert forall fd :: fd in list <==> fd in init || fd == last;
      AscendingListSize(init, s - {last});
    }
  }

  /** What select and the reads after it do: the descriptors select reports ready, or its
      errno, and the errno of reading a descriptor, where that fails. */
  datatype Kernel = Kernel(ready: Result<set<nat>>, readErrno: map<nat, int>)

  class EventSrcSet {
    var fds: set<nat>
    var maxFd: nat

    /** Holds from the first Zero on. */
    predicate Valid()
      reads this
    {
      forall fd | fd in fds :: fd <= maxFd
    }

    function View(): FdSet
      reads this
    {
      FdSet(fds, maxFd)
    }

    method Zero()
      modifies this
      ensures Valid() && View() == ApplyOp(old(View()), SetOp.Zero)
    {
      fds := {};
      maxFd := 0;
    }

    method Add(fd: nat)
      modifies this
      ensures View() == ApplyOp(old(View()), SetOp.Add(fd))
      ensures old(Valid()) ==> Valid()
    {
      fds := fds + {fd};
      if fd > maxFd { maxFd := fd; }
    }

    method Remove(fd: nat)
      modifies this
      ensures View() == ApplyOp(old(View()), SetOp.Remove(fd))
      ensures old(Valid()) ==> Valid()
    {
      fds := fds - {fd};
    }

    method Contains(fd: nat) returns (b: bool)
      ensures b == (fd in fds)
    {
      return fd in fds;
    }

    /** Copies the set into result (or a scratch set), lets select cut it down to the ready
        descriptors, and reads each of these once. consumed lists the descriptors read. */
    method TimedWait(result: EventSrcSet?, kernel: Kernel) returns (r: Result<nat>, consumed: seq<nat>)
      requires Valid()
      requires kernel.ready.Ok? ==> kernel.ready.value <= fds
      modifies if result == null then {} else {result}
      ensures kernel.ready.Err? ==> r == Err(kernel.ready.error) && consumed == []
      ensures result != null ==>
                && result.fds == (if kernel.ready.Ok? then kernel.ready.value else old(fds))
                && result.maxFd == old(maxFd)
      ensures kernel.ready.Ok? && kernel.ready.value !! kernel.readErrno.Keys ==>
                var ready := kernel.ready.value;
                && IsAscendingListOf(consumed, ready)
                && r == (if ready == {} then Err(ETIMEDOUT) else Ok(|ready|))
      ensures kernel.ready.Ok? && !(kernel.ready.value !! kernel.readErrno.Keys) ==>
                && consumed != []
                && var bad := consumed[|consumed| - 1];
                   && bad in kernel.readErrno && r == Err(Os(kernel.readErrno[bad]))
                   && IsAscendingListOf(consumed, Below(kernel.ready.value, bad + 1))
                   && forall fd | fd in consumed && fd != bad :: fd !in kernel.readErrno
    {
      consumed := [];
      var res: EventSrcSet;
      if result == null { res := new EventSrcSet; } else { res := result; }
      res.fds, res.maxFd := fds, maxFd;
      if kernel.ready.Err? { return Err(kernel.ready.error), []; }
      var ready := kernel.ready.value;
      res.fds := ready;
      var count := 0;
      for fd := 0 to res.maxFd + 1
        invariant res.fds == ready && res.maxFd == old(maxFd)
        invariant count == |consumed| && IsAscendingListOf(consumed, Below(ready, fd))
        invariant forall f | f in consumed :: f !in kernel.readErrno
      {
        AscendingStep(consumed, ready, fd);
        if fd in res.fds {
          count := count + 1;
          consumed := consumed + [fd];
          if fd in kernel.readErrno { return Err(Os(kernel.readErrno[fd])), consumed; }
        }
      }
      assert Below(ready, res.maxFd + 1) == ready;
      AscendingListSize(consumed, ready);
      if count == 0 { return Err(ETIMEDOUT), consumed; }
      return Ok(count), consumed;
    }
  }
}
