/** The user-space library calls composed of several requests. */
module UserSpace {
  import opened Base
  import opened Devices
  import opened Lookup
  import opened RefState
  import opened Runs
  import opened Guarantees
  import opened Outcomes
  import opened DeviceManager

  /** The errnos with which opening and closing the manager device fail, if they do. */
  datatype Channel = Channel(openErrno: Option<int>, closeErrno: Option<int>)

  // ---------------------------------------------------------------------------------------
  // Claiming and mapping

  function UserClaim(s: State, k: Kind, ch: Channel, e: Entry, a: ClaimArgs): (State, Result<Info>) {
    if ch.openErrno.Some? then (s, Err(Os(ch.openErrno.value))) else
    var (s1, r) := ClaimOrInfo(s, k, e, true, a);
    (s1, if r.Ok? && ch.closeErrno.Some? then Err(Os(ch.closeErrno.value)) else r)
  }

  function UserRelease(s: State, k: Kind, ch: Channel, e: Entry, t: Token, pid: int): (State, Result<()>) {
    if ch.openErrno.Some? then (s, Err(Os(ch.openErrno.value))) else
    var (s1, r) := Release(s, k, e, t, pid);
    (s1, if r.Ok? && ch.closeErrno.Some? then Err(Os(ch.closeErrno.value)) else r)
  }

  /** What a caller gets: base is the page-aligned address of the mapping, or the descriptor
      of an event source. */
  datatype Handle = Handle(base: nat, info: Info) {
    /** The address handed out for a memory region. */
    function Address(): nat {
      base + info.window.startOffset
    }
  }

  /** cuddl_memregion_claim_and_map and cuddl_eventsrc_claim_and_open; attach is the outcome of
      opening the device node and mapping it. */
  function ClaimAndAttach(s: State, k: Kind, ch: Channel, e: Entry, a: ClaimArgs, attach: Result<nat>,
                          ch2: Channel, e2: Entry)
    : (State, Result<Handle>)
  {
    var (s1, claimed) := UserClaim(s, k, ch, e, a);
    if claimed.Err? then (s1, Err(claimed.error))
    else if attach.Ok? then (s1, Ok(Handle(attach.value, claimed.value)))
    else (UserRelease(s1, k, ch2, e2, claimed.value.token, a.pid).0, Err(attach.error))
  }

  /** cuddl_memregion_unmap_and_release and cuddl_eventsrc_close_and_release. */
  function DetachAndRelease(s: State, k: Kind, detach: Option<Errno>, ch: Channel, e: Entry, t: Token, pid: int)
    : (State, Result<()>)
  {
    var (s1, r) := UserRelease(s, k, ch, e, t, pid);
    (s1, if detach.Some? then Err(detach.value) else r)
  }

  /** The claim went through, but closing the manager device failed, or the release that
      follows a failed attach does not reach the manager. */
  predicate LeaksClaim(s: State, k: Kind, ch: Channel, e: Entry, a: ClaimArgs, ch2: Channel, e2: Entry) {
    && ch.openErrno.None? && ClaimOrInfo(s, k, e, true, a).1.Ok?
    && (ch.closeErrno.Some? || ch2.openErrno.Some? || EntryError(e2).Some?)
  }

  /** What a caller is handed, and when: the mapping, or the opened event source, of the
      resource the name leads to, with the first byte of the region at the region's offset into
      the mapping, and one more reference in this process's name. */
  lemma ClaimAndAttachHandsOut(s: State, k: Kind, ch: Channel, e: Entry, a: ClaimArgs, attach: Result<nat>,
                               ch2: Channel, e2: Entry)
    requires Target(s, k, e, a.query).Ok?
    ensures var (s', r) := ClaimAndAttach(s, k, ch, e, a, attach, ch2, e2);
            var t := Target(s, k, e, a.query).value;
            var res := s.At(k, t);
            && (r.Ok? <==> (res.refCount == 0 || res.shared || a.hostile) && a.copyOut && a.alloc
                           && ch == Channel(None, None) && attach.Ok?)
            && (r.Ok? ==>
                  && r.value.base == attach.value && r.value.Address() == attach.value + res.window.startOffset
                  && r.value.info == Info(t, res.window, res.shared)
                  && OnlyCount(s, s', k, t, res.refCount + 1, s.pins + Pin(s, t), [Ref(t, a.pid)] + s.Refs(k)))
  {
    ClaimOutcome(s, k, e, a);
  }

  /** The error reported is the first one met; what becomes of the compensating release is
      never reported. */
  lemma ClaimAndAttachErrors(s: State, k: Kind, ch: Channel, e: Entry, a: ClaimArgs, attach: Result<nat>,
                             ch2: Channel, e2: Entry)
    ensures var (s', r) := ClaimAndAttach(s, k, ch, e, a, attach, ch2, e2);
            var claimed := ClaimOrInfo(s, k, e, true, a).1;
            && (ch.openErrno.Some? ==> r == Err(Os(ch.openErrno.value)))
            && (ch.openErrno.None? && claimed.Err? ==> r == Err(claimed.error))
            && (ch.openErrno.None? && claimed.Ok? && ch.closeErrno.Some? ==> r == Err(Os(ch.closeErrno.value)))
            && (ch == Channel(None, None) && claimed.Ok? && attach.Err? ==> r == Err(attach.error))
  {
  }

  /** Unmap-and-release gives the reference back even if unmapping fails, unless the manager
      device cannot be opened; unmapping's error is reported before releasing's. */
  lemma DetachAndReleaseOutcome(s: State, k: Kind, detach: Option<Errno>, ch: Channel, e: Entry, t: Token, pid: int)
    ensures var (s', r) := DetachAndRelease(s, k, detach, ch, e, t, pid);
            var (released, answer) := Release(s, k, e, t, pid);
            && s' == (if ch.openErrno.Some? then s else released)
            && (r.Ok? <==> detach.None? && ch == Channel(None, None) && EntryError(e).None? && s.Live(k, t))
            && (detach.Some? ==> r == Err(detach.value))
            && (detach.None? && ch.openErrno.Some? ==> r == Err(Os(ch.openErrno.value)))
            && (detach.None? && ch.openErrno.None? && answer.Err? ==> r == answer)
            && (detach.None? && ch.openErrno.None? && answer.Ok? && ch.closeErrno.Some? ==>
                  r == Err(Os(ch.closeErrno.value)))
  {
    ReleaseOutcome(s, k, e, t, pid);
  }

  /** A failed claim-and-map leaves no trace exactly when it does not leak its claim; after a
      successful one, unmap-and-release restores the state, whatever unmapping reports. */
  lemma ClaimAndAttachIsAllOrNothing(s: State, k: Kind, ch: Channel, e: Entry, a: ClaimArgs, attach: Result<nat>,
                                     ch2: Channel, e2: Entry)
    ensures var (s', r) := ClaimAndAttach(s, k, ch, e, a, attach, ch2, e2);
            if r.Err? then s' == s <==> !LeaksClaim(s, k, ch, e, a, ch2, e2)
            else forall detach, ch3, e3 | ch3 == Channel(None, None) && EntryError(e3).None? ::
                   DetachAndRelease(s', k, detach, ch3, e3, r.value.info.token, a.pid).0 == s
  {
    ClaimIsAllOrNothing(s, k, e, a);
    var (s1, claimed) := ClaimOrInfo(s, k, e, true, a);
    if claimed.Ok? {
      assert |s1.Refs(k)| == |s.Refs(k)| + 1;
    }
  }

  /** The bytes a successful claim-and-map hands out lie in the mapping it made, in any state
      reached with drivers whose windows fit. */
  lemma HandedOutBytesAreMapped(p: Policy, steps: seq<Step>, s: State, ch: Channel, e: Entry, a: ClaimArgs,
                                attach: Result<nat>, ch2: Channel, e2: Entry)
    requires Reachable(p, steps, s) && p.covered
    ensures var r := ClaimAndAttach(s, Memory, ch, e, a, attach, ch2, e2).1;
            r.Ok? ==>
              var h := r.value;
              h.base <= h.Address() && h.Address() + h.info.window.len <= h.base + h.info.window.paLen
  {
    var r := ClaimAndAttach(s, Memory, ch, e, a, attach, ch2, e2).1;
    if r.Ok? {
      ClaimOrInfoEffect(s, Memory, e, true, a);
      WindowsInsideMappings(p, steps, s, r.value.info.token);
    }
  }

  method ClaimAndAttachCall(m: Manager, k: Kind, ch: Channel, e: Entry, a: ClaimArgs, attach: Result<nat>,
                            ch2: Channel, e2: Entry)
    returns (r: Result<Handle>)
    requires m.Valid()
    modifies m`pins, m`memRefs, m`eventRefs, m`state, m.devices[..]
    ensures m.Valid() && (m.state, r) == ClaimAndAttach(old(m.state), k, ch, e, a, attach, ch2, e2)
  {
    var claimed := ClaimCall(m, k, ch, e, a);
    if claimed.Err? { return Err(claimed.error); }
    if attach.Err? {
      var _ := ReleaseCall(m, k, ch2, e2, claimed.value.token, a.pid);
      return Err(attach.error);
    }
    return Ok(Handle(attach.value, claimed.value));
  }

  method ClaimCall(m: Manager, k: Kind, ch: Channel, e: Entry, a: ClaimArgs) returns (r: Result<Info>)
    requires m.Valid()
    modifies m`pins, m`memRefs, m`eventRefs, m`state, m.devices[..]
    ensures m.Valid() && (m.state, r) == UserClaim(old(m.state), k, ch, e, a)
  {
    if ch.openErrno.Some? { return Err(Os(ch.openErrno.value)); }
    r := m.ClaimOrInfoRequest(k, e, true, a);
    if r.Err? { return; }
    if ch.closeErrno.Some? { return Err(Os(ch.closeErrno.value)); }
  }

  method ReleaseCall(m: Manager, k: Kind, ch: Channel, e: Entry, t: Token, pid: int) returns (r: Result<()>)
    requires m.Valid()
    modifies m`pins, m`memRefs, m`eventRefs, m`state, m.devices[..]
    ensures m.Valid() && (m.state, r) == UserRelease(old(m.state), k, ch, e, t, pid)
  {
    if ch.openErrno.Some? { return Err(Os(ch.openErrno.value)); }
    r := m.ReleaseRequest(k, e, t, pid);
    if r.Err? { return; }
    if ch.closeErrno.Some? { return Err(Os(ch.closeErrno.value)); }
  }

  method DetachAndReleaseCall(m: Manager, k: Kind, detach: Option<Errno>, ch: Channel, e: Entry, t: Token, pid: int)
    returns (r: Result<()>)
    requires m.Valid()
    modifies m`pins, m`memRefs, m`eventRefs, m`state, m.devices[..]
    ensures m.Valid() && (m.state, r) == DetachAndRelease(old(m.state), k, detach, ch, e, t, pid)
  {
    r := ReleaseCall(m, k, ch, e, t, pid);
    if detach.Some? { return Err(detach.value); }
  }

  // ---------------------------------------------------------------------------------------
  // Resolving identifiers

  /** The outcomes around one request: of opening and closing the manager device, of copying
      the request in, with the version it carries, and of copying the reply out. */
  datatype Call = Call(channel: Channel, entry: Entry, copyOut: bool)

  predicate Smooth(c: Call) {
    c.channel == Channel(None, None) && EntryError(c.entry).None? && c.copyOut
  }

  /** cuddl_get_memregion_info_for_id and cuddl_get_eventsrc_info_for_id. */
  function UserInfo(s: State, k: Kind, c: Call, q: Query, pid: int): (State, Result<Info>) {
    if c.channel.openErrno.Some? then (s, Err(Os(c.channel.openErrno.value))) else
    var (s1, r) := ClaimOrInfo(s, k, c.entry, false, ClaimArgs(q, pid, false, c.copyOut, true));
    (s1, if r.Ok? && c.channel.closeErrno.Some? then Err(Os(c.channel.closeErrno.value)) else r)
  }

  /** cuddl_get_memregion_id_for_slot and cuddl_get_eventsrc_id_for_slot. */
  function UserId(s: State, k: Kind, c: Call, t: Token): Result<Query>
    requires IsSized(s.table, k)
  {
    if c.channel.openErrno.Some? then Err(Os(c.channel.openErrno.value)) else
    var r := IdRequest(s, k, c.entry, t, c.copyOut);
    if r.Ok? && c.channel.closeErrno.Some? then Err(Os(c.channel.closeErrno.value)) else r
  }

  /** An info request and then the identifier of the pair it found. */
  function IdForMatch(s: State, k: Kind, c: Call, q: Query, pid: int, c2: Call): (State, Result<Query>)
    requires IsSized(s.table, k)
  {
    var (s1, info) := UserInfo(s, k, c, q, pid);
    (s1, if info.Err? then Err(info.error) else UserId(s, k, c2, info.value.token))
  }

  lemma InfoOutcome(s: State, k: Kind, c: Call, q: Query, pid: int)
    ensures var (s1, r) := UserInfo(s, k, c, q, pid);
            var target := Target(s, k, c.entry, q);
            if r.Ok? then s1 == s && EntryError(c.entry).None? && Locate(s.table, q, k) == Ok(r.value.token)
            else s1 == s || (r == Err(EOVERFLOW) && !c.copyOut && target.Ok? && s1 == Decrement(s, k, target.value))
  {
  }

  lemma SmoothIdForMatch(s: State, k: Kind, c: Call, q: Query, pid: int, c2: Call)
    requires IsSized(s.table, k) && Smooth(c) && Smooth(c2)
    ensures var target := Locate(s.table, q, k);
            IdForMatch(s, k, c, q, pid, c2) ==
            (s, if target.Ok? then IdAt(s.table, k, target.value) else Err(target.error))
  {
  }

  /** Resolving a match succeeds if and only if everything on the way does and the pair the
      lookup finds has an identifier; that is the one returned. */
  lemma IdForMatchSucceeds(s: State, k: Kind, c: Call, q: Query, pid: int, c2: Call)
    requires IsSized(s.table, k)
    ensures var r := IdForMatch(s, k, c, q, pid, c2).1;
            var target := Locate(s.table, q, k);
            && (r.Ok? <==> Smooth(c) && Smooth(c2) && target.Ok? && IdAt(s.table, k, target.value).Ok?)
            && (r.Ok? ==> r == IdAt(s.table, k, target.value))
  {
    InfoOutcome(s, k, c, q, pid);
  }

  /** A full identifier obtained for a match leads to the resource the match leads to, and
      resolves to itself. Obtaining it leaves the state alone, unless the info reply cannot be
      copied out: then it takes a reference away from that resource. */
  lemma IdForMatchIsStable(p: Policy, steps: seq<Step>, s: State, k: Kind, c: Call, q: Query, pid: int, c2: Call)
    requires Reachable(p, steps, s)
    ensures IsSized(s.table, k)
    ensures var (s', r) := IdForMatch(s, k, c, q, pid, c2);
            && (s' == s || (r == Err(EOVERFLOW) && !c.copyOut && Target(s, k, c.entry, q).Ok?
                            && s' == Decrement(s, k, Target(s, k, c.entry, q).value)))
            && (r.Ok? ==> s' == s && Locate(s.table, q, k).Ok? && Locate(s.table, r.value, k) == Locate(s.table, q, k)
                          && forall c3, c4 | Smooth(c3) && Smooth(c4) ::
                               IdForMatch(s, k, c3, r.value, pid, c4) == (s, r))
  {
    ReachableInv(p, steps, s);
    InfoOutcome(s, k, c, q, pid);
    var r := IdForMatch(s, k, c, q, pid, c2).1;
    if r.Ok? {
      ResolvingIsStable(s.table, q, k);
      forall c3, c4 | Smooth(c3) && Smooth(c4) ensures IdForMatch(s, k, c3, r.value, pid, c4) == (s, r) {
        SmoothIdForMatch(s, k, c3, r.value, pid, c4);
      }
    }
  }

  method IdForMatchCall(m: Manager, k: Kind, c: Call, q: Query, pid: int, c2: Call) returns (r: Result<Query>)
    requires m.Valid()
    modifies m`pins, m`memRefs, m`eventRefs, m`state, m.devices[..]
    ensures m.Valid() && IsSized(old(m.state).table, k)
    ensures (m.state, r) == IdForMatch(old(m.state), k, c, q, pid, c2)
  {
    var info := InfoCall(m, k, c, q, pid);
    if info.Err? { return Err(info.error); }
    assert m.state == old(m.state);
    r := IdCall(m, k, c2, info.value.token);
  }

  method InfoCall(m: Manager, k: Kind, c: Call, q: Query, pid: int) returns (r: Result<Info>)
    requires m.Valid()
    modifies m`pins, m`memRefs, m`eventRefs, m`state, m.devices[..]
    ensures m.Valid() && (m.state, r) == UserInfo(old(m.state), k, c, q, pid)
  {
    if c.channel.openErrno.Some? { return Err(Os(c.channel.openErrno.value)); }
    r := m.ClaimOrInfoRequest(k, c.entry, false, ClaimArgs(q, pid, false, c.copyOut, true));
    if r.Err? { return; }
    if c.channel.closeErrno.Some? { return Err(Os(c.channel.closeErrno.value)); }
  }

  method IdCall(m: Manager, k: Kind, c: Call, t: Token) returns (r: Result<Query>)
    requires m.Valid()
    ensures IsSized(m.state.table, k) && r == UserId(m.state, k, c, t)
  {
    if c.channel.openErrno.Some? { return Err(Os(c.channel.openErrno.value)); }
    r := m.GetResourceId(k, c.entry, t, c.copyOut);
    if r.Err? { return; }
    if c.channel.closeErrno.Some? { return Err(Os(c.channel.closeErrno.value)); }
  }
}
