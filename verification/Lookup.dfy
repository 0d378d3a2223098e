/** Searching the device table: by name with wildcards, by pointer, and the two-stage lookup
    (device slot, then resource slot) that every named request goes through. */
module Lookup {
  import opened Base
  import opened Devices

  /** Empty strings and a zero instance are wildcards. */
  datatype Query = Query(group: string, device: string, resource: string, instance: int)

  predicate Named(r: Resource, name: string) {
    r.name.Some? && (name != "" ==> SameName(r.name.value, name))
  }

  function FindResource(rs: seq<Resource>, name: string, from: nat := 0): (r: Option<nat>)
    requires from <= |rs|
    ensures r.Some? ==> from <= r.value < |rs| && Named(rs[r.value], name)
    ensures forall j :: from <= j < |rs| && (r.Some? ==> j < r.value) ==> !Named(rs[j], name)
    decreases |rs| - from
  {
    if from == |rs| then None
    else if Named(rs[from], name) then Some(from)
    else FindResource(rs, name, from + 1)
  }

  /** Group, device name and instance agree; says nothing about resources. */
  predicate NameMatches(d: Dev, q: Query) {
    && (q.instance != 0 ==> d.instance == q.instance)
    && (q.group != "" ==> SameName(d.group, q.group))
    && (q.device != "" ==> SameName(d.name, q.device))
  }

  predicate Matches(d: Dev, q: Query, kind: Option<Kind>) {
    && NameMatches(d, q)
    && (q.resource != "" ==> kind.Some? && FindResource(d.Resources(kind.value), q.resource).Some?)
  }

  predicate MatchesAt(table: Table, i: nat, q: Query, kind: Option<Kind>) {
    i < |table| && table[i].Some? && Matches(table[i].value, q, kind)
  }

  function FindDevice(table: Table, q: Query, kind: Option<Kind>, from: nat): (r: Option<nat>)
    requires from <= |table|
    ensures r.Some? ==> from <= r.value && MatchesAt(table, r.value, q, kind)
    ensures forall j: nat :: from <= j < |table| && (r.Some? ==> j < r.value) ==> !MatchesAt(table, j, q, kind)
    decreases |table| - from
  {
    if from == |table| then None
    else if MatchesAt(table, from, q, kind) then Some(from)
    else FindDevice(table, q, kind, from + 1)
  }

  function PtrAt(table: Table, i: nat): Option<Device>
    requires i < |table|
  {
    if table[i].Some? then Some(table[i].value.ptr) else None
  }

  /** The first slot holding the given pointer; None looks for an empty slot. */
  function FindSlot(table: Table, p: Option<Device>, from: nat := 0): (r: Option<nat>)
    requires from <= |table|
    ensures r.Some? ==> from <= r.value < |table| && PtrAt(table, r.value) == p
    ensures forall j: nat :: from <= j < |table| && (r.Some? ==> j < r.value) ==> PtrAt(table, j) != p
    decreases |table| - from
  {
    if from == |table| then None
    else if PtrAt(table, from) == p then Some(from)
    else FindSlot(table, p, from + 1)
  }

  /** The lookup shared by the claim, info and reference count requests. */
  function Locate(table: Table, q: Query, k: Kind): Result<Token> {
    var slot := FindDevice(table, q, Some(k), 0);
    if slot.None? then Err(ENXIO) else
    var r := FindResource(table[slot.value].value.Resources(k), q.resource);
    if r.None? then Err(ENXIO) else Ok(Token(slot.value, r.value))
  }

  predicate IsSized(table: Table, k: Kind) {
    && |table| == MAX_MANAGED_DEVICES
    && forall i | 0 <= i < |table| && table[i].Some? :: |table[i].value.Resources(k)| == Capacity(k)
  }

  /** The identifier stored for a slot pair; Fault is the copy from a null resource name. */
  function IdAt(table: Table, k: Kind, t: Token): Result<Query>
    requires IsSized(table, k)
  {
    if !(0 <= t.device < MAX_MANAGED_DEVICES) || !(0 <= t.resource < Capacity(k)) then Err(EBADSLT) else
    if table[t.device].None? then Err(ENODEV) else
    var d := table[t.device].value;
    var r := d.Resources(k)[t.resource];
    if r.code == 0 then Err(EINVAL) else
    if r.name.None? then Err(Fault) else
    Ok(Query(Clip(d.group), Clip(d.name), Clip(r.name.value), d.instance))
  }

  // ---------------------------------------------------------------------------------------
  // What a lookup should return, said without either search function

  /** Some device at the token's slot carries the wanted names and, at the token's resource
      slot, a resource of the wanted name. */
  predicate Satisfies(table: Table, q: Query, k: Kind, t: Token) {
    && 0 <= t.device < |table| && table[t.device].Some?
    && NameMatches(table[t.device].value, q)
    && 0 <= t.resource < |table[t.device].value.Resources(k)|
    && Named(table[t.device].value.Resources(k)[t.resource], q.resource)
  }

  predicate LexLeq(t: Token, u: Token) {
    t.device < u.device || (t.device == u.device && t.resource <= u.resource)
  }

  /** r names the lexicographically first satisfying pair, or is -ENXIO because there is none. */
  ghost predicate IsFirstPair(table: Table, q: Query, k: Kind, r: Result<Token>) {
    match r
    case Ok(t) => Satisfies(table, q, k, t) && forall u | Satisfies(table, q, k, u) :: LexLeq(t, u)
    case Err(e) => e == ENXIO && forall u :: !Satisfies(table, q, k, u)
  }

  /** With no resource name given, the first device of the wanted names has nothing named. */
  ghost predicate ShadowedByBareDevice(table: Table, q: Query, k: Kind) {
    && q.resource == ""
    && exists i: nat ::
         && MatchesAt(table, i, q, Some(k))
         && (forall j: nat :: j < i ==> !MatchesAt(table, j, q, Some(k)))
         && (forall j :: 0 <= j < |table[i].value.Resources(k)| ==> table[i].value.Resources(k)[j].name.None?)
  }

  /** Nothing before the device slot found can satisfy the request. */
  lemma SatisfyingDevicesMatch(table: Table, q: Query, k: Kind, u: Token)
    requires Satisfies(table, q, k, u)
    ensures var slot := FindDevice(table, q, Some(k), 0);
            MatchesAt(table, u.device, q, Some(k)) && slot.Some? && slot.value <= u.device
  {
    assert Named(table[u.device].value.Resources(k)[u.resource], q.resource);
    assert MatchesAt(table, u.device, q, Some(k));
  }

  lemma LocateFound(table: Table, q: Query, k: Kind)
    requires Locate(table, q, k).Ok?
    ensures IsFirstPair(table, q, k, Locate(table, q, k)) && !ShadowedByBareDevice(table, q, k)
  {
    var t := Locate(table, q, k).value;
    assert Named(table[t.device].value.Resources(k)[t.resource], q.resource);
    forall u | Satisfies(table, q, k, u) ensures LexLeq(t, u) {
      SatisfyingDevicesMatch(table, q, k, u);
    }
  }

  lemma LocateNotFound(table: Table, q: Query, k: Kind)
    requires Locate(table, q, k).Err?
    ensures Locate(table, q, k) == Err(ENXIO)
    ensures ShadowedByBareDevice(table, q, k) || forall u :: !Satisfies(table, q, k, u)
  {
    var slot := FindDevice(table, q, Some(k), 0);
    if slot.None? {
      forall u ensures !Satisfies(table, q, k, u) {
        if Satisfies(table, q, k, u) { SatisfyingDevicesMatch(table, q, k, u); }
      }
    } else {
      var rs := table[slot.value].value.Resources(k);
      assert q.resource == "";
      forall j | 0 <= j < |rs| ensures rs[j].name.None? {
        assert !Named(rs[j], q.resource);
      }
    }
  }

  /** The two-stage lookup finds the first pair, except that an empty resource name makes it
      stop at a device without resources although a later one would do. */
  lemma LocateIsFirstPair(table: Table, q: Query, k: Kind)
    ensures IsFirstPair(table, q, k, Locate(table, q, k)) <==>
            (ShadowedByBareDevice(table, q, k) ==> forall u :: !Satisfies(table, q, k, u))
    ensures q.resource != "" ==> IsFirstPair(table, q, k, Locate(table, q, k))
  {
    if Locate(table, q, k).Ok? {
      LocateFound(table, q, k);
    } else {
      LocateNotFound(table, q, k);
    }
  }

  /** The exception is real: a device in slot 0 none of whose regions has a name hides a
      matching device in slot 1. */
  lemma BareDeviceHidesLaterMatch(table: Table)
    requires |table| == MAX_MANAGED_DEVICES && table[0].Some? && table[1].Some?
    requires |table[0].value.mem| == |table[1].value.mem| == MAX_DEV_MEM_REGIONS
    requires (forall r | r in table[0].value.mem :: r.name.None?) && table[1].value.mem[0].name.Some?
    ensures Satisfies(table, Query("", "", "", 0), Memory, Token(1, 0))
    ensures Locate(table, Query("", "", "", 0), Memory) == Err(ENXIO)
  {
    var q := Query("", "", "", 0);
    assert MatchesAt(table, 0, q, Some(Memory));
    assert FindDevice(table, q, Some(Memory), 0) == Some(0);
    assert forall j | 0 <= j < MAX_DEV_MEM_REGIONS :: table[0].value.mem[j] in table[0].value.mem;
  }

  // ---------------------------------------------------------------------------------------
  // The lookup against an enumeration of all identifiers

  /** The documented meaning of a partial identifier: every field it specifies agrees. */
  predicate Answers(id: Query, partial: Query) {
    && (partial.group == "" || id.group == Clip(partial.group))
    && (partial.device == "" || id.device == Clip(partial.device))
    && (partial.resource == "" || id.resource == Clip(partial.resource))
    && (partial.instance == 0 || id.instance == partial.instance)
  }

  /** The identifier request on this pair of slots succeeds with an answer to the partial one. */
  predicate AnswersAt(table: Table, q: Query, k: Kind, t: Token)
    requires IsSized(table, k)
  {
    IdAt(table, k, t).Ok? && Answers(IdAt(table, k, t).value, q)
  }

  ghost predicate NamedMeansTyped(table: Table, k: Kind) {
    forall i, j | 0 <= i < |table| && table[i].Some? && 0 <= j < |table[i].value.Resources(k)| ::
      table[i].value.Resources(k)[j].name.Some? ==> table[i].value.Resources(k)[j].code != 0
  }

  lemma SatisfiesMeansAnswers(table: Table, q: Query, k: Kind, t: Token)
    requires IsSized(table, k) && NamedMeansTyped(table, k)
    ensures Satisfies(table, q, k, t) <==> AnswersAt(table, q, k, t)
  {
  }

  /** Looking a name up finds what a caller would find by asking for the identifier of every
      pair of slots in order and taking the first that answers, or finds nothing if none does;
      with an empty resource name, unless a bare device hides the answer. */
  lemma LocateIsFirstAnswer(table: Table, q: Query, k: Kind)
    requires IsSized(table, k) && NamedMeansTyped(table, k)
    ensures match Locate(table, q, k)
            case Ok(t) => AnswersAt(table, q, k, t) && forall u | AnswersAt(table, q, k, u) :: LexLeq(t, u)
            case Err(e) => e == ENXIO && (ShadowedByBareDevice(table, q, k) || forall u :: !AnswersAt(table, q, k, u))
  {
    forall u ensures Satisfies(table, q, k, u) <==> AnswersAt(table, q, k, u) {
      SatisfiesMeansAnswers(table, q, k, u);
    }
    if Locate(table, q, k).Ok? {
      LocateFound(table, q, k);
    } else {
      LocateNotFound(table, q, k);
    }
  }

  /** Resolving a partial identifier to a full one and looking the full one up again leads to
      the same pair of slots. Names need not be unique. Resolution fails exactly when the
      pair found is an untyped region or an event source without interrupt. */
  lemma ResolvingIsStable(table: Table, q: Query, k: Kind)
    requires IsSized(table, k)
    requires Locate(table, q, k).Ok?
    ensures var t := Locate(table, q, k).value;
            && Satisfies(table, q, k, t)
            && match IdAt(table, k, t)
               case Err(e) => e == EINVAL && table[t.device].value.Resources(k)[t.resource].code == 0
               case Ok(id) => Locate(table, id, k) == Ok(t)
  {
    var t := Locate(table, q, k).value;
    var d := table[t.device].value;
    var rs := d.Resources(k);
    if rs[t.resource].code != 0 {
      var id := IdAt(table, k, t).value;
      assert Named(rs[t.resource], id.resource);
      assert MatchesAt(table, t.device, id, Some(k));
      forall i: nat | i < t.device ensures !MatchesAt(table, i, id, Some(k)) {
        if MatchesAt(table, i, id, Some(k)) {
          FullNameIsNarrower(table[i].value, q, id, k, rs[t.resource]);
          assert MatchesAt(table, i, q, Some(k));
        }
      }
      forall j | 0 <= j < t.resource ensures !Named(rs[j], id.resource) {
        assert !Named(rs[j], q.resource);
      }
    }
  }

  /** A device answering to the full identifier also answers to the partial one. */
  lemma FullNameIsNarrower(d: Dev, q: Query, id: Query, k: Kind, r: Resource)
    requires Named(r, q.resource) && id.resource == Clip(r.name.value)
    requires q.instance != 0 ==> id.instance == q.instance
    requires q.group != "" ==> SameName(id.group, q.group)
    requires q.device != "" ==> SameName(id.device, q.device)
    requires Matches(d, id, Some(k))
    ensures Matches(d, q, Some(k))
  {
    if q.resource != "" {
      var rs := d.Resources(k);
      var i := FindResource(rs, id.resource).value;
      assert Named(rs[i], q.resource);
    }
  }
}
