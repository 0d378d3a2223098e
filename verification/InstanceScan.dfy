/** Choosing an instance number for a device managed with instance 0. */
module InstanceScan {
  import opened Base
  import opened Devices
  import opened Lookup

  /** The search the scan repeats; a null resource name is written "". */
  function InstanceQuery(group: string, name: string, instance: int): Query {
    Query(group, name, "", instance)
  }

  /** Slot i holds a device of this group and name (empty ones are wildcards) with this instance. */
  predicate HasInstance(table: Table, group: string, name: string, i: nat, instance: int) {
    MatchesAt(table, i, InstanceQuery(group, name, instance), None)
  }

  /** The scan: the search for instance + 1 starts after the slot that held instance. */
  function ScanFrom(table: Table, group: string, name: string, slot: nat, instance: int): Result<int>
    requires slot < |table|
    decreases |table| - slot
  {
    match FindDevice(table, InstanceQuery(group, name, instance), None, slot)
    case None => Ok(instance)
    case Some(i) => if i < |table| - 1 then ScanFrom(table, group, name, i + 1, instance + 1) else Err(ENOMEM)
  }

  function NextInstance(table: Table, group: string, name: string): Result<int>
    requires |table| > 0
  {
    ScanFrom(table, group, name, 0, 1)
  }

  /** What the scan looks for: the group, the name and the instance all have to agree. */
  lemma HasInstanceMeans(table: Table, group: string, name: string, i: nat, instance: int)
    ensures HasInstance(table, group, name, i, instance) <==>
            && i < |table| && table[i].Some?
            && (group == "" || EqualUpTo(table[i].value.group, group, 256))
            && (name == "" || EqualUpTo(table[i].value.name, name, 256))
            && (instance == 0 || table[i].value.instance == instance)
  {
    if i < |table| && table[i].Some? {
      SameNameIsStrncmp(table[i].value.group, group);
      SameNameIsStrncmp(table[i].value.name, name);
    }
  }

  /** A device of another group or another name makes no difference to the scan. */
  lemma {:induction false} ScanPassesStrangers(table: Table, g: string, n: string, i: nat, slot: nat, first: int)
    requires slot < |table| && g != "" && n != ""
    requires i < |table| && table[i].Some? && !(SameName(table[i].value.group, g) && SameName(table[i].value.name, n))
    ensures ScanFrom(table[i := None], g, n, slot, first) == ScanFrom(table, g, n, slot, first)
    decreases |table| - slot
  {
    var table', q := table[i := None], InstanceQuery(g, n, first);
    forall j: nat ensures MatchesAt(table', j, q, None) <==> MatchesAt(table, j, q, None) {
    }
    var found := FindDevice(table, q, None, slot);
    assert FindDevice(table', q, None, slot) == found;
    if found.Some? && found.value < |table| - 1 {
      ScanPassesStrangers(table, g, n, i, found.value + 1, first + 1);
    }
  }

  /** So the number chosen depends on the devices of the same group and name only. */
  lemma StrangersDoNotMatter(table: Table, g: string, n: string, i: nat)
    requires g != "" && n != "" && i < |table|
    requires table[i].Some? && !(SameName(table[i].value.group, g) && SameName(table[i].value.name, n))
    ensures NextInstance(table[i := None], g, n) == NextInstance(table, g, n)
  {
    ScanPassesStrangers(table, g, n, i, 0, 1);
  }

  // ---------------------------------------------------------------------------------------
  // What the scan measures

  /** Strictly increasing slots holding the instances first, first + 1, ... */
  ghost predicate IsChain(table: Table, group: string, name: string, first: int, chain: seq<nat>) {
    && (forall i :: 0 <= i < |chain| ==> HasInstance(table, group, name, chain[i], first + i))
    && (forall i, j :: 0 <= i < j < |chain| ==> chain[i] < chain[j])
  }

  ghost predicate StartsAt(chain: seq<nat>, slot: nat) {
    chain != [] ==> slot <= chain[0]
  }

  /** Longest among the chains from slot on and, among the longest, the one ending earliest. */
  ghost predicate IsBest(table: Table, group: string, name: string, slot: nat, first: int, best: seq<nat>) {
    && IsChain(table, group, name, first, best) && StartsAt(best, slot)
    && forall c | IsChain(table, group, name, first, c) && StartsAt(c, slot) :: NoBetter(best, c)
  }

  ghost predicate NoBetter(best: seq<nat>, c: seq<nat>) {
    |c| <= |best| && (|c| == |best| > 0 ==> best[|best| - 1] <= c[|c| - 1])
  }

  /** Taking the first slot for the first instance and continuing best from there is best. */
  lemma PrependIsBest(table: Table, group: string, name: string, slot: nat, first: int, rest: seq<nat>, i: nat)
    requires slot < |table| && FindDevice(table, InstanceQuery(group, name, first), None, slot) == Some(i)
    requires IsBest(table, group, name, i + 1, first + 1, rest)
    ensures IsBest(table, group, name, slot, first, [i] + rest)
  {
    var best := [i] + rest;
    forall k | 0 <= k < |best| ensures HasInstance(table, group, name, best[k], first + k) {
      if k > 0 { assert HasInstance(table, group, name, rest[k - 1], first + 1 + (k - 1)); }
    }
    assert IsChain(table, group, name, first, best);
    forall c | IsChain(table, group, name, first, c) && StartsAt(c, slot) ensures NoBetter(best, c) {
      if c != [] {
        assert HasInstance(table, group, name, c[0], first + 0);
        TailIsChain(table, group, name, first, c);
        assert NoBetter(rest, c[1..]);
      }
    }
  }

  /** The scan follows a best chain, and fails just when that chain ends in the last slot. */
  lemma {:induction false} ScanFollowsBestChain(table: Table, group: string, name: string, slot: nat, first: int)
    returns (best: seq<nat>)
    requires slot < |table|
    ensures IsBest(table, group, name, slot, first, best)
    ensures ScanFrom(table, group, name, slot, first) ==
            if best != [] && best[|best| - 1] == |table| - 1 then Err(ENOMEM) else Ok(first + |best|)
    decreases |table| - slot
  {
    var found := FindDevice(table, InstanceQuery(group, name, first), None, slot);
    if found.None? {
      best := [];
      forall c | IsChain(table, group, name, first, c) && StartsAt(c, slot) ensures NoBetter(best, c) {
        assert c != [] ==> HasInstance(table, group, name, c[0], first + 0);
      }
    } else {
      var i, rest := found.value, [];
      if i < |table| - 1 {
        rest := ScanFollowsBestChain(table, group, name, i + 1, first + 1);
      } else {
        forall c | IsChain(table, group, name, first + 1, c) && StartsAt(c, i + 1) ensures NoBetter(rest, c) {
          assert c != [] ==> HasInstance(table, group, name, c[0], first + 1 + 0);
        }
      }
      PrependIsBest(table, group, name, slot, first, rest, i);
      best := [i] + rest;
    }
  }

  lemma TailIsChain(table: Table, group: string, name: string, first: int, c: seq<nat>)
    requires c != [] && IsChain(table, group, name, first, c)
    ensures IsChain(table, group, name, first + 1, c[1..]) && StartsAt(c[1..], c[0] + 1)
  {
    forall i | 0 <= i < |c[1..]| ensures HasInstance(table, group, name, c[1..][i], first + 1 + i) {
      assert HasInstance(table, group, name, c[i + 1], first + (i + 1));
    }
  }

  /** The length of the longest chain of devices with the instances 1, 2, ... by rising slot. */
  ghost predicate IsLongestChain(table: Table, group: string, name: string, chain: seq<nat>) {
    && IsChain(table, group, name, 1, chain)
    && forall c | IsChain(table, group, name, 1, c) :: |c| <= |chain|
  }

  /** The scan returns one more than the length of a longest chain, a number between 1 and the
      table size, unless every longest chain ends in the last slot: then it is -ENOMEM. */
  lemma ScanMeasuresLongestChain(table: Table, group: string, name: string) returns (best: seq<nat>)
    requires |table| > 0
    ensures IsLongestChain(table, group, name, best)
    ensures match NextInstance(table, group, name)
            case Ok(n) => n == |best| + 1 && 1 <= n <= |table|
                          && (best != [] ==> best[|best| - 1] < |table| - 1)
            case Err(e) => e == ENOMEM && best != []
                           && forall c | IsLongestChain(table, group, name, c) :: c[|c| - 1] == |table| - 1
  {
    best := ScanFollowsBestChain(table, group, name, 0, 1);
    ChainFits(table, group, name, 1, best);
    assert forall c: seq<nat> :: StartsAt(c, 0);
    forall c | IsLongestChain(table, group, name, c) && best != [] && best[|best| - 1] == |table| - 1
      ensures |c| == |best| && c[|c| - 1] == |table| - 1
    {
      assert StartsAt(c, 0);
      assert HasInstance(table, group, name, c[|c| - 1], 1 + (|c| - 1));
    }
  }

  /** A chain of n devices cannot end before slot n - 1. */
  lemma {:induction false} ChainFits(table: Table, group: string, name: string, first: int, chain: seq<nat>)
    requires IsChain(table, group, name, first, chain)
    ensures chain != [] ==> |chain| - 1 <= chain[|chain| - 1] < |table|
    decreases |chain|
  {
    if chain != [] {
      var n := |chain| - 1;
      assert HasInstance(table, group, name, chain[n], first + n);
      assert IsChain(table, group, name, first, chain[..n]);
      ChainFits(table, group, name, first, chain[..n]);
    }
  }

  ghost predicate InUse(table: Table, group: string, name: string, instance: int) {
    exists p: nat :: HasInstance(table, group, name, p, instance)
  }

  /** Every smaller positive instance is taken; the returned one is taken too exactly when a
      device holding it sits below the slot where the scan found its predecessor. */
  lemma ScanCollision(table: Table, group: string, name: string) returns (last: int)
    requires |table| > 0 && NextInstance(table, group, name).Ok?
    ensures var n := NextInstance(table, group, name).value;
            && (forall j :: 1 <= j < n ==> InUse(table, group, name, j))
            && (if n == 1 then last == -1 else 0 <= last && HasInstance(table, group, name, last, n - 1))
            && (InUse(table, group, name, n) <==> exists p: nat :: p < last && HasInstance(table, group, name, p, n))
  {
    var best := ScanFollowsBestChain(table, group, name, 0, 1);
    var n := |best| + 1;
    last := if best == [] then -1 else best[|best| - 1];
    forall j | 1 <= j < n ensures InUse(table, group, name, j) {
      assert HasInstance(table, group, name, best[j - 1], 1 + (j - 1));
    }
    if best != [] { assert HasInstance(table, group, name, best[n - 2], 1 + (n - 2)); }
    forall p: nat | HasInstance(table, group, name, p, n) ensures p < last {
      if p > last {
        assert StartsAt(best + [p], 0) && !NoBetter(best, best + [p]);
        ExtendChain(table, group, name, best, p);
      }
    }
  }

  lemma ExtendChain(table: Table, group: string, name: string, c: seq<nat>, p: nat)
    requires IsChain(table, group, name, 1, c) && HasInstance(table, group, name, p, 1 + |c|)
    requires c != [] ==> c[|c| - 1] < p
    ensures IsChain(table, group, name, 1, c + [p])
  {
    var longer := c + [p];
    forall i | 0 <= i < |longer| ensures HasInstance(table, group, name, longer[i], 1 + i) {
      if i < |c| { assert HasInstance(table, group, name, c[i], 1 + i); }
    }
  }

  /** When the documented uniqueness holds: the chosen instance is not in use exactly when the
      instances below the least unused one can be picked at rising slots. */
  lemma ChosenInstanceIsUnused(table: Table, group: string, name: string)
    requires |table| > 0 && NextInstance(table, group, name).Ok?
    ensures !InUse(table, group, name, NextInstance(table, group, name).value) <==>
            exists c: seq<nat> :: IsChain(table, group, name, 1, c) && !InUse(table, group, name, |c| + 1)
  {
    var best := ScanMeasuresLongestChain(table, group, name);
    forall n | 1 <= n <= |best| ensures InUse(table, group, name, n) {
      assert HasInstance(table, group, name, best[n - 1], 1 + (n - 1));
    }
  }

  // ---------------------------------------------------------------------------------------
  // Running out of instances

  /** The last slot holds the instance that continues a longest chain through the others. */
  ghost predicate LastSlotContinues(table: Table, group: string, name: string)
    requires |table| > 0
  {
    var last := |table| - 1;
    exists c: seq<nat> ::
      IsLongestChain(table[..last], group, name, c) && HasInstance(table, group, name, last, |c| + 1)
  }

  /** Chains that avoid the last slot are the chains of the table without it. */
  lemma ChainWithoutLast(table: Table, group: string, name: string, c: seq<nat>)
    requires |table| > 0
    ensures IsChain(table[..|table| - 1], group, name, 1, c) <==>
            IsChain(table, group, name, 1, c) && (c != [] ==> c[|c| - 1] < |table| - 1)
  {
    var front := table[..|table| - 1];
    assert forall i: nat, n ::
        HasInstance(front, group, name, i, n) <==> i < |front| && HasInstance(table, group, name, i, n);
    if IsChain(front, group, name, 1, c) {
      assert c != [] ==> HasInstance(front, group, name, c[|c| - 1], 1 + (|c| - 1));
    }
  }

  /** A chain ending in the last slot is one that avoids it, and the last slot. */
  lemma ChainDropLast(table: Table, group: string, name: string, c: seq<nat>)
    requires |table| > 0 && c != [] && IsChain(table, group, name, 1, c)
    ensures IsChain(table[..|table| - 1], group, name, 1, c[..|c| - 1])
    ensures HasInstance(table, group, name, c[|c| - 1], |c|)
  {
    var init := c[..|c| - 1];
    assert HasInstance(table, group, name, c[|c| - 1], 1 + (|c| - 1));
    assert forall i | 0 <= i < |init| :: init[i] == c[i];
    ChainWithoutLast(table, group, name, init);
  }

  /** The scan gives up exactly when the last slot continues a longest chain through the other
      slots. */
  lemma ScanGivesUp(table: Table, group: string, name: string)
    requires |table| > 0
    ensures NextInstance(table, group, name) == Err(ENOMEM) <==> LastSlotContinues(table, group, name)
  {
    var best := ScanMeasuresLongestChain(table, group, name);
    if NextInstance(table, group, name).Err? {
      GivesUpAtLast(table, group, name, best);
    } else if LastSlotContinues(table, group, name) {
      ContinuedIsLongest(table, group, name, best);
    }
  }

  predicate HasFreeSlot(table: Table) {
    exists i :: 0 <= i < |table| && table[i].None?
  }

  /** Giving up is documented to mean that no slot is empty. It happens with an empty slot
      exactly when, besides, one of the other slots is empty. */
  lemma ScanGivesUpWithFreeSlot(table: Table, group: string, name: string)
    requires |table| > 0
    ensures NextInstance(table, group, name) == Err(ENOMEM) && HasFreeSlot(table) <==>
            LastSlotContinues(table, group, name) && HasFreeSlot(table[..|table| - 1])
  {
    ScanGivesUp(table, group, name);
    var last := |table| - 1;
    var front := table[..last];
    assert forall i | 0 <= i < last :: front[i] == table[i];
    assert LastSlotContinues(table, group, name) ==> table[last].Some?;
  }

  lemma GivesUpAtLast(table: Table, group: string, name: string, best: seq<nat>)
    requires |table| > 0 && IsLongestChain(table, group, name, best) && best != []
    requires forall c | IsLongestChain(table, group, name, c) :: c != [] && c[|c| - 1] == |table| - 1
    ensures LastSlotContinues(table, group, name)
  {
    var front, init := table[..|table| - 1], best[..|best| - 1];
    ChainDropLast(table, group, name, best);
    forall c | IsChain(front, group, name, 1, c) ensures |c| <= |init| {
      ChainWithoutLast(table, group, name, c);
      assert |c| == |best| ==> IsLongestChain(table, group, name, c);
    }
    assert IsLongestChain(front, group, name, init);
  }

  lemma ContinuedIsLongest(table: Table, group: string, name: string, best: seq<nat>)
    requires |table| > 0 && LastSlotContinues(table, group, name)
    requires IsLongestChain(table, group, name, best)
    ensures best != [] && best[|best| - 1] == |table| - 1
  {
    var last := |table| - 1;
    var c :| IsLongestChain(table[..last], group, name, c) && HasInstance(table, group, name, last, |c| + 1);
    ChainWithoutLast(table, group, name, c);
    ExtendChain(table, group, name, c, last);
    ChainFits(table, group, name, 1, best);
    ChainWithoutLast(table, group, name, best);
  }

  /** With its only device of the group and name, instance 1, in the last slot, a table makes
      the scan give up, whatever is in the other slots. */
  lemma LoneLastDeviceExhaustsScan(table: Table, group: string, name: string)
    requires |table| > 0 && HasInstance(table, group, name, |table| - 1, 1)
    requires forall i: nat | i < |table| - 1 :: !HasInstance(table, group, name, i, 1)
    ensures NextInstance(table, group, name) == Err(ENOMEM)
  {
    var q, last := InstanceQuery(group, name, 1), |table| - 1;
    var found := FindDevice(table, q, None, 0);
    assert MatchesAt(table, last, q, None) && found.Some?;
    assert HasInstance(table, group, name, found.value, 1);
  }

  // ---------------------------------------------------------------------------------------
  // Where the scan does what it is documented to do

  /** Devices of this group and name sit in non-decreasing instance order by slot. */
  ghost predicate InInstanceOrder(table: Table, group: string, name: string) {
    var any := InstanceQuery(group, name, 0);
    forall p: nat, q: nat | p < q && MatchesAt(table, p, any, None) && MatchesAt(table, q, any, None) ::
      table[p].value.instance <= table[q].value.instance
  }

  /** In an ordered table the scan does what it is documented to do. */
  lemma OrderedScanIsLeastUnused(table: Table, group: string, name: string)
    requires |table| > 0 && group != "" && name != ""
    requires InInstanceOrder(table, group, name)
    requires NextInstance(table, group, name).Ok?
    ensures var n := NextInstance(table, group, name).value;
            && n >= 1 && !InUse(table, group, name, n)
            && forall j :: 1 <= j < n ==> InUse(table, group, name, j)
  {
    var n := NextInstance(table, group, name).value;
    var chain := ScanMeasuresLongestChain(table, group, name);
    var last := ScanCollision(table, group, name);
    forall p: nat | HasInstance(table, group, name, p, n)
      ensures MatchesAt(table, p, InstanceQuery(group, name, 0), None) && !(p < last)
    {
      assert last < 0 || MatchesAt(table, last, InstanceQuery(group, name, 0), None);
    }
  }
}
