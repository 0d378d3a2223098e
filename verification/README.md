# A model of the Cuddl device manager

Cuddl lets user-space programs claim memory regions and event sources of hardware devices.
Kernel drivers hand their devices to a manager; processes find resources by name, claim them,
map them or wait on them, and release them. This project models that manager as a state
machine and proves what its runs keep, together with the pieces beside it: name lookup, the
choice of instance numbers, region lengths, the printed form of resource identifiers, device
names, and sets of event sources to wait for.

The state of the manager is a table of 256 device slots, each device with five memory regions
and one event source carrying a reference count and a SHARED flag; two lists of references
(token, pid); the pins taken on owner modules (a multiset); and the devices registered with the
kernel. Each request runs under the global mutex, so each is one step. Outcomes of copies to
and from user space, of allocations, and of registering with the kernel are inputs of a step.

Memory regions and event sources are handled by mirrored code in C; here one definition with a
`Kind` parameter stands for both.

| file | contents |
|---|---|
| `Base.dfy` | error results, C-string comparison on 256 characters |
| `Device.dfy` | the device structure and its snapshot in the table |
| `Lookup.dfy` | searching by name, by address, and the two-stage lookup |
| `InstanceScan.dfy` | automatic instance numbers |
| `Regions.dfy` | page rounding and default lengths, with 32 and 64 bit arithmetic written out |
| `RefState.dfy` | the state machine: every request, the janitor, devices coming and going, runs |
| `RefInvariant.dfy`, `RefSteps.dfy` | the invariant and why each kind of change keeps it |
| `Janitor.dfy` | cleanup after a dead process, against one-by-one releases |
| `Runs.dfy`, `Guarantees.dfy` | results about all runs: counts, claims, pins, lookups, windows |
| `Outcomes.dfy` | what every request answers and does, field by field |
| `TableRuns.dfy` | which device sits in which slot, and automatic instance numbers, along runs |
| `Witnesses.dfy` | runs on which the code departs from its documentation |
| `Manager.dfy` | the manager in place (class `Manager`), each method tied to the state machine |
| `UserSpace.dfy` | claim-and-map, unmap-and-release, resolving identifiers |
| `Decimal.dfy`, `ResourceName.dfy` | the resource identifier's full name, printed and parsed |
| `UniqueName.dfy` | the name a device is registered under |
| `EventSet.dfy` | event source sets and the wait loop |

## Words used below

A *run* (`RefState.IsRun`) is a sequence of steps from the empty manager, under the standing
assumptions that drivers hand over devices with zero counts that are not in the table already,
and that taking a module reference succeeds. A *disciplined* run moreover has releases only by
a process that has an entry for the token, no forced decrements, no info reply that fails to be
copied out, and devices leaving only while their owner module is not pinned. A *peaceful* run
has no hostile claims. In a *covered* run drivers give region lengths that pass
`Regions.CoversAfterDefault`. Every other step may fail or misbehave in any way the code allows.

## Where the code departs from its documentation

The model follows the code.

- Automatic instance numbers are documented as unique (kernel/include/cuddlk/manager.h:214-217).
  The chosen one is unused exactly when the instances below the least unused one can be picked at
  rising slots (`ChosenInstanceIsUnused`). That holds while no device leaves and all ask for an
  automatic number (`AutomaticInstancesUnique`); `AutomaticInstancesCollide` is a run in which one
  device leaves and two end up with the same group, name and instance.
- The scan is documented to return -ENOMEM when no slot is empty
  (kernel/include/cuddlk/manager.h:225-226). It does so exactly when the last slot continues a
  longest chain of instances in the other slots (`ScanGivesUp`), which goes with an empty slot
  exactly when one of those others is empty (`ScanGivesUpWithFreeSlot`). `NoInstanceWithFreeSlots`
  is a run to a table with 255 empty slots in which managing a device fails this way.
- An info request whose reply cannot be copied out takes a reference away. So do a release by a
  process without an entry and a forced decrement; `RequestBreaksExactness` says exactly when
  this destroys the correspondence of counts and entries. By `FailedInfoAdmitsSecondHolder` it
  lets a second process get hold of any resource that is not shared and has its one reference;
  `TwoHoldersInRun` is such a run from the empty manager.
- With an empty resource name the lookup stops at the first device of the wanted name even if
  that device has no such resource (`LocateIsFirstPair`, and the run `LookupMissesInRun`).
- The parser does not read `*` back as a wildcard (`RoundTripWithoutWildcards`).
- Page rounding goes through an `int`. `AlignedIsRoundedUp` gives the sizes for which the result
  is the documented one, `RoundingOverflows` the smallest for which it is not.

## Model

| member | source | states |
|---|---|---|
| Lookup.FindResource | kernel/src/cuddlk_common.c:48-93 | `Some` is the first resource slot, from the start index on, with a name that answers to the wanted one; `None` means that no slot from there on has such a name |
| Lookup.FindDevice | kernel/src/cuddlk_manager_common.c:22-65 | the result is the first slot from the start index whose device answers to all wanted names |
| Lookup.FindSlot | kernel/src/cuddlk_manager_common.c:67-88 | the result is the first slot holding the given device, or the first empty one |
| Base.SameNameIsStrncmp | kernel/src/cuddlk_manager_common.c:38-43 | two names are the same when comparing them character by character finds no difference in the first 256 |
| Lookup.LocateIsFirstPair | kernel/linux/src/cuddlk_manager_linux.c:424-440 | the two-stage lookup returns the lexicographically first (device slot, resource slot) pair satisfying the request, and -ENXIO exactly when no pair does, unless the resource name is empty and a device without resources comes first; exactly then it can miss |
| Lookup.BareDeviceHidesLaterMatch | kernel/src/cuddlk_manager_common.c:44-56 | in a full-sized table, a device in slot 0 none of whose regions has a name makes the lookup with an empty resource name report -ENXIO although the first region of the device in slot 1 satisfies the request |
| Witnesses.LookupMissesInRun | kernel/src/cuddlk_manager_common.c:44-56 | a disciplined, peaceful run of two steps that leads to such a table |
| Lookup.LocateIsFirstAnswer | user/src/cuddl_linux.c:892-923 | where every named resource is typed or has an interrupt, looking a partial identifier up finds the first pair of slots, in the order of an enumeration by identifier requests, whose identifier agrees in every field specified; none only if none agrees or a device without resources hides it |
| Lookup.ResolvingIsStable | user/src/cuddl_linux.c:1119-1149 | the full identifier resolved from a partial one leads back to the same slots, without any uniqueness of names; resolution fails exactly for untyped regions and event sources without interrupt |
| Outcomes.IdOutcome | kernel/linux/src/cuddlk_manager_linux.c:800-841 | the identifier of a slot pair has the device's instance and copies of the three names; -EBADSLT exactly for slots out of range, -ENODEV exactly for an empty device slot in range, -EINVAL exactly for an unused resource of a device |
| Outcomes.IdRequestOutcome | kernel/linux/src/cuddlk_manager_linux.c:785-841 | the request succeeds exactly when its checks pass, the pair has an identifier and the reply can be copied out; its own checks come first and the copy last |
| InstanceScan.ScanFollowsBestChain | kernel/src/cuddlk_manager_common.c:96-113 | from any slot and instance on, the scan's answer is that of a longest chain of rising instances at rising slots which among the longest ends earliest |
| InstanceScan.ScanMeasuresLongestChain | kernel/src/cuddlk_manager_common.c:90-114 | a positive result is one more than the length of a longest chain and lies between 1 and 256; -ENOMEM exactly when every longest chain ends in the last slot |
| InstanceScan.ChosenInstanceIsUnused | kernel/include/cuddlk/manager.h:211-228 | the chosen instance is unused, as documented, exactly when there is a chain of devices with the instances 1, 2, ... by rising slot whose next instance nobody has |
| InstanceScan.ScanGivesUp | kernel/src/cuddlk_manager_common.c:104-110 | -ENOMEM exactly when the device in the last slot has the instance that continues a longest chain in the other slots |
| InstanceScan.ScanGivesUpWithFreeSlot | kernel/include/cuddlk/manager.h:225-226 | -ENOMEM goes with an empty slot, against its documentation, exactly when moreover one of those other slots is empty |
| InstanceScan.OrderedScanIsLeastUnused | kernel/src/cuddlk_manager_common.c:96-113 | with devices of the (non-empty) group and name in instance order the result is the least positive instance not in use |
| InstanceScan.HasInstanceMeans | kernel/src/cuddlk_manager_common.c:35-43 | the scan looks for devices that agree in group, name and instance |
| InstanceScan.StrangersDoNotMatter | kernel/src/cuddlk_manager_common.c:98-104 | taking a device of another group or another name out of the table does not change the number chosen |
| Regions.AlignedIsRoundedUp | kernel/linux/src/cuddlk_linux.c:42-51 | the exact set of 64-bit sizes for which the rounding through an int gives the least page multiple |
| Regions.RoundingOverflows | kernel/linux/src/cuddlk_linux.c:42-51 | the smallest size rounded wrongly is 2^43 - 4095 bytes, and what it is rounded to |
| Regions.AlignedIsZero | kernel/linux/src/cuddlk_linux.c:49-50 | rounding yields 0 exactly for 0 and for page counts that wrap to 0 |
| Regions.DefaultCovers | kernel/linux/src/cuddlk_linux.c:370-374 | after defaulting, the exposed bytes lie inside the mapping exactly under a condition on the driver's three lengths; with pa_len unset and no overflow, pa_len is the least page multiple holding len and start_offset |
| Regions.DefaultCompletes | kernel/linux/src/cuddlk_linux.c:370-374 | the offset and the lengths a driver sets stay; an unset len becomes pa_len, an unset pa_len the least page multiple holding len and start_offset, where the page count fits an int |
| Regions.DefaultIdempotent | kernel/linux/src/cuddlk_linux.c:370-374 | defaulting twice equals defaulting once, except exactly when len and pa_len are unset and the offset rounds to something |
| RefSteps.DecrementUndoesIncrement | kernel/linux/src/cuddlk_manager_linux.c:130-174 | a decrement restores the state before an increment, count and pins |
| Janitor.JanitorIsReleases | kernel/linux/src/cuddlk_manager_linux.c:178-219 | cleanup for a process reaches the state in which it has released each of its entries one by one, memory first, leaving the other processes' entries in order |
| Janitor.JanitorForgets | kernel/linux/src/cuddlk_janitor_linux.c:94-107 | after cleanup for a registered process no entry in either list is its own, and all entries of others are there, in order |
| Runs.ClaimOrInfoEffect | kernel/linux/src/cuddlk_manager_linux.c:443-496 | a claim or info request changes nothing, completes a claim, or is an info request with a failed reply, which takes a reference from the resource it asked about |
| Outcomes.TargetOutcome | kernel/linux/src/cuddlk_manager_linux.c:222-441 | a failed copy of the request is -EOVERFLOW, a major version other than 0 and 1 then -ENOEXEC, and only then the name is looked up |
| Outcomes.ClaimOutcome | kernel/linux/src/cuddlk_manager_linux.c:443-496 | a claim succeeds exactly when the resource is free, SHARED or claimed as HOSTILE and copying and allocation work; then token, lengths and SHARED flag of the resource are reported, its count and its owner's pins are one up, the entry heads the list, and no other field changes; otherwise nothing changes, and -EBUSY comes before -EOVERFLOW before -ENOMEM |
| Outcomes.InfoReplyOutcome | kernel/linux/src/cuddlk_manager_linux.c:449-479 | an info request reports the same of any resource, in use or not, and changes nothing; a failed reply takes one reference and one pin of a resource in use away |
| Outcomes.CountOutcome | kernel/linux/src/cuddlk_manager_linux.c:901-1004 | the query reads the count; the forced decrement takes one reference and one pin away and nothing else, or reports -ENOSPC at zero |
| Outcomes.NoTargetOutcome | kernel/linux/src/cuddlk_manager_linux.c:424-440 | a claim, info, count or decrement request whose checks or lookup fail reports that error, -ENXIO for the lookup, and changes nothing |
| Outcomes.ReleaseOutcome | kernel/linux/src/cuddlk_manager_linux.c:604-665 | a release is accepted exactly for a resource of a device in the table, from any process; it takes one reference and one pin away where there is one, the first entry of the process for the token off the list where there is one, and changes no other field |
| Outcomes.ReleaseErrors | kernel/linux/src/cuddlk_manager_linux.c:626-642 | -ENODEV exactly for an empty device slot in range, -EBADSLT exactly for slots out of range; a refused release fails with these or with the error of its checks |
| Outcomes.ReleaseDeviceOutcome | kernel/src/cuddlk_manager_common.c:190-202 | releasing a device empties its slot only and leaves lists and pins alone; the device is unregistered whether it was in the table or not; -ENXIO when it was not, before any error of unregistering |
| Runs.StepKeeps | kernel/linux/src/cuddlk_manager_linux.c:396-1238 | every step keeps the invariant of its kind of run |
| Runs.ReachableInv | kernel/linux/src/cuddlk_manager_linux.c:396-1238 | the invariant holds in every state of every run |
| Guarantees.CountsBounded | kernel/linux/src/cuddlk_manager_linux.c:154-174 | in every run, disciplined or not, a reference count is at most the number of list entries for its token |
| Guarantees.DisciplinedCountsExact | kernel/linux/src/cuddlk_manager_linux.c:188-216 | in disciplined runs counts equal entries, every entry names a resource of a device in the table, and the janitor never meets an empty slot |
| Guarantees.DisciplinedAnswers | kernel/include/cuddlk/memregion.h:88-90 | in disciplined runs the reference count request reports the number of entries, and an ordinary claim of a resource that is not shared is refused as busy exactly when some process has an entry |
| Guarantees.PinsConserved | kernel/linux/src/cuddlk_manager_linux.c:84-174 | in every run a module's pins are the references on its devices in the table plus those on devices it released while claimed; in disciplined runs there are none of the latter |
| Guarantees.PinsNeverUnderflow | kernel/linux/src/cuddlk_manager_linux.c:165-168 | in every run, a decrement that unpins an owner finds a pin to give back |
| Guarantees.ExclusiveUse | kernel/linux/src/cuddlk_manager_linux.c:136-141 | in peaceful runs a resource that is not shared has at most one reference; in disciplined ones at most one entry, so one holder |
| Guarantees.RequestBreaksExactness | kernel/linux/src/cuddlk_manager_linux.c:474-479 | from a state where counts equal entries, a request destroys this exactly if it is a failed info reply, a forced decrement or a release without an entry and hits a resource in use |
| Guarantees.ReleasedDeviceFaultsJanitor | kernel/linux/src/cuddlk_manager_linux.c:195-196 | after a device has been released, the janitor faults for exactly the processes with an entry for it |
| Witnesses.FailedInfoAdmitsSecondHolder | kernel/linux/src/cuddlk_manager_linux.c:474-479 | in every reachable state where a resource that is not shared has its one reference, a process without an entry is refused as busy; after one info request with a failed reply the same claim succeeds, and two different processes have entries for the resource |
| Witnesses.TwoHoldersInRun | kernel/linux/src/cuddlk_manager_linux.c:474-479 | a peaceful run of four steps from the empty manager to two processes with entries for a region that is not shared |
| Guarantees.ClaimIsAllOrNothing | kernel/linux/src/cuddlk_manager_linux.c:443-496 | a claim failing for any reason leaves the whole state unchanged; a successful one followed by the release of its token by the same process restores it exactly |
| TableRuns.RegistryMatchesTable | kernel/src/cuddlk_manager_common.c:144-202 | in every run the registered devices are exactly those in the table, each in one slot |
| TableRuns.ManageOutcome | kernel/src/cuddlk_manager_common.c:144-188 | in every reachable state, managing a device fails for the first of: a null name, no automatic instance number, a failed registration, no free slot, and then changes nothing; otherwise it puts the driver's device, unused, with its lengths completed, its owner or else the module itself, and its own instance number or an automatic one below which all are taken, into the first free slot, registers it, and changes nothing else |
| TableRuns.StepKeepsSlots | kernel/src/cuddlk_manager_common.c:116-142 | no step but its own release moves a device out of its slot or changes its names, instance or owner |
| TableRuns.RunKeepsSlots | kernel/src/cuddlk_manager_common.c:116-142 | neither does any run without that release |
| Guarantees.WindowsInsideMappings | kernel/linux/src/cuddlk_linux.c:364-382 | in every covered run the window of every region in the table lies inside its mapping |
| Guarantees.LocateIgnoresCounts | kernel/src/cuddlk_manager_common.c:31-59 | lookups do not depend on reference counts |
| TableRuns.AutomaticInstancesUnique | kernel/include/cuddlk/manager.h:211-228 | in every run in which no device leaves and all ask for automatic instances, the devices of a group and name sit in instance order, no two have the same instance, and the next one chosen is unused |
| Witnesses.AutomaticInstancesCollide | kernel/src/cuddlk_manager_common.c:98-111 | a disciplined, peaceful run of five steps ends with two devices of the same group, name and instance |
| Witnesses.NoInstanceWithFreeSlots | kernel/src/cuddlk_manager_common.c:98-111 | a disciplined, peaceful run ends with 255 empty slots, and managing a device by the name of the remaining one fails with -ENOMEM for want of an instance number |
| DeviceManager.FindResourceSlot | kernel/src/cuddlk_common.c:48-93 | the search loop computes FindResource |
| DeviceManager.DeviceMatches | kernel/src/cuddlk_manager_common.c:32-56 | the tests on one device decide Matches |
| DeviceManager.Manager.constructor | kernel/linux/src/cuddlk_manager_linux.c:1304-1308 | the new manager is in the initial state of the state machine |
| DeviceManager.Manager.FindDeviceSlotMatching | kernel/src/cuddlk_manager_common.c:22-65 | the search loop computes FindDevice |
| DeviceManager.Manager.FindDeviceSlot | kernel/src/cuddlk_manager_common.c:67-88 | the search loop computes FindSlot |
| DeviceManager.Manager.NextAvailableInstanceId | kernel/src/cuddlk_manager_common.c:90-114 | the loop terminates and computes NextInstance |
| DeviceManager.Manager.GetResourceId | kernel/linux/src/cuddlk_manager_linux.c:785-899 | the identifier request returns the stored names of the slot pair or the first error that applies, the failed copy of the reply coming last |
| DeviceManager.Manager.ClaimResource | kernel/linux/src/cuddlk_manager_linux.c:84-152 | counts and pins one reference up, or changes nothing and reports busy |
| DeviceManager.Manager.DecrRefCount | kernel/linux/src/cuddlk_manager_linux.c:108-174 | counts and pins one reference down, or reports that the count is zero |
| DeviceManager.Manager.ClaimOrInfoRequest | kernel/linux/src/cuddlk_manager_linux.c:399-602 | the claim and info requests, in place, take the state machine's step |
| DeviceManager.Manager.ListDelete | kernel/linux/src/cuddlk_manager_linux.c:645-660 | the walk deletes the first entry of this process for the token and says whether there was one |
| DeviceManager.Manager.ReleaseRequest | kernel/linux/src/cuddlk_manager_linux.c:604-728 | the release requests take the state machine's step |
| DeviceManager.Manager.CountOrDecrementRequest | kernel/linux/src/cuddlk_manager_linux.c:901-1004 | the reference count query and the forced decrement take the state machine's step |
| DeviceManager.Manager.FreeRefsForPid | kernel/linux/src/cuddlk_manager_linux.c:178-219 | the two deleting walks take the janitor step, and fault exactly when this process has an entry for an empty slot |
| DeviceManager.Manager.Register | kernel/linux/src/cuddlk_linux.c:340-435 | fills in lengths and owner of the device and registers it, or fails before or after filling in |
| DeviceManager.Manager.ManageDevice | kernel/src/cuddlk_manager_common.c:144-188 | takes the manage step and leaves the chosen instance number in the device |
| DeviceManager.Manager.ReleaseDeviceRequest | kernel/src/cuddlk_manager_common.c:190-202 | takes the device release step |
| DeviceManager.JanitorFile.Close | kernel/linux/src/cuddlk_janitor_linux.c:94-107 | with a registered process takes the janitor step, leaving exactly the other processes' entries in order, or faults exactly when that does; without one changes nothing |
| UserSpace.ClaimAndAttachIsAllOrNothing | user/src/cuddl_linux.c:297-329 | a failed claim-and-map restores the state exactly unless closing the manager device failed or the compensating release did not reach the manager; unmap-and-release undoes a successful one whatever unmapping reports |
| UserSpace.ClaimAndAttachHandsOut | user/src/cuddl_linux.c:255-318 | claim-and-map succeeds exactly when the resource can be claimed and every call works; the address handed out is that of the mapping plus the region's start_offset, with the region's lengths and SHARED flag, and one reference is added in the caller's name |
| UserSpace.ClaimAndAttachErrors | user/src/cuddl_linux.c:297-318 | the first error met is the one reported, never that of the compensating release |
| UserSpace.DetachAndReleaseOutcome | user/src/cuddl_linux.c:320-358 | the reference is given back whatever unmapping reports, unless the manager device cannot be opened; the error of unmapping comes first |
| UserSpace.HandedOutBytesAreMapped | user/src/cuddl_linux.c:255-273 | in covered runs the address range given to the caller lies inside the mapping |
| UserSpace.ClaimAndAttachCall | user/src/cuddl_linux.c:297-318 | the composed calls compute ClaimAndAttach |
| UserSpace.DetachAndReleaseCall | user/src/cuddl_linux.c:320-358 | the composed calls compute DetachAndRelease |
| UserSpace.IdForMatchIsStable | user/src/cuddl_linux.c:1119-1149 | in every reachable state, whatever fails on the way: an identifier obtained for a match leads to the resource the match leads to, resolves to itself, and the state is as before; otherwise too, except that a failed copy of the info reply takes a reference from the resource |
| UserSpace.IdForMatchSucceeds | user/src/cuddl_linux.c:1119-1149 | it succeeds exactly when all calls do and the pair the lookup finds has an identifier, which is the one returned |
| UserSpace.IdForMatchCall | user/src/cuddl_linux.c:1119-1149 | the two requests, with any outcome of opening, closing and copying, compute IdForMatch |
| Decimal.StoiRoundTrip | user/include/cuddl/general.hpp:109-151 | every 32-bit integer printed in decimal is read back |
| Decimal.StoiReads | user/include/cuddl/general.hpp:143-152 | reading takes leading white space, a sign or none and decimal digits, ignores what follows, and rejects values beyond 32 bits |
| Decimal.StoiNeedsDigit | user/include/cuddl/general.hpp:143-152 | without a digit there is nothing to read |
| ResourceName.ParsePrinted | user/include/cuddl/general.hpp:96-157 | parsing the printed form of an identifier with clean fields gives it back with wildcards made explicit and a missing instance made -1 |
| ResourceName.PrintedParts | user/include/cuddl/general.hpp:96-115 | a printed identifier cut at its slashes has four parts, group, device, resource and the decimal instance, with a star for each wildcard |
| ResourceName.PartsOfName | user/include/cuddl/general.hpp:117-157 | one part is a device, two a group and a device, three a group, a device and a resource, and a fourth is the instance |
| ResourceName.StoredIsPrefix | user/include/cuddl/general.hpp:85-88 | a field keeps the longest part of the text before a NUL that fits into 255 characters |
| ResourceName.InstancePart | user/include/cuddl/general.hpp:143-152 | an empty instance part is 0, a printed number is itself, an unreadable one is -1 |
| ResourceName.RoundTripWithoutWildcards | user/include/cuddl/general.hpp:96-157 | print then parse is the identity exactly on identifiers without wildcards |
| ResourceName.ReparsingSettles | user/include/cuddl/general.hpp:96-157 | for every string at all, print-and-parse is idempotent on what it parses to |
| ResourceName.ParseIsClean | user/include/cuddl/general.hpp:85-88 | parsed fields contain no '/' and no NUL and fit their buffers, and the instance is a 32-bit integer |
| ResourceName.ResourceID.SetFullName | user/include/cuddl/general.hpp:117-157 | the parser by positions and substrings computes the identifier given by cutting at slashes |
| UniqueName.UniqueNameInjective | kernel/linux/src/cuddlk_linux.c:340-342 | devices whose groups contain no '.' share a name only if they agree in group, device name and instance |
| UniqueName.UnambiguousMeansDotFree | kernel/linux/src/cuddlk_linux.c:340-342 | a name determines its group, device name and instance among all devices exactly when group and device name contain no '.' |
| UniqueName.PartsOfUniqueName | kernel/linux/src/cuddlk_linux.c:340-342 | the name is group, device name and decimal instance with dots between |
| EventSet.MembersAndBound | user/src/cuddl_linux.c:607-625 | after any operations from a clearing on, the members are those added and not removed since, and max_fd is the largest descriptor added since the last clearing, or 0 |
| EventSet.AscendingListSize | user/src/cuddl_linux.c:656-669 | an ascending list of a set has as many entries as the set |
| EventSet.EventSrcSet.TimedWait | user/src/cuddl_linux.c:633-670 | reads every ready descriptor exactly once in rising order and returns their number, -ETIMEDOUT exactly when there is none; a failing read ends the loop with its error after the reads before it |

## Left out

- Guarantees.CountsBounded: counts are natural numbers here, so that they never go below zero is checked at the decrement's guard; the 32-bit width of the C counter is not modelled, as it would take 2^31 list entries to reach it.
- DeviceManager.Manager.FreeRefsForPid: after a fault it promises only a consistent manager; that the mutex stays locked then is in `IsRun`, where no step follows.
- DeviceManager.JanitorFile.Close: the same after a fault.
- DeviceManager.Manager.ClaimOrInfoRequest: replies carry the token, the window and the SHARED flag; device file names, mmap offsets and event capability flags are left out.
- DeviceManager.Manager.ManageDevice: managing a device that is in the table already, which the code does not check for, is excluded; the registration with the kernel would see the same structure twice.
- DeviceManager.Manager.ReleaseDeviceRequest: unregistering a device that is not registered is taken to do nothing, while the code frees its unique name once more.
- DeviceManager.Manager.GetResourceId: the copy from a null name of a typed but nameless resource is reported as `Fault`.
- Lookup.FindDevice: a null and an empty search name are one, as both match anything; strings are NUL-free and compared on 256 characters, raw memory behind them is not modelled.
- Regions.AlignedIsRoundedUp: for pages of 4096 bytes, a 64-bit size type, and conversions to int that keep the low 32 bits.
- UserSpace.ClaimAndAttachCall: `open`, `close` and `mmap` appear only through their outcomes.
- EventSet.EventSrcSet.TimedWait: `select` may report any subset of the members; the descriptor limit of fd_set is not modelled.
- The max-count, version, variant, commit id, driver and hardware info and is-enabled requests: they read constants or strings.
- Setup and teardown of modules and device nodes, interrupt handlers, open counts, and the UIO and UDD libraries; registration is an outcome.
- The allocations at the top of the request handler, which fail before the lock is taken.
- A second pid registration on one janitor file leaks the first one's memory; memory is not modelled.
- C++ wrappers other than the resource identifier, register access helpers, the RTEMS headers.
