# Verified model of the Salus hypervisor's memory core

Salus is a RISC-V hypervisor that moves physical pages between a host VM and confidential guest VMs without
trusting the host. This project models the machinery that decides which VM can reach which page, and proves what
that machinery is for. `dafny verify dfyconfig.toml` checks all of it.

## What is modelled

**The machine.** `System.dfy` is a transition system of the whole machine: page states and owners, page tables as
flat maps, regions, pins, the TLB versions of each VM, vCPUs that move between CPUs, VMIDs that roll over, and a TLB
per CPU that the hardware fills from the table of the running VM whenever it likes. Its steps are the hypervisor
calls, vCPU entry and exit, and the hardware's own. `SystemSafety.dfy` shows that every step keeps one invariant, and
exactly which requests reach an `unwrap` of an error. `Theorems.dfy` draws the conclusions for every run: TLB safety,
isolation, exact reference counts, no overdue conversion; `CpuRuns.dfy` follows single vCPUs through runs, and
`TlbRuns.dfy` what is cached; `Lending.dfy` follows pages from the host to a guest and back.
`ListedSystem.dfy` and `ListedTheorems.dfy` add the region lists, which decide what calls find. `Memory.dfy`,
`MemorySteps.dfy` and `MemoryRanges.dfy` hold the memory invariant and how single pages and ranges are worked on;
`Hypercalls.dfy`, `Conversions.dfy`, `Lifecycle.dfy` and `Teardown.dfy` are the calls, `CallOutcomes.dfy` says when
they succeed; `VmMemory.dfy` and `VmCpu.dfy`
are the same operations as loops and objects that work in place.

**The parts.** `PageInfo.dfy` (page state machine), `TlbTracker.dfy`, `VmIds.dfy`, `RegionList.dfy`,
`RegionUpdates.dfy` and `VmRegionList.dfy` (the sorted, merging region list), `Pte.dfy`, `RadixTree.dfy`,
`GuestPageTable.dfy`, `TableRanges.dfy`, `TableRelease.dfy` and `PtePages.dfy` (the Sv48x4 table in memory, which
refines a flat map), `GuestTranslation.dfy` (what the hardware makes of it), `Basics.dfy`, `PageList.dfy`, `PageMap.dfy`, `HwMemMap.dfy`, `BootAlloc.dfy`,
`DeviceTree*.dfy` and `Fdt*.dfy` (the device tree and its flattened form), `Measurement.dfy`, `Bits.dfy` and
`Imsic.dfy`. The table follows section 8.5.1 of the RISC-V Privileged Architecture, version 20211203, the interrupt files section 3.6 of the RISC-V
Advanced Interrupt Architecture.

## Where the code does not do what one would expect

Each of these is stated by lemmas that say exactly when it happens.

- Page counts from a VM are multiplied by the page size modulo 2^64, so that the calls work on the count modulo 2^52
  (`ConvertPagesDoes`, `ConvertNothing`). Reclaim checks that many pages, but then reserves entries by the whole
  count and unwraps the result (`ReclaimPagesSound`, `ReclaimPanics`, `PanicsIff`, `OneRequestPanics`). Table indices
  ignore high address bits, so that long ranges meet entries again (`GetConvertedPagesGood`).
- The region list accepts empty ranges. They leave empty regions behind, which stop neighbours from being merged,
  and `contains` then denies ranges that are wholly of the type (`AddKeepsCanonicalIff`, `RemoveKeepsCanonicalIff`,
  `UpdateKeepsCanonicalIff`, `ContainsExactIff`, `EmptyRegionSpoilsContains`, `EmptyUpdateSpoilsContains`). A guest
  that shares a range of no pages does this to itself (`ShareNothingSpoils`). An update that is dropped restores the
  list even so, unless an empty range was removed before (`DropRestoresIff`, `EmptyDropSpoilsRestore`,
  `RefusedLeavesIff`).
- The boot allocator loses the rest of memory when a range ends where a chunk ends (`LosesTrackIff`,
  `SecondChunkLost`).
- `max_pte_pages` bounds the tables below the root; with the root's pages it can fall short
  (`EstimateCoversRootIff`, `EstimateLeavesOutRoot`).
- The page map holds 16 contiguous runs of regions, and populating it panics on more, though the memory map may
  have 32 regions (`Populate`, `SpacedRuns`, `TooManyRuns`). An empty region apart from all memory makes an empty
  chunk, at which iterating returns a page that is not there and misses one that is, or panics (`EmptyChunkIff`,
  `IterExactIff`, `EmptyRegionMisleads`).
- A reservation that finds no room for the part behind it fails, but that part is gone (`ReserveFails`,
  `ReserveLosesIff`, `FullMapLosesPages`). Base and size are rounded separately, so that what is reserved may not
  cover what was asked for (`RoundedCoversIff`, `RoundingMisses`). Empty regions and reservations are accepted (`AddHwMeans`, `ReserveKeepsOkIff`).
- A failure to finalize a guest that comes before its registers are locked cannot be made good, because the boot
  vCPU is powered on already (`DeadRun`, `CanStartIff`).
- A failed call that adds pages has completed the conversions that were due (`AddPagesFails`,
  `AddPagesFailsSameIff`).
- With more than 32 guest index bits, `addr_to_location` drops the high bits of the file number (`InverseIff`,
  `TruncatedFile`).
- Names in a flattened tree read back only if they have no NUL inside (`CStringIff`, `WriteTo`, `RoundTrip`,
  `NameCutShort`).

## Model

| member | source | states |
|---|---|---|
| Theorems.NeverPanics | src/vm_pages.rs:1560-1572 | in every run of any steps in any order (VM and vCPU creation, entry, exit, CPU migration, VMID rollover, TLB fills and evictions, fences, share, unshare, convert, reclaim, add, pin, destroy) in which the VMs keep the ranges they ask for within what their tables translate, no `unwrap` of an error on memory is reached |
| Theorems.PanicsIff | src/vm_pages.rs:1445-1482 | a run ends in a panic if and only if some step of it is a fatal request in the state then reached: a reclaim whose pages pass the check, by a range that goes on beyond 2^38 pages, or pages to lock in a range in which table entries repeat |
| Theorems.OneRequestPanics | src/vm.rs:1073-1080 | in every reachable state, a request of any VM to reclaim 2^52 pages at any address panics |
| Theorems.TlbSafety | src/vm_cpu.rs:1195-1219 | after every run, a cached translation that a running vCPU can use either is the present leaf of its VM or names a page still pending at a version not below the oldest in use |
| Theorems.UsableCovers | src/vm_pages.rs:829-858 | the version a running vCPU holds is at least the oldest in use, and the translations it may have cached are accounted for from that version on |
| Theorems.NoReachToOthersPages | page-tracking/src/page_info.rs:220-289 | no running vCPU can reach, even through its TLB, a page that is Converted, locked, holds VM state or is free, nor a page of another VM unless the host shares it |
| Theorems.MappedOnce | page-tracking/src/page_tracker.rs:195-209 | after every run a Mapped page is a valid leaf at exactly one address, in its owner's table |
| Theorems.ForeignLeafIsShared | page-tracking/src/page_tracker.rs:213-225 | a valid leaf in the table of a VM that does not own the page is a Shared page of the host, in a shared region |
| Theorems.LentPagesAreInvalid | src/vm_pages.rs:1518-1572 | a page that is converting, converted or given to a guest has exactly one entry in the host's table, and that is not valid |
| Theorems.RefCountsExact | page-tracking/src/page_info.rs:344-361 | in every reachable state the count in Shared equals the number of guest entries for the page plus its pins, and a page is Shared exactly if that is not zero |
| Theorems.ReferencedPagesStay | page-tracking/src/page_info.rs:220-267 | while anything refers to a page, a call that would convert or withdraw it fails and changes nothing, by whatever address it names the page |
| Theorems.NothingOverdue | src/vm_pages.rs:1406-1423 | after every step no Sharing or Unsharing region is from before the oldest version in use |
| Theorems.BlockedUntilComplete | src/vm_cpu.rs:1372-1402 | a Blocked vCPU is activated only when no conversion that began before its version is pending in its VM |
| CpuRuns.SharerWaits | src/vm_cpu.rs:421-443 | from every reached state in which a vCPU shares, or takes back, a range with pages in it: in every run on from there, with whatever other calls, that neither ends the vCPU nor destroys its VM, it is not claimed again while any page of the range is pending from that call |
| CpuRuns.SharerRunsIff | src/vm_cpu.rs:1372-1402 | without another such call, once it has stopped it can be claimed if and only if the version after that of the call is the oldest in use |
| CpuRuns.OthersDoNotWait | src/vm.rs:2235-2282 | a sharing call that is refused or finds no page in its range does not make the vCPU wait |
| CpuRuns.RunsAgain | src/vm_cpu.rs:429-443 | a vCPU that was claimed can be claimed again whenever it has stopped, in every run in which it does not end or ask to share |
| CpuRuns.StaysOff | src/vm_cpu.rs:846-850 | after a vCPU has ended and stopped, nothing makes it run before it is powered on |
| CpuRuns.NewStaysOff | src/vm_cpu.rs:1330-1340 | nothing makes a new vCPU run before it is powered on |
| CpuRuns.PowerOnRuns | src/vm_cpu.rs:1342-1357 | once powered on, it can be claimed |
| CpuRuns.ClaimEnds | src/vm_cpu.rs:438-443 | in every reached state the claim on a running vCPU can be ended |
| TlbRuns.StaysCached | src/vm_cpu.rs:1195-1219 | in every run, a cached translation stays usable, stale or not, until the vCPU leaves its address space or the hardware drops the entry |
| TlbRuns.LeafIsCached | src/vm_pages.rs:829-858 | every leaf of its VM can be cached for a vCPU that is inside |
| TlbRuns.StaleAfterShare | src/vm_pages.rs:1265-1308 | a page that a vCPU has given up can still be reached through its TLB, although its entry is not valid |
| TlbRuns.ReentryIff | src/vm_cpu.rs:1195-1219 | a vCPU that leaves and enters again keeps all its cached translations if it had entered at the current version of its VM, and none otherwise |
| TlbRuns.ReclaimIff | src/vm_cpu.rs:1372-1402 | the same for a vCPU that is given back and claimed again on the same CPU |
| TlbRuns.EntryKeepsOthers | src/vm_cpu.rs:1195-1219 | entering leaves alone what is cached on other CPUs and for other VMIDs, unless VMIDs have run out |
| Lending.ConvertedThenUsable | src/vm_pages.rs:1518-1552 | from every reached state, when the host has converted pages that nothing refers to, and after any run of entries, exits, fences and TLB events the version at which it did is out of use, every one of them can be given away |
| Lending.Lent | src/vm.rs:1322-1438 | then they are given to a guest in order: it has a leaf for each, owns them after the host, and the host keeps an invalid entry |
| Lending.LentInternal | src/vm.rs:1099-1116 | or for its state, with no leaf |
| Lending.Returned | src/guest_tracking.rs:183-203 | whatever a guest has done with pages it holds, when it is destroyed and the host reclaims them they are the host's again, mapped where they were before |
| Lending.LentShared | src/vm.rs:1440-1483 | pages of the host are lent to a guest in order, both have them, and each is counted once more |
| Lending.PinnedAndUnpinned | src/vm_pages.rs:1754-1805 | pinning a page counts it once more and unpinning it restores the whole machine |
| Lending.SharedThenGivenUp | src/vm_pages.rs:1265-1335 | from every reached state, when a guest has shared a range and after any such run the version of that call is out of use, the range is shared, the guest has no page there, and the pages it had are the host's, converted |
| TlbRuns.DropVmIff | src/guest_tracking.rs:183-203 | in every reached state a VM can be destroyed exactly if none of its vCPUs runs; then its vCPUs, table and regions are gone, it owns no page, and no other vCPU has changed |
| TlbRuns.NewVmIff | src/vm.rs:1118-1196 | a VM can be made exactly with an identifier that no VM has, and starts with no vCPUs, regions or pages |
| Theorems.ShootdownOver | src/vm_pages.rs:816-824 | once every vCPU inside the VM has entered after a version, nothing from that version or before is pending, and pages the host was converting can be used |
| Theorems.FenceAdvances | src/vm_pages.rs:1735-1749 | a fence starts a new version unless a vCPU still holds an older one, and is refused exactly then |
| Theorems.StartMaps | src/host_vm.rs:601-678 | at boot the host has exactly the pages of its layout, mapped where it says and owned by it; every other page is as it was left, and there is no guest and no vCPU |
| Theorems.StartInv | src/host_vm.rs:601-678 | the state at boot satisfies the invariant, for any layout of the host's memory below 2^50, with the host's own state pages, firmware, hypervisor and free pages and those locked but unowned |
| SystemSafety.RunKeeps | src/vm_pages.rs:812-858 | the invariant of the whole machine holds at the end of every run that does not panic, from every state that satisfies it |
| SystemSafety.RunPanicsIff | src/vm_pages.rs:1445-1482 | from every state that satisfies the invariant, a run panics if and only if it comes to a fatal request |
| SystemSafety.DoKeeps | src/vm.rs:942-1033 | each step keeps the invariant, and panics if and only if it is a fatal request |
| SystemSafety.EnterKeeps | src/vm_cpu.rs:1195-1219 | entering an address space keeps it: whatever stays in the TLB under the VMID is covered from the new version on |
| SystemSafety.EnterTlb | src/vm_pages.rs:844-854 | after the fence, or without it where it is skipped, every translation cached under a VMID in use is still accounted for |
| SystemSafety.EnterIds | src/vm_id.rs:61-75 | after entry, VMIDs in use on a CPU still belong to different vCPUs |
| SystemSafety.PickedVmid | src/vm_cpu.rs:1202-1207 | the VMID picked is the vCPU's own, or fresh, and then nothing in the TLB carries it |
| SystemSafety.LeaveKeeps | src/vm_pages.rs:812-826 | dropping a version, with the completion that may follow, keeps the invariant; put_version cannot fail |
| SystemSafety.FenceKeeps | src/vm_pages.rs:1735-1749 | a fence, with the completion that may follow, keeps the invariant |
| SystemSafety.ShareKeeps | src/vm.rs:2235-2282 | a share or unshare call of a vCPU, and blocking it, keeps the invariant, whether or not the region list accepts the range |
| SystemSafety.FillKeeps | src/vm_cpu.rs:1195-1219 | the hardware caching any valid translation of the VM that runs keeps the invariant |
| SystemSafety.ServeKeeps | src/vm.rs:942-1033 | every memory call, with 64-bit page counts multiplied modulo 2^64, keeps the invariant, and panics if and only if it is fatal |
| SystemSafety.DestroyVmKeeps | src/guest_tracking.rs:183-203 | destroying a guest none of whose vCPUs runs keeps the invariant and does not panic |
| SystemSafety.AddGuestKeeps | src/vm.rs:1118-1196 | a new guest keeps the invariant |
| SystemSafety.VersionStep | src/vm_pages.rs:142-197 | a change of a VM's versions that keeps the account and does not lower the oldest one, completed where it rises, keeps the invariant |
| CpuRuns.StepMoves | src/vm_cpu.rs:1372-1402 | every step but the destruction of its VM moves a vCPU only from off to runnable, from runnable to running, from running to anything else, or from blocked to running once the version it waits for is the oldest in use, and moves it only if the step is about it; and neither the oldest nor the current version goes back |
| CpuRuns.BlockedForAsLong | src/vm_cpu.rs:1372-1402 | in every run that does not destroy its VM, a vCPU blocked until a version stays so; when it is not blocked any more, every conversion of its VM that began before that version is complete |
| ListedSystem.LDoKeeps | src/vm_pages.rs:328-557 | each step of the machine with region lists, in which the lists decide what is found and whether there is room, keeps every list sorted, not too long and in agreement page by page with the regions of the memory model, and panics exactly if it would without the lists |
| ListedSystem.LRunIsRun | src/vm_pages.rs:328-557 | every run with lists is a run of the machine without, to the same end, so that all theorems on runs hold of it |
| ListedSystem.ShareListsOk | src/vm_pages.rs:1265-1376 | a share or unshare call changes list and regions alike: when it is done, when the list refuses, and when it fails after the update has begun |
| ListedSystem.SweptDescribes | src/vm_pages.rs:1406-1423 | sweeping the list when a shootdown is over says what completing the conversions page by page does |
| ListedTheorems.ListsMean | src/vm_pages.rs:328-557 | in every run the list of every VM gives each page the type that the memory model has for it, and none if it has none |
| ListedTheorems.SolidRunsStayCanonical | src/vm_pages.rs:328-557 | after every run in which no call names an empty range, all lists are canonical |
| ListedTheorems.ReachedWithout | src/vm_pages.rs:328-557 | every state that a run with lists reaches is reached by the machine without, so that the theorems on reachable states hold of it |
| ListedTheorems.RefusedLeavesIff | src/vm_pages.rs:1265-1376 | a share or unshare call that is refused, by the list or after the update has begun, leaves the machine and all lists exactly as they were, if and only if no regions could be merged at an end of the range |
| ListedTheorems.RefusedLeavesAll | src/vm_pages.rs:1265-1376 | after every run in which no empty range is removed, a share or unshare call that is refused leaves everything exactly as it was |
| ListedTheorems.FindsIff | src/vm_pages.rs:539-548 | a range that a list finds has the type throughout, and a canonical list finds every range that does and is not empty |
| ListedTheorems.AddSucceedsIff | src/vm.rs:1322-1438 | in every run, pages are given to a guest if and only if every page and place allows it, tables and contents suffice and the list finds the range; without empty ranges in the run the last is not needed |
| ListedTheorems.RegionAddedIff | src/vm.rs:1304-1320 | in every run, a region is given to a guest exactly if there is such a guest, the region lies below what its table translates, and its list has room and no region there, of memory or of a device |
| ListedTheorems.HostListExact | src/vm_pages.rs:1560-1572 | the host's own list is never changed and finds a range exactly if all of it is the host's memory, as reclaim relies on |
| ListedTheorems.ShareNothingSpoils | src/vm.rs:2300-2305 | a guest that shares a range of no pages inside its region is told that it has; memory is unchanged, and from then on no pages can be given to it across that address |
| Hypercalls.ConvertPagesSound | src/vm_pages.rs:1518-1552 | for every count, also one whose byte length wraps or whose range is longer than the table, convert does not panic, keeps the memory invariant, every translation that may be cached, and leaves nothing locked |
| Hypercalls.ConvertPagesDoes | src/vm_pages.rs:1518-1552 | on success, each entry of the range, which is as long as the count modulo 2^52, has become Invalidated with the same page, which is Converting at the current version |
| CallOutcomes.ConvertPagesDoneIff | src/vm_pages.rs:1518-1552 | convert succeeds exactly if the host has every page of the range mapped and nothing refers to any of them |
| CallOutcomes.AddInternalPagesDoneIff | src/vm.rs:1099-1116 | a guest is given pages for its state exactly if it exists, they suit, and the host has converted all of them, or they are due to be |
| CallOutcomes.AddSharedPagesDoneIff | src/vm.rs:1440-1483 | pages are lent exactly if the host has them mapped, each can be counted once more, and the places for them are shared and empty |
| CallOutcomes.PinPagesDoneIff | src/vm_pages.rs:1754-1805 | pages are pinned exactly if they are memory of the VM's own, each can be counted once more, and they lie in a row |
| CallOutcomes.ShareBeginDoneIff | src/vm_pages.rs:1265-1308 | a share begins exactly if the whole range is confidential and no page of it is pinned |
| CallOutcomes.UnshareBeginDoneIff | src/vm_pages.rs:1337-1376 | an unshare begins exactly if the whole range is shared |
| Hypercalls.ConvertNothing | src/vm.rs:1064-1071 | asked for a multiple of 2^52 pages, with a count of 64 bits, convert reports success and has done nothing |
| Hypercalls.GetConvertedPagesGood | src/vm_pages.rs:1445-1482 | every page of the range, as long as the count modulo 2^52, ends locked for assignment, or nothing has changed; it panics if and only if the range passes the check and entries repeat in it |
| Hypercalls.ReclaimPagesSound | src/vm_pages.rs:1560-1572 | reclaim panics if and only if the pages by the count modulo 2^52 are converted, or due to be, and the range by the whole count goes beyond 2^38 pages; otherwise it keeps the invariant |
| Hypercalls.ReclaimPanics | src/vm_pages.rs:1560-1572 | with a count of 2^52 it panics, whatever the memory, the VM and the address |
| Hypercalls.ReclaimPagesDoes | src/vm_pages.rs:1560-1572 | reclaim undoes convert: each page is Mapped by the host at the address it had before |
| Hypercalls.ReclaimPagesDoneIff | src/vm_pages.rs:1560-1572 | reclaim succeeds if and only if the range is not empty, lies below 2^38 pages and every page of it is converted, or due to be |
| Hypercalls.AddPagesSound | src/vm.rs:1322-1438 | adding zero or measured pages keeps the invariant, whether or not entries can be reserved and pages filled, and panics if and only if entries repeat in the source range; that measuring a page does not fail is Measurements.RunKeeps |
| Hypercalls.AddPagesDoes | src/vm.rs:1322-1438 | the j-th page is the guest's, Mapped at the j-th address asked for, and the host keeps an Invalidated entry for it |
| Hypercalls.AddPagesDoneIff | src/vm.rs:1322-1438 | adding pages succeeds if and only if there are some, all source pages are converted or due, all destinations are confidential and unmapped, all pages can be filled, and `tables`: the page-table pages suffice and the region list finds the range, which AddSucceedsIff resolves |
| Hypercalls.AddPagesFails | src/vm.rs:1391-1438 | a failed call leaves every entry and region as it was, and every page it asked for Converted, unlocked and the host's, or has changed nothing at all |
| Hypercalls.AddPagesFailsSameIff | src/vm.rs:1391-1438 | a failed call has changed nothing at all if and only if it had locked nothing or all its pages were Converted already |
| Hypercalls.AddInternalPagesSound | src/vm.rs:1099-1116 | adding state pages keeps the invariant and panics if and only if entries repeat in the range |
| Hypercalls.AddInternalPagesDoes | src/vm.rs:1099-1116 | each page of the range, as long as the count modulo 2^52, holds the guest's state, owned by it, behind an Invalidated entry of the host |
| Hypercalls.AddSharedPagesSound | src/vm.rs:1440-1483 | sharing pages with a guest never panics and keeps the invariant |
| Hypercalls.AddSharedPagesDoes | src/vm.rs:1440-1483 | the guest and the host both have a leaf for each page, whose count has risen by one |
| Hypercalls.PinPagesSound | src/vm_pages.rs:1754-1805 | pinning keeps counts exact and panics if and only if the count is a multiple of 2^52, which no caller gives it |
| Hypercalls.PinPagesDoes | src/vm_pages.rs:1754-1805 | each page of the range, as long as the count modulo 2^52, has one more pin and one more reference; entries and regions are unchanged |
| Hypercalls.PinThenUnpin | src/vm_pages.rs:230-240 | dropping a pin undoes taking it: memory is as it was |
| Hypercalls.UnpinPageSound | src/vm_pages.rs:230-240 | dropping a pin never panics and keeps counts exact |
| Conversions.ShareBeginSound | src/vm_pages.rs:1265-1308 | share_mem_region_begin never panics and keeps the invariant, whether or not the list accepts the range |
| Conversions.ShareBeginDoes | src/vm_pages.rs:1265-1308 | pages of the range are Unassigning at the current version behind Invalidated entries, the region is Sharing at it and the caller waits for the next one; a range that holds no pages is shared at once. What becomes of the list is ShareListsOk |
| Conversions.UnshareBeginSound | src/vm_pages.rs:1337-1376 | unshare_mem_region_begin never panics and keeps the invariant, whether or not the list accepts the range |
| Conversions.UnshareBeginDoes | src/vm_pages.rs:1337-1376 | entries of the range are Invalidated, pages and their counts stay, and the region is Unsharing, or Confidential at once if nothing was there |
| Conversions.CompleteTheseKeeps | src/vm_pages.rs:1311-1333 | completion of what is due never fails a check or an `unwrap`, keeps the invariant and takes nothing that a vCPU at the oldest version may have cached |
| Conversions.CompletedTrans | src/vm_pages.rs:1406-1423 | completing one conversion and then others completes exactly those conversions |
| Conversions.CompleteRestores | src/vm_pages.rs:1406-1423 | when the oldest version has risen, completion leaves no conversion overdue: each withdrawn page is Converted and the host's, each returned reference is dropped, and no other page changes |
| MemoryRanges.RangeGood | src/vm_pages.rs:1540-1549 | a range that passed its check is worked through page by page without an error, keeping the invariant |
| MemoryRanges.RangeAt | src/vm_pages.rs:1540-1549 | each page of a range ends up exactly as if it had been the only one |
| MemoryRanges.RangeElse | src/vm_pages.rs:1540-1549 | entries and pages that the range does not name are unchanged |
| MemoryRanges.RangeUnlocked | page-tracking/src/page_list.rs:173-181 | work that gives locked pages up or away leaves none locked |
| MemorySteps.ConvertOneGood | page-tracking/src/page_tracker.rs:263-272 | beginning a conversion keeps the invariant and every cached translation accounted for |
| MemorySteps.LockOneGood | page-tracking/src/page_tracker.rs:286-306 | completing a conversion that is due and locking the page keeps them |
| MemorySteps.AssignOneGood | page-tracking/src/page_tracker.rs:195-209 | assigning a locked page and mapping it keeps them |
| MemorySteps.ShareOneGood | page-tracking/src/page_tracker.rs:213-225 | taking a reference and mapping the page keeps them |
| MemorySteps.WithdrawOneGood | page-tracking/src/page_tracker.rs:310-319 | beginning to take a page away from a guest keeps them |
| MemorySteps.ReturnOneGood | src/vm_pages.rs:1350-1366 | invalidating a shared entry keeps them |
| MemorySteps.CompletionCheckPasses | page-tracking/src/page_tracker.rs:438-453 | whenever a conversion is due, the check made before it is completed succeeds |
| MemorySteps.CompleteOneKeeps | page-tracking/src/page_tracker.rs:322-335 | completing a conversion that is due keeps the invariant and all that may be cached at the oldest version |
| Memory.SetInv | page-tracking/src/page_info.rs:67-74 | a change of one entry, one region and one page keeps the invariant of all memory if it keeps what concerns the page |
| Memory.CoveredPage | page-tracking/src/page_info.rs:220-289 | a page that a cached translation may name is none that is Converted, locked, VM state or free, and belongs to the VM or is shared by the host |
| Lifecycle.BootInv | src/host_vm.rs:601-678 | the host alone, with its pages mapped once each, its own state pages, and pages locked but unowned, satisfies the memory invariant |
| Lifecycle.AddVmSound | src/vm.rs:1118-1196 | a new VM keeps the invariant; it owns nothing |
| Lifecycle.AddRegionSound | src/vm_pages.rs:1199-1213 | adding a region keeps the invariant |
| Lifecycle.AddRegionDoes | src/vm_pages.rs:1199-1213 | exactly the guest pages of the range, which had no type, get the type |
| Teardown.DestroyKeeps | riscv-page-tables/src/page_table.rs:1176-1194 | destroying a guest never panics and keeps the invariant; all it owned is the host's, Converted, and every reference it held is dropped once |
| Teardown.PageComesBack | page-tracking/src/page_info.rs:154-181 | each page that the guest did not own has lost exactly the guest's references and is otherwise as it was |
| Teardown.DropPinsKeeps | src/vm_pages.rs:230-240 | dropping the pins of the guest's vCPUs comes first and cannot fail |
| Teardown.DropTheseKeeps | riscv-page-tables/src/page_table.rs:392-425 | releasing the entries of the table, in any order, cannot fail |
| Teardown.ReleaseTheseKeeps | src/vm_pages.rs:987-996 | releasing table, pool and state pages cannot fail |
| VmMemories.VmMemory.DoConvertPages | src/vm_pages.rs:1518-1552 | the loops that check and then convert do what ConvertPages says |
| VmMemories.VmMemory.DoGetConvertedPages | src/vm_pages.rs:1445-1482 | the loops that check and then lock do what GetConvertedPages says |
| VmMemories.VmMemory.DoReclaimPages | src/vm_pages.rs:1560-1572 | the loops of reclaim do what ReclaimPages says |
| VmMemories.VmMemory.DoGiveUp | page-tracking/src/page_list.rs:173-181 | the loop that unlocks the pages of a failed call does what GiveUp says |
| VmMemories.VmMemory.DoAddPages | src/vm.rs:1322-1438 | the loops that add pages to a guest do what AddPages says, on success and on each failure |
| VmMemories.VmMemory.DoAddSharedPages | src/vm.rs:1440-1483 | the loops that share pages do what AddSharedPages says |
| VmMemories.VmMemory.DoShareBegin | src/vm_pages.rs:1265-1308 | the loops of share do what ShareBegin says |
| VmMemories.VmMemory.DoUnshareBegin | src/vm_pages.rs:1337-1376 | the loops of unshare do what UnshareBegin says |
| VmMemories.VmMemory.Each | src/vm_pages.rs:1540-1549 | the loop over a range does what the range says, and panics where a page of it would |
| PageInfos.RunKeepsValid | page-tracking/src/page_info.rs:67-374 | every run of the operations on a page keeps its state and its stack of owners consistent |
| PageInfos.LentPageComesBack | page-tracking/src/page_info.rs:154-217 | in any run, the step by which the borrower, and whoever it lent the page to, first loses the page gives it back to the lender, Converted, with the owners below unchanged |
| PageInfos.CustodyFrom | page-tracking/src/page_info.rs:154-217 | in any run, the step that first takes the stack of owners down to a given depth leaves the page Converted with exactly the owners that were below |
| PageInfos.SharesAreReleasedOneByOne | page-tracking/src/page_info.rs:344-361 | a page shared n times is Mapped again after exactly n releases, and not before |
| PageInfos.MemTypeKept | page-tracking/src/page_info.rs:149-151 | no operation changes the memory type |
| PageInfos.PageInfo.DoRelease | page-tracking/src/page_info.rs:154-181 | release in place: the record afterwards and the error are those of the function that the run theorems are about; on an error nothing changes |
| PageInfos.PageInfo.DoAssign | page-tracking/src/page_info.rs:184-217 | assign in place: the record afterwards and the error are those of the function that the run theorems are about; on an error nothing changes |
| PageInfos.PageInfo.DoBeginConversion | page-tracking/src/page_info.rs:220-229 | begin_conversion in place: the record afterwards and the error are those of the function that the run theorems are about; on an error nothing changes |
| PageInfos.PageInfo.DoCompleteConversion | page-tracking/src/page_info.rs:233-246 | complete_conversion in place: the record afterwards and the error are those of the function that the run theorems are about; on an error nothing changes |
| PageInfos.PageInfo.DoBeginUnassignment | page-tracking/src/page_info.rs:258-267 | begin_unassignment in place: the record afterwards and the error are those of the function that the run theorems are about; on an error nothing changes |
| PageInfos.PageInfo.DoCompleteUnassignment | page-tracking/src/page_info.rs:271-289 | complete_unassignment in place: the record afterwards and the error are those of the function that the run theorems are about; on an error nothing changes |
| PageInfos.PageInfo.DoLockForAssignment | page-tracking/src/page_info.rs:318-328 | lock_for_assignment in place: the record afterwards and the error are those of the function that the run theorems are about; on an error nothing changes |
| PageInfos.PageInfo.DoUnlock | page-tracking/src/page_info.rs:331-340 | unlock in place: the record afterwards and the error are those of the function that the run theorems are about; on an error nothing changes |
| PageInfos.PageInfo.DoShare | page-tracking/src/page_info.rs:344-361 | share in place: the record afterwards and the error are those of the function that the run theorems are about; on an error nothing changes |
| PageInfos.PageInfo.DoReclaim | page-tracking/src/page_info.rs:364-374 | reclaim in place: the record afterwards and the error are those of the function that the run theorems are about; on an error nothing changes |
| TlbTrackers.RunAccounts | src/vm_pages.rs:113-198 | over every run of get, put and increment, the counts are the live handles per version, each handle is at the current or the preceding version, so put never fails, and the oldest version never falls |
| TlbTrackers.EventAccounts | src/vm_pages.rs:113-198 | one event keeps the account; the oldest version rises only on a call that returns true |
| TlbTrackers.MinVersionIsLeast | src/vm_pages.rs:142-149 | min_version is the least version of any live handle, or the current one |
| TlbTrackers.GetAccounts | src/vm_pages.rs:173-177 | a new handle is counted at the current version |
| TlbTrackers.PutAccounts | src/vm_pages.rs:181-197 | a handle that is live can be put back, and true is returned exactly if the oldest version rises |
| TlbTrackers.IncrementAccounts | src/vm_pages.rs:154-170 | increment starts a new version and returns true exactly if no handle is live |
| TlbTrackers.FenceRefusedIff | src/vm_pages.rs:154-170 | a fence is refused exactly while a handle of the preceding version is live |
| TlbTrackers.TlbTracker.DoMinVersion | src/vm_pages.rs:142-149 | the method returns the least live version that the lemmas are about |
| TlbTrackers.TlbTracker.DoIncrement | src/vm_pages.rs:154-170 | increment in place |
| TlbTrackers.TlbTracker.DoGet | src/vm_pages.rs:173-177 | get_version in place |
| TlbTrackers.TlbTracker.DoPut | src/vm_pages.rs:181-197 | put_version in place, with its errors |
| VmIds.VmIdUnique | src/vm_id.rs:61-75 | no call returns a VMID that an earlier call returned at the same version, and between equal numbers at different versions there is a flush |
| VmIds.HandedOutInTurn | src/vm_id.rs:61-75 | from the start on, call n gives VMID n modulo their number at version n divided by it plus one, and flushes exactly when it starts over |
| VmIds.FlushSince | src/vm_id.rs:61-75 | if the version has changed since a call, a flush came after it |
| VmIds.InOrder | src/vm_id.rs:61-75 | versions never fall, and a VMID returned at the current version is among those counted as handed out |
| VmIds.VmIdTracker.DoNextVmId | src/vm_id.rs:61-75 | next_vmid in place |
| VmCpus.EnterIs | src/vm_cpu.rs:1195-1219 | the step of the machine that enters an address space changes the vCPU, its VM's versions and the CPU as Entered says, and nothing else |
| VmCpus.ClaimIs | src/vm_cpu.rs:1372-1402 | the step that claims a vCPU changes it as Activated says and changes nothing else |
| VmCpus.VmCpu.DoRestoreVmPages | src/vm_cpu.rs:1195-1219 | restore_vm_pages in place: VMID, TLB version, fence and the record of both |
| VmCpus.LeaveIs | src/vm_pages.rs:812-826 | in every state that satisfies the invariant, every vCPU is accounted for and the put of the version it holds succeeds; the step that leaves changes the vCPU and its VM's versions as Left says |
| VmCpus.VmCpu.DoLeave | src/vm_pages.rs:812-826 | dropping the active pages in place: a vCPU that is accounted for puts its version without an error and is accounted for afterwards |
| VmCpus.VmCpu.DoSyncTlb | src/vm_cpu.rs:1011-1015 | leaves and enters again, with the account kept |
| VmCpus.VmCpu.DoActivate | src/vm_cpu.rs:1372-1402 | activate with each of its errors; the VMID is forgotten exactly on a change of CPU |
| RegionLists.CanonicalUnique | src/vm_pages.rs:328-557 | two sorted, merged lists of non-empty regions that give every page the same type are the same list |
| RegionLists.CoalesceDoes | src/vm_pages.rs:508-536 | try_coalesce_at changes no page's type, keeps the list sorted and leaves nothing to merge around the index |
| RegionLists.AddMeans | src/vm_pages.rs:341-371 | after add, exactly the pages of the range have gained the type |
| RegionLists.AddOutcomes | src/vm_pages.rs:341-371 | add fails for overlap, or for room, or succeeds, each exactly when |
| RegionLists.AddRefusesOverlap | src/vm_pages.rs:341-371 | a non-empty range is refused for overlap exactly if one of its pages has a type |
| RegionLists.AddKeepsCanonicalIff | src/vm_pages.rs:341-371 | add keeps the list canonical if and only if the range is not empty or starts where a region of its type ends |
| RegionLists.ContainsExact | src/vm_pages.rs:539-548 | on a canonical list, contains is true of a non-empty range exactly if every page in it has the type |
| RegionLists.ContainsExactIff | src/vm_pages.rs:539-548 | for any sorted list, contains is exact for all ranges if and only if no two touching regions have one type |
| RegionLists.EmptyRegionSpoilsContains | src/vm_pages.rs:539-548 | a run of calls with an empty range after which contains denies a range all of whose pages have the type |
| RegionUpdates.RemoveOutcomes | src/vm_pages.rs:374-428 | remove fails exactly if no region of the type holds the range, or if the parts left do not fit |
| RegionUpdates.UpdateOutcomes | src/vm_pages.rs:434-484 | update fails exactly if no region of the type holds the range, or if the parts it makes do not fit |
| RegionUpdates.RemoveMeans | src/vm_pages.rs:374-428 | after remove, exactly the pages of the range have lost their type |
| RegionUpdates.RemoveKeepsCanonicalIff | src/vm_pages.rs:374-428 | remove keeps the list canonical unless the range is empty and strictly inside its region, and only then does not |
| RegionUpdates.UpdateMeans | src/vm_pages.rs:434-484 | update followed by finish gives exactly the pages of the range the new type and keeps the list sorted and merged |
| RegionUpdates.UpdateKeepsCanonicalIff | src/vm_pages.rs:434-484 | it keeps a canonical list canonical if and only if the range is not empty, or takes the type of the region it is cut out of or of one that touches it there |
| RegionUpdates.EmptyUpdateSpoilsContains | src/vm_pages.rs:434-484 | an empty update inside any region of a guest, after which contains and update deny the range that the region was, although every page still has the type |
| RegionUpdates.DropRestoresIff | src/vm_pages.rs:585-592 | update followed by a drop restores the very same list, for every list and range, if and only if the range does not reach an end of its region at which that could be merged with the next; it never does if nothing of the type is left to merge |
| RegionUpdates.EmptyDropSpoilsRestore | src/vm_pages.rs:374-428 | removing an empty region between two of one type leaves them unmerged, and then a dropped update merges them |
| RegionUpdates.RemoveKeepsCoalesced | src/vm_pages.rs:374-428 | removing a range that is not empty leaves nothing to merge if there was nothing before |
| RegionUpdates.SweepKeeps | src/vm_pages.rs:488-504 | update_all ends and keeps the list sorted and merged |
| RegionUpdates.SweepMeans | src/vm_pages.rs:488-504 | update_all changes the type of each page as the function says for the region it was in, for any function that leaves alone what it has changed |
| RegionUpdates.CompletionSettles | src/vm_pages.rs:1406-1423 | the function of completion leaves a region that it has changed alone |
| RegionUpdates.CompletionMeans | src/vm_pages.rs:1406-1423 | after completion, exactly the overdue Sharing pages are Shared, the overdue Unsharing pages Confidential, and the others as before |
| VmRegionLists.VmRegionList.Add | src/vm_pages.rs:341-371 | add with its errors, in place |
| VmRegionLists.VmRegionList.Remove | src/vm_pages.rs:374-428 | remove with its errors, in place |
| VmRegionLists.VmRegionList.Update | src/vm_pages.rs:434-484 | update in place, and the handle for it |
| VmRegionLists.VmRegionList.UpdateAll | src/vm_pages.rs:488-504 | the sweep, in place; it terminates |
| VmRegionLists.VmRegionList.TryCoalesceAt | src/vm_pages.rs:508-536 | merging in place, for any index |
| VmRegionLists.VmRegionList.Contains | src/vm_pages.rs:539-548 | the search that the exactness results are about |
| VmRegionLists.VmRegionList.Find | src/vm_pages.rs:551-556 | the type of a page, or none if it has none |
| VmRegionLists.VmRegionUpdater.Drop | src/vm_pages.rs:585-592 | an unfinished update puts the type back and merges |
| VmRegionLists.VmRegionUpdater.Finish | src/vm_pages.rs:580-582 | a finished update sets the new type and merges |
| VmRegionLists.UpdateWhole | src/vm_pages.rs:434-484 | update and then finish or drop, for every range: the new types, and a canonical list exactly if the range blends in; or the old list exactly |
| Ptes.SetDecodes | riscv-page-tables/src/pte.rs:97-99 | a word set to a page number and valid leaf bits decodes to that leaf |
| Ptes.LockDecodes | riscv-page-tables/src/pte.rs:141-143 | locking turns Unused and Invalidated into LockedUnmapped and a leaf into LockedMapped, keeping the page number |
| Ptes.UnlockUndoesLock | riscv-page-tables/src/pte.rs:146-148 | unlock after lock gives the entry back |
| Ptes.InvalidateDecodes | riscv-page-tables/src/pte.rs:125-127 | invalidating a leaf gives Invalidated with the same page number |
| Ptes.UpdateDecodes | riscv-page-tables/src/pte.rs:108-112 | a new page number replaces the old one and nothing else |
| RadixTrees.PutLeaf | riscv-page-tables/src/page_table.rs:119-139 | a store at one entry changes the flat map at that guest page and at no other |
| RadixTrees.AddTableOk | riscv-page-tables/src/page_table.rs:367-388 | a clean page from the pool becomes a table: the tree stays well formed and the flat map is unchanged |
| GuestTranslations.TableTranslates | riscv-page-tables/src/pte.rs:196-201 | the hardware's translation, read from memory and the root alone by the bit positions of the architecture, takes every read, write and fetch of every guest page to exactly the page that the table maps there, and faults on all others |
| GuestTranslations.ValidTranslates | riscv-page-tables/src/page_table.rs:1222-1241 | that holds of the table object after every operation |
| GuestPageTables.Descends | riscv-page-tables/src/page_table.rs:559-566 | following a table entry leads to the table for the address one level down, so that the walk ends |
| GuestPageTables.Arrived | riscv-page-tables/src/page_table.rs:559-566 | the walk ends at the entry of the flat map for the address, and at the last level this is never a table |
| GuestPageTables.PointsIff | riscv-page-tables/src/page_table.rs:119-139 | an entry is a table exactly if there is a table for it one level down, and that is where it points |
| GuestPageTables.NewTable | riscv-page-tables/src/page_table.rs:539-555 | a root that is aligned and long enough gives a well-formed tree and an empty flat map, and each of the two errors is returned exactly when it is not |
| GuestPageTables.PageTableInner.Walk | riscv-page-tables/src/page_table.rs:559-566 | the walk by loop finds the entry of the flat map, or reports that no table leads to it |
| GuestPageTables.PageTableInner.Store | riscv-page-tables/src/page_table.rs:338-343 | a store of a leaf-level word refines an update of the flat map at one guest page |
| GuestPageTables.PageTableInner.MapLeaf | riscv-page-tables/src/page_table.rs:574-597 | map_leaf turns LockedUnmapped into the leaf at one guest page, or fails and changes nothing |
| GuestPageTables.PageTableInner.RemapLeaf | riscv-page-tables/src/page_table.rs:605-627 | remap_leaf replaces the page of a LockedMapped entry, or fails and changes nothing |
| GuestPageTables.PageTableInner.NextLevelOrFill | riscv-page-tables/src/page_table.rs:367-388 | a missing table is taken from the pool, zeroed pages only, without a change to the flat map |
| GuestPageTables.PageTableInner.LockLeafForMapping | riscv-page-tables/src/page_table.rs:631-657 | locks Unused or Invalidated at one guest page, adding tables on the way; it runs out of tables exactly if more are missing than the pool has, and every failure leaves the flat map as it was |
| GuestPageTables.PageTableInner.LockLeafForRemapping | riscv-page-tables/src/page_table.rs:660-672 | locks a leaf at one guest page, or fails and changes nothing |
| GuestPageTables.PageTableInner.UnlockLeaf | riscv-page-tables/src/page_table.rs:675-689 | undoes the lock at one guest page, or fails and changes nothing |
| GuestPageTables.PageTableInner.InvalidateLeaf | riscv-page-tables/src/page_table.rs:692-704 | a leaf becomes Invalidated with its page, at one guest page |
| GuestPageTables.PageTableInner.ClearLeaf | riscv-page-tables/src/page_table.rs:708-723 | an Invalidated entry becomes Unused, at one guest page |
| PtePages.TablesWithinEstimate | riscv-page-tables/src/sv48x4.rs:90-97 | wherever a window of n guest pages lies, the tables below the root that mapping it can ever need are at most max_pte_pages(n) |
| PtePages.OnlyForKept | riscv-page-tables/src/page_table.rs:631-657 | mapping in a window adds tables for that window only |
| PtePages.LevelBound | riscv-page-tables/src/sv48x4.rs:90-97 | per level, at most two tables more than n - 1 pages span |
| PtePages.TablesOfWindow | riscv-page-tables/src/sv48x4.rs:90-97 | how many pages the table of a fully mapped window has, by where it begins and how long it is |
| PtePages.EstimateCoversRootIff | riscv-page-tables/src/sv48x4.rs:90-97 | for every window, the estimate covers the tables and the four pages of the root if and only if the boundaries between tables that the window crosses, over the three levels, are no more than n/512 + (n/512 + 1)/512 and so on |
| PtePages.EstimateLeavesOutRoot | riscv-page-tables/src/sv48x4.rs:90-97 | two guest pages on either side of a boundary of all levels: the tables of any tree that maps them exceed the estimate with the root |
| PtePages.EstimateCoversRootAtZero | riscv-page-tables/src/sv48x4.rs:90-97 | for a window that begins at address zero the estimate always covers the root as well |
| TableRelease.EntriesHaveTables | riscv-page-tables/src/page_table.rs:631-657 | a window all of whose entries exist has all the tables on the way to them, as those results ask for |
| TableRanges.GuestStagePageTable.CheckAll | riscv-page-tables/src/page_table.rs:975-1000 | the check passes exactly if every entry of the range is of the kind asked for and its page accepted |
| TableRanges.GuestStagePageTable.InvalidateRange | riscv-page-tables/src/page_table.rs:1024-1049 | all leaves of the range become Invalidated and their pages are returned in order, or nothing changes |
| TableRanges.GuestStagePageTable.UnmapRange | riscv-page-tables/src/page_table.rs:1054-1101 | all invalidated entries of the range are cleared and their pages returned in order, or nothing changes |
| TableRanges.GuestStagePageTable.GetMappedPages | riscv-page-tables/src/page_table.rs:1105-1132 | returns the pages of the leaves in order exactly if all of the range are accepted leaves |
| TableRanges.GuestStagePageTable.GetInvalidatedPages | riscv-page-tables/src/page_table.rs:1136-1163 | returns the pages of the invalidated entries in order exactly if all of the range are accepted |
| TableRanges.GuestStagePageTable.MapRange | riscv-page-tables/src/page_table.rs:930-949 | all entries of the range are locked, or all are as they were; tables run out if and only if, before an entry that cannot be locked, the range needs more tables that are not there than the pool has |
| TableRanges.GuestStagePageTable.LockAll | riscv-page-tables/src/page_table.rs:1207-1217 | the loop that locks; how far it got when it fails, and exactly when the tables run out |
| TableRanges.GuestStagePageTable.UnlockRange | riscv-page-tables/src/page_table.rs:1266-1277 | the loop unlocks every entry of the range that is locked and changes no other |
| TableRanges.GuestStageMapper.MapPage | riscv-page-tables/src/page_table.rs:1222-1241 | maps one page of the range that is still locked, and refuses any other address |
| TableRanges.GuestStageMapper.Drop | riscv-page-tables/src/page_table.rs:1266-1277 | unlocks every entry of the range that is still locked and changes no other |
| TableRanges.MapThenDrop | riscv-page-tables/src/page_table.rs:1266-1277 | a range that is locked, mapped in part and dropped: what was mapped is there and every other entry is as it was before |
| TableRanges.Undone | riscv-page-tables/src/page_table.rs:1207-1217 | locking part of a range and unlocking it again restores the flat map |
| TableRelease.ReleasedOnce | riscv-page-tables/src/page_table.rs:392-425 | releasing the table releases every page that a leaf or an invalidated entry holds exactly once, every table below the root exactly once, and nothing else |
| TableRelease.EntryPages | riscv-page-tables/src/page_table.rs:392-425 | one entry of any level releases the pages below it, each once |
| TableRelease.EntryTables | riscv-page-tables/src/page_table.rs:392-425 | one entry of any level releases the tables below it, each once |
| TableRelease.ReleasePages | riscv-page-tables/src/page_table.rs:392-425 | the recursive release over the words in memory returns that sequence |
| TableRelease.DropTable | riscv-page-tables/src/page_table.rs:1176-1194 | the drop releases all below the root and then the four pages of the root |
| DeviceTreeIterators.WalkIsPreorder | device-tree/src/device_tree.rs:488-516 | from each node of the depth-first order the iterator goes to the next, and from the last it ends |
| DeviceTreeIterators.NextInTree | device-tree/src/device_tree.rs:488-516 | the same below any node, with the step on from its last descendant |
| DeviceTreeIterators.DepthInTree | device-tree/src/device_tree.rs:488-516 | the depth reported is the number of steps up to the start, so that no `unwrap` on the way up fails |
| DeviceTreeIterators.DeviceTreeIter.NextNode | device-tree/src/device_tree.rs:519-527 | the object returns the nodes in depth-first order, each once |
| DeviceTreeIterators.DeviceTreeIter.SetNextNode | device-tree/src/device_tree.rs:488-516 | the loop that climbs finds the next node and its depth |
| DeviceTreeBuild.BuildInvertsTokens | device-tree/src/device_tree.rs:74-105 | feeding the tokens of any tree builds exactly that tree, every node closed |
| DeviceTreeBuild.FeedWhole | device-tree/src/device_tree.rs:74-105 | the same inside a tree under construction, whose other nodes are unchanged |
| DeviceTreeBuild.FeedForest | device-tree/src/device_tree.rs:74-105 | the same for a sequence of trees under one node |
| DeviceTreeBuild.AddNodeClosed | device-tree/src/device_tree.rs:124-140 | a new node is a leaf, last among its parent's children or the root, and nothing else changes; a refused one is listed nowhere |
| DeviceTreeBuild.DeviceTree.AddNewNode | device-tree/src/device_tree.rs:124-140 | add_node in place, with its errors, for a name given with or without the NUL that ends it |
| DeviceTreeBuild.FromTokens | device-tree/src/device_tree.rs:74-105 | the loop over any tokens, well formed or not, builds what the specification builds or fails where it does; a NUL at the end of a name is not doubled |
| DeviceTreeRemove.RemoveMeans | device-tree/src/device_tree.rs:143-169 | after remove_node exactly the node and its descendants are gone, and every tree left is the old one without that subtree |
| DeviceTreeRemove.PrunedSame | device-tree/src/device_tree.rs:143-169 | a tree that the removed node was not in is unchanged |
| DeviceTreeRemove.WalkVisitsBelow | device-tree/src/device_tree.rs:179-185 | the walk from a node visits exactly its descendants |
| DeviceTreeRemove.DoRemoveNode | device-tree/src/device_tree.rs:143-169 | remove_node in place, by way of the iterator |
| FdtFormat.ParseInverts | device-tree/src/serialize.rs:60-107 | a structure block that holds tokens as the Devicetree Specification lays them out decodes to those tokens |
| FdtFormat.CStringIff | device-tree/src/serialize.rs:187-193 | a NUL-terminated name reads back as itself if and only if it has no NUL inside |
| FdtFormat.ParsedClean | device-tree/src/serialize.rs:60-107 | no bytes whatsoever decode to a token whose name has a NUL inside |
| FdtFormat.IsBlockAppend | device-tree/src/serialize.rs:170-183 | one more token behind a block is a block |
| FdtEmit.EmitIsTokens | device-tree/src/serialize.rs:255-305 | the walk, with node ends deduced from depths alone, emits exactly the tokens of the tree: begins and ends balance |
| FdtEmit.EmitTree | device-tree/src/serialize.rs:280-305 | the same below any node, followed by the ends up to where the walk goes on |
| FdtEmit.WalkTree | device-tree/src/serialize.rs:215-234 | the sizes counted node by node are those of the tokens that will be written |
| FdtWriters.WrittenMore | device-tree/src/serialize.rs:170-183 | a token written behind others leaves a longer block that means one token more |
| FdtWriters.NameMore | device-tree/src/serialize.rs:187-193 | a name written behind others leaves what refers to the earlier names as it was |
| FdtWriters.FdtWriter.PushBegin | device-tree/src/serialize.rs:170-183 | writes the begin token; the slices hold exactly what has been pushed |
| FdtWriters.FdtWriter.PushEnd | device-tree/src/serialize.rs:170-183 | writes the end token |
| FdtWriters.FdtWriter.PushString | device-tree/src/serialize.rs:187-193 | writes a name and returns where it can be read back |
| FdtWriters.FdtWriter.PushPropToken | device-tree/src/serialize.rs:170-183 | the four parts of a property token, in order, behind each other |
| FdtWriters.FdtWriter.PushProp | device-tree/src/serialize.rs:170-193 | writes a property and its name |
| FdtWriters.FdtWriter.PushStructRaw | device-tree/src/serialize.rs:200-204 | copies data and moves on to the next multiple of four |
| FdtSerializer.GetLayout | device-tree/src/serialize.rs:215-234 | the sizes are exactly those of the tokens and names of the tree |
| FdtSerializer.PushTree | device-tree/src/serialize.rs:280-305 | the loop writes the tokens of the tree and uses up both slices to the last byte |
| FdtSerializer.PushHeader | device-tree/src/serialize.rs:146-155 | the header words can be read back at their places |
| FdtSerializer.HeaderMeans | device-tree/src/serialize.rs:260-273 | read by the offsets of the specification, the ten words written are the ten fields of the header |
| FdtSerializer.LaysOut | device-tree/src/serialize.rs:260-280 | such a blob is laid out as the specification asks for: an empty reservation block at a multiple of eight, then the structure block, then the strings block, all within a total size that ends with them |
| FdtSerializer.BlobDecodes | device-tree/src/serialize.rs:255-305 | a blob with that header and blocks decodes to the tokens |
| FdtSerializer.WriteTo | device-tree/src/serialize.rs:255-305 | for every tree that fits in 32-bit offsets, no slice is too small; read after sections 5.2 and 5.3 of the Devicetree Specification, the blob has the total size of `OutputSize`, version 17 compatible with 16, boot CPU 0, an empty reservation block and all blocks in order within that size; and it decodes, by sections 5.4 and 5.5 of the Devicetree Specification v0.3, to the tokens of the tree if and only if no name in it has a NUL inside |
| FdtSerializer.RoundTrip | device-tree/src/serialize.rs:255-305 | written, decoded and built again, the tree is the same (names, properties and order, node for node) if and only if no name in it has a NUL inside |
| FdtSerializer.NameCutShort | device-tree/src/serialize.rs:187-193 | for every name with a NUL inside, the tree of one node with that name, to whose tokens nothing decodes |
| PageLists.RunKeeps | page-tracking/src/page_list.rs:62-85 | over every run of pushes and pops on any number of lists in the one link array, the lists stay disjoint and acyclic and pages on none stay unlinked |
| PageLists.RunIsFifo | page-tracking/src/page_list.rs:62-85 | over every run, each list gives pages back in the order they were pushed |
| PageLists.PushKeeps | page-tracking/src/page_list.rs:62-72 | a page on no list can be pushed; the other lists do not change |
| PageLists.PopKeeps | page-tracking/src/page_list.rs:75-85 | the page popped is on no list; the other lists do not change |
| PageLists.PageList.Push | page-tracking/src/page_list.rs:62-72 | push in place: appends, with the length and the tail kept |
| PageLists.PageList.Pop | page-tracking/src/page_list.rs:75-85 | pop in place: takes the first page |
| PageLists.PageList.FromRawParts | page-tracking/src/page_list.rs:41-59 | recovers length and tail of a chain from its head |
| PageLists.PageList.IsContiguous | page-tracking/src/page_list.rs:103-116 | true exactly if the addresses are consecutive |
| PageLists.PageList.Drop | page-tracking/src/page_list.rs:138-142 | unlinks all pages of the list and no others |
| PageMaps.PfnsMean | page-tracking/src/page_info.rs:474-528 | the pages of the map are those the regions cover, once each and in order, with the initial state of their region's kind |
| PageMaps.StatesAtBoot | page-tracking/src/page_info.rs:500-528 | which state the pages of each kind of region start in: free, locked, or reserved, without an owner |
| PageMaps.MapIndexIff | page-tracking/src/page_info.rs:555-560 | the index is defined exactly on covered pages, and is the page's position in that order, hence injective |
| PageMaps.ChunksMean | page-tracking/src/page_info.rs:474-528 | the chunks that the regions form divide up the records, with a gap in memory between any two of them |
| PageMaps.PageMap.Populate | page-tracking/src/page_info.rs:474-528 | for every memory map in order, also with empty regions, the loops over regions and pages build that map with those chunks; they panic if and only if there is no region or the regions form more than 16 contiguous runs |
| PageMaps.PageMap.GetMapIndex | page-tracking/src/page_info.rs:555-560 | the search over chunks finds that index |
| PageMaps.PageMap.Get | page-tracking/src/page_info.rs:531-534 | the record of a page, or none if it is not covered |
| PageMaps.PageMapIter.NextPage | page-tracking/src/page_info.rs:591-607 | successive calls return what the walk over the chunks does and panic where it does; without empty chunks that is the covered pages in order, each once, each with the record that get returns |
| PageMaps.WalkIff | page-tracking/src/page_info.rs:591-607 | from any record on, the walk returns exactly the pages and records that follow if and only if no later chunk is empty |
| PageMaps.EmptyChunkIff | page-tracking/src/page_info.rs:474-528 | a chunk is empty exactly if an empty region lies where there is no memory, with none right before |
| PageMaps.IterExactIff | page-tracking/src/page_info.rs:550-607 | for every memory map in order and every page of it, the iterator from there returns exactly the covered pages from there on with their records if and only if no empty region is isolated behind that page |
| PageMaps.EmptyRegionMisleads | page-tracking/src/page_info.rs:591-607 | two blocks of memory and an empty region in the gap, on which it does not |
| PageMaps.SteadyIff | page-tracking/src/page_info.rs:474-528 | no chunk is empty if and only if no empty region is isolated, and then the first region begins with a page of memory |
| PageMaps.IterFrom | page-tracking/src/page_info.rs:550-552 | an iterator exists exactly for a covered page |
| BootAlloc.AllocDoes | page-tracking/src/page_tracker.rs:562-604 | a range that is handed out is aligned, contiguous and was free; no page becomes free |
| BootAlloc.AllocRecords | page-tracking/src/page_tracker.rs:588-600 | exactly the free pages up to the end of the range get the state asked for and no owner; every other record is unchanged |
| BootAlloc.AllocSomeIff | page-tracking/src/page_tracker.rs:562-604 | a call panics exactly if no aligned range of free pages suits it, and else hands out the lowest |
| BootAlloc.DoAllRecords | page-tracking/src/page_tracker.rs:611-663 | what a run of takes leaves of every record: a page of a range for the host is the host's state page, any other free page up to the end of a range has the state that was asked for and no owner, and the rest are unchanged |
| BootAlloc.DrainSomeIff | page-tracking/src/page_tracker.rs:521-544 | drain panics exactly if no page is left to go on from |
| BootAlloc.LosesTrackIff | page-tracking/src/page_tracker.rs:562-604 | an allocation leaves free pages that the allocator has lost sight of if and only if the first range that suits it ends where a chunk of memory ends and a free page lies behind |
| BootAlloc.SecondChunkLost | page-tracking/src/page_tracker.rs:562-604 | a state the allocator can be in, with two chunks, in which this happens |
| BootAlloc.DoAllDoes | page-tracking/src/page_tracker.rs:611-663 | in any run of takes that does not panic, the ranges are aligned, pairwise disjoint, were free before the run and are not free after it |
| BootAlloc.DrainTakesAll | page-tracking/src/page_tracker.rs:521-544 | drain, if it does not panic, returns exactly the free pages in ascending order and leaves none free |
| BootAlloc.StartsReady | page-tracking/src/page_tracker.rs:506-518 | on a memory map without isolated empty regions, the first free page from the first region on is the lowest free page there is, and there is one exactly if some region is available and not empty |
| BootAlloc.HypPageAlloc.FromMap | page-tracking/src/page_tracker.rs:506-518 | the constructor: it panics exactly if the page map cannot be made, and else gives an allocator that is ready, whose free pages are those of the available regions |
| BootAlloc.HypPageAlloc.AllocPages | page-tracking/src/page_tracker.rs:562-604 | the loops of alloc_pages, in place, including the cases in which it panics |
| BootAlloc.HypPageAlloc.DrainAll | page-tracking/src/page_tracker.rs:521-544 | the loop of drain, in place |
| BootAlloc.HypPageAlloc.NextFreePage | page-tracking/src/page_tracker.rs:669-674 | the first free page from an address on, or none if the address is not in memory |
| HwMemMaps.AddHwMeans | page-tracking/src/hw_mem_map.rs:169-197 | a region that is added, to any map in order, covers pages that none did and changes no other page; the map stays in order, and stays one of non-empty regions if and only if the region is not empty |
| HwMemMaps.AddHwOverlapsIff | page-tracking/src/hw_mem_map.rs:169-197 | in any map in order, a region is refused for overlap exactly if it meets another, begins inside it or has an empty one inside; without empty regions, exactly if one of its pages is covered |
| HwMemMaps.StaysInOrder | page-tracking/src/hw_mem_map.rs:169-289 | whatever is added and reserved, accepted or refused, the regions stay in order of their addresses and do not overlap |
| HwMemMaps.SpacedRuns | page-tracking/src/hw_mem_map.rs:178-195 | the builder accepts region after region with gaps between them until it holds 32, each one more contiguous run |
| HwMemMaps.TooManyRuns | page-tracking/src/page_info.rs:489-497 | a memory map that the builder accepts and that populating a page map panics on |
| HwMemMaps.ReserveOutcomes | page-tracking/src/hw_mem_map.rs:237-289 | a reservation is refused exactly if no available region holds it, or if what that region is cut into does not fit |
| HwMemMaps.ReserveMeans | page-tracking/src/hw_mem_map.rs:237-289 | a successful reservation, in any map in order and of any length, gives its pages the kind, leaves all others, keeps the covered set and the order |
| HwMemMaps.ReserveFails | page-tracking/src/hw_mem_map.rs:237-289 | a failed one changes nothing, or has lost the pages behind the range for want of room |
| HwMemMaps.ReserveLosesIff | page-tracking/src/hw_mem_map.rs:253-288 | a reservation loses pages of the map if and only if something is left behind the range and the list is full once what is in front has been put back |
| HwMemMaps.FullMapLosesPages | page-tracking/src/hw_mem_map.rs:253-288 | a full map on which this happens |
| HwMemMaps.ReserveKeepsOkIff | page-tracking/src/hw_mem_map.rs:237-289 | the map stays one of non-empty regions if and only if the reservation is not empty |
| HwMemMaps.RoundedCoversIff | page-tracking/src/hw_mem_map.rs:357-364 | base and size are rounded separately: the reserved pages hold every byte asked for if and only if the bytes cut off in front are won at the end |
| HwMemMaps.RoundingMisses | page-tracking/src/hw_mem_map.rs:357-364 | two bytes across a page boundary, of which the reservation covers one |
| HwMemMaps.HwMemMap.ReserveRegion | page-tracking/src/hw_mem_map.rs:237-289 | reserve_region in place |
| HwMemMaps.HwMemMap.AddMemoryRegion | page-tracking/src/hw_mem_map.rs:169-197 | add_memory_region in place, with its errors |
| HwMemMaps.HwMemMap.AddMmioRegion | page-tracking/src/hw_mem_map.rs:315-344 | add_mmio_region in place |
| HwMemMaps.HwMemMap.InsertRegion | page-tracking/src/hw_mem_map.rs:178-195 | the loop that finds the place between the others |
| HwMemMaps.HwMemMap.ReservePages | page-tracking/src/hw_mem_map.rs:253-288 | the search and the splitting in place |
| Measurements.RunKeeps | src/guest_tracking.rs:50-59 | in every run the measurement of a page never fails, the page register is the chain of exactly the pages mapped with contents, and from the lock on nothing changes a static register |
| Measurements.RunPages | src/vm_pages.rs:694-713 | which pages a run measures, in order: those added before the call that finalizes the guest, or all if that failed early |
| Measurements.RunRuntime | src/vm.rs:1691-1729 | in every run, the digest of each register 17 to 20 is the chain of exactly the data that the guest, once running, has asked to add to it, in order |
| Measurements.RegistersMean | attestation/src/manager.rs:133-233 | all eight registers after any calls on a new guest |
| Measurements.ExtendDoes | attestation/src/manager.rs:133-145 | a request of the running guest extends the register it names, if that is 17 to 20, and changes no other |
| Measurements.SameDigestSameData | attestation/src/measurement.rs:144-157 | equal digests of such a register have equal data in equal order, or exhibit a weakness of the hash |
| Measurements.DigestsDetermineGuest | attestation/src/manager.rs:133-233 | two running guests, built by any calls, with equal page and configuration digests have the same pages at the same addresses in the same order and the same entry, or exhibit two inputs with one hash or an input that hashes to the initial digest |
| Measurements.HashedIs | attestation/src/measurement.rs:144-157 | what is hashed, byte by byte: digest, the address from its lowest byte on, and contents; for the entry point, digest and each number from its lowest byte on |
| Measurements.SameDigestSamePages | attestation/src/measurement.rs:144-157 | equal chains have equal pages, or exhibit such a weakness of the hash |
| Measurements.SameConfigSameEntry | attestation/src/manager.rs:172-183 | equal configuration digests have equal entry points and arguments, or exhibit one |
| Measurements.AddKeeps | src/vm.rs:1369-1438 | a call that adds pages with contents measures all of them in order, or, if the guest runs or a copy fails, leaves the guest and its registers as they were |
| Measurements.MeasureAllKeeps | src/vm.rs:1421-1435 | the measurements of the pages of one call never fail and extend the chain by exactly these pages |
| Measurements.DeadRun | src/vm.rs:314-329 | after a failure before the lock the guest can never be finalized, and the pages it has are those added |
| Measurements.CanStartIff | src/vm.rs:314-329 | a guest whose registers are not locked can still be finalized by some calls if and only if its boot vCPU has not been powered on |
| Measurements.MeasurementRegister.DoExtend | attestation/src/measurement.rs:144-157 | extend in place: hash of digest, address and data, refused when locked |
| Measurements.MeasurementRegister.DoFinalize | attestation/src/measurement.rs:159-161 | locks a static register and no other |
| Measurements.AttestationManager.ExtendMsmtRegister | attestation/src/manager.rs:133-145 | the search and the extension of one register, with both errors |
| Measurements.AttestationManager.LockRegisters | attestation/src/manager.rs:215-217 | the loop that locks the static registers |
| Measurements.AttestationManager.DoFinalizeAll | attestation/src/manager.rs:212-233 | measures the entry, then locks the static registers |
| Measurements.GuestVm.DoFinalizeGuest | src/vm.rs:314-329 | finalize of a guest, step by step, with what each failure leaves behind |
| Measurements.GuestVm.DoAddMeasured | src/vm.rs:1421-1435 | the loop that measures and maps the pages of one call, only before the guest runs and only if all could be copied |
| Measurements.GuestVm.DoExtendMeasurement | src/vm.rs:1691-1729 | an extension that the running guest asks for: it succeeds exactly for registers 17 to 20, which then hold the hash of the old digest and the data |
| Imsics.AcceptedIff | drivers/src/imsic/geometry.rs:142-171 | new accepts exactly the geometries whose fields fit below 64 bits without overlap at a base with no bits in them |
| Imsics.LocationRoundTrip | drivers/src/imsic/geometry.rs:226-257 | every valid location has an address, without overflow, and it translates back to the location |
| Imsics.AddrRoundTrip | drivers/src/imsic/geometry.rs:237-257 | with at most 32 guest index bits, an address that has a location is the address of that location |
| Imsics.InverseIff | drivers/src/imsic/geometry.rs:226-257 | the two translations are inverse if and only if there are at most 32 guest index bits |
| Imsics.TruncatedFile | drivers/src/imsic/geometry.rs:247-250 | with more, the page of file number 2^32 is taken for that of the supervisor |
| Imsics.RangeHolds | drivers/src/imsic/geometry.rs:260-298 | the range of a group has exactly the pages of the geometry with that group's number, all in the address space |
| Imsics.RangesPartition | drivers/src/imsic/geometry.rs:260-298 | ranges of different groups are disjoint, and each file is in the range of its group only |
| Imsics.GroupRangeIter.NextRange | drivers/src/imsic/geometry.rs:287-304 | the iterator returns the range of each group in turn and then nothing |

## Left out

- Interleavings inside a call: each hypervisor call is one step, as are a version drop or fence and the completion it triggers.
- Pages other than RAM: MMIO, IMSIC and PCI pages, bind, rebind and unbind of vCPUs, and the IOMMU; the ownership results are about RAM.
- U-mode slot mappings: they count as pins.
- Integer limits of counters: versions, reference counts and VMID versions are unbounded. Page counts wrap as in a release build; a debug build panics on the product instead.
- Addresses: the host's memory lies below 2^50, which the Sv48x4 table translates, and addresses of the memory map do not overflow.
- Lifecycle.AddRegionSound: a guest region beyond 2^50, whose pages would use the entries of others, is refused here; the source accepts it.
- Lifecycle.AddRegionDoes: the same.
- Capacities: page-table pool space and room in vectors of pages are answers given to a step (`tables`, `accepted`), not computed; that the region list has room and finds the range is computed in `ListedSystem.dfy`.
- Whole-system state in place: the machine as a whole is modelled on values, as a transition system; single calls and objects are also there in place, but the aliasing between the source's locks and references is not.
- Locked page-table entries: they exist only inside a call, so the transition system has none; locking, mapping and unlocking are modelled in the page table.
- Complete: in the transition system without lists, regions are a type per page and completion goes page by page; with lists it is a sweep over the list, proved to say the same.
- Pins on pages that a guest owns are taken to be held by that guest's vCPUs, which are dropped before its table.
- Guest page numbers are below 2^38 and page numbers of RAM are not zero and below 2^44, as the index and PTE fields demand.
- Huge pages and first-stage (Sv48) tables: the range operations refuse the former, and the latter use the same walk.
- `build_from`: where the page map itself is placed; the map that is built from the regions is modelled.
- `HwMemMap`: alignments other than powers of two.
- Out-of-memory errors of the device tree's vectors, and the tokenizer of the flattened tree: the decoder here is written from the Devicetree Specification.
- `DoRemoveNode`: for nodes that hang in the tree; a node that add_node refused cannot be named by a caller.
- DICE layers, certificates, and how keys are derived: deriving them is taken to succeed, so that nothing is said about a guest whose registers are locked while it is not running.
- DeviceTreeBuild.FromTokens: does not model the errors for names that are not UTF-8; names are bytes here.
- FdtSerializer.RoundTrip: a blob that does not decode is an error here; the source keeps the nodes that came before the error.
- Data for a register at run time: that its size is that of a hash and that it can be read is an answer given to the call (`read`); `data` is the buffer that is hashed, whose size is fixed outside the repository.
- Accessed and dirty bits: the hardware is taken to set them by itself; the hypervisor leaves them clear.
- Measured pages: how far their contents can be copied is an answer given to the call (`copied`), not computed.
- BootAlloc.HypPageAlloc.FromMap: for memory maps without isolated empty regions; what iterating does on the others is `IterExactIff`.
- BootAlloc.StartsReady: likewise.
- BootAlloc.HypPageAlloc.AllocPages: for page maps without empty chunks, likewise.
- BootAlloc.HypPageAlloc.DrainAll: likewise.
- BootAlloc.HypPageAlloc.NextFreePage: likewise.
- Trap handling, register state, CSR and MMIO emulation, PMU, SBI console, ELF loader, allocators: hardware or device behaviour, or only easy members.
