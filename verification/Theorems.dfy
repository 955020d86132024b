/** What holds after every run of the machine, started at boot with any layout of the host's memory and any
    contents of the TLBs. */
module Theorems {
  import opened Basics
  import opened PageInfos
  import opened Memory
  import opened MemorySteps
  import opened MemoryRanges
  import opened Hypercalls
  import opened Conversions
  import opened Lifecycle
  import opened System
  import opened SystemSafety
  import Tlb = TlbTrackers

  /** What the machine is given at boot: where the host's pages go, which pages the hypervisor keeps, and
      the CPUs. */
  datatype Given = Given(layout: map<nat, nat>, kept: map<nat, Info>, cpus: Cpus)

  predicate Sensible(g: Given) {
    && (forall a | a in g.layout :: a < LIMIT)
    && (forall a, b | a in g.layout && b in g.layout && g.layout[a] == g.layout[b] :: a == b)
    && (forall p | p in g.kept :: KeptAtBoot(g.kept[p]))
    && (forall c | c in g.cpus :: g.cpus[c].ids.next == 0 && g.cpus[c].ids.version == 0 && g.cpus[c].ids.count > 0)
  }

  ghost function Start(g: Given): (s: Sys) {
    Sys(Boot(g.layout, g.kept), map[HOST := Tlb.INITIAL], map[], g.cpus)
  }

  lemma StartInv(g: Given)
    requires Sensible(g)
    ensures SysInv(Start(g))
  {
    hide MemInv, Fresh, Unlocked, Boot, Tlb.Accounts;
    var s := Start(g);
    BootInv(g.layout, g.kept, Vers(s));
    assert Handles(s.vcpus, HOST) == map[];
    InitialAccounts();
  }

  /** At boot the host has exactly the pages of its layout, mapped where the layout says and its own; every other
      page is as it was left; there are no guests and no vCPUs. */
  lemma StartMaps(g: Given, a: nat, p: nat)
    ensures var s := Start(g);
            && s.trackers.Keys == {HOST} && s.mem.vms == {HOST} && s.vcpus == map[] && s.cpus == g.cpus
            && Get(s.mem.ptes, Key(HOST, a)) == (if a in g.layout then Some(Leaf(g.layout[a])) else None)
            && Get(s.mem.regions, Key(HOST, a)) == (if a in g.layout then Some(Confidential) else None)
            && (forall k | k in s.mem.ptes || k in s.mem.regions :: k.vm == HOST)
            && (a in g.layout ==> Get(s.mem.pages, g.layout[a]) == Some(Info(Ram, Mapped, [HOST])))
            && (p !in g.layout.Values ==> Get(s.mem.pages, p) == Get(g.kept, p))
  {
    assert Key(HOST, a) in HostKeys(g.layout) <==> a in g.layout;
    if a in g.layout { assert g.layout[a] in g.layout.Values; }
  }

  /** The hypervisor meets an error that it does not handle if and only if a VM makes a fatal request. */
  lemma PanicsIff(g: Given, steps: seq<Step>)
    requires Sensible(g)
    ensures Run(Start(g), steps).None? <==> exists i: nat | i < |steps| :: FatalAt(Start(g), steps, i)
  {
    hide SysInv, Do, FatalAt;
    StartInv(g);
    RunPanicsIff(Start(g), steps);
  }

  /** So whatever the VMs do, in whatever order, it does not, as long as they see to it that the ranges they ask for do
      not go beyond what their tables translate. */
  lemma NeverPanics(g: Given, steps: seq<Step>)
    requires Sensible(g) && forall i | 0 <= i < |steps| && steps[i].Ask? :: Modest(steps[i].request)
    ensures Run(Start(g), steps).Some?
  {
    hide SysInv, Do, Modest, Fatal;
    PanicsIff(g, steps);
    if i: nat :| i < |steps| && FatalAt(Start(g), steps, i) {
      var s := Run(Start(g), steps[..i]).value;
      ModestIsFine(s.mem, Vers(s), steps[i].request);
    }
  }

  /** In every state that the machine can get into, one request suffices: 2^52 pages to reclaim, at any address. */
  lemma OneRequestPanics(g: Given, steps: seq<Step>, s: Sys, vm: OwnerId, a: nat)
    requires Reached(g, steps, s) && vm in s.trackers && a < PAGE_LIMIT
    ensures Do(s, Ask(AskReclaim(vm, a, PAGE_LIMIT))) == None
  {
    hide Reached, SysInv, MemInv;
    ReachedInv(g, steps, s);
    InvMem(s);
    ReclaimPanics(s.mem, vm, a, Vers(s)[vm].min);
  }

  ghost predicate Reached(g: Given, steps: seq<Step>, s: Sys) {
    Sensible(g) && Run(Start(g), steps) == Some(s)
  }

  lemma ReachedInv(g: Given, steps: seq<Step>, s: Sys)
    requires Reached(g, steps, s)
    ensures SysInv(s)
  {
    StartInv(g);
    RunKeeps(Start(g), steps);
  }

  /* ---------------- What a running vCPU can reach ---------------- */

  /** The TLB entry can translate an access by vCPU `x` now. */
  predicate Usable(s: Sys, x: nat, e: TlbEntry) {
    && x in s.vcpus && s.vcpus[x].active && s.vcpus[x].prev.Some? && s.vcpus[x].on in s.cpus
    && e in s.cpus[s.vcpus[x].on].tlb && e.vmid == s.vcpus[x].prev.value.id.vmid
  }

  /** The page is being taken away from guest page `k`, and this began at version `min` or later. */
  predicate Pending(m: Mem, k: Key, p: nat, min: nat) {
    && k in m.ptes && k in m.regions && p in m.pages && m.ptes[k] == Invalidated(p)
    && (|| (Owner(m.pages[p]) == Some(k.vm) && (m.pages[p].state.Converting? || m.pages[p].state.Unassigning?)
            && m.pages[p].state.version >= min)
        || (m.pages[p].state.Shared? && m.regions[k].Unsharing? && m.regions[k].version >= min))
  }

  /** A cached translation that a running vCPU can use is the present one, or its page is still pending at a
      version that is not yet out of use. */
  lemma TlbSafety(g: Given, steps: seq<Step>, s: Sys, x: nat, e: TlbEntry)
    requires Reached(g, steps, s) && Usable(s, x, e)
    ensures s.vcpus[x].vm in s.trackers
    ensures var k := Key(s.vcpus[x].vm, e.gpn);
            || (k in s.mem.ptes && s.mem.ptes[k] == Leaf(e.page))
            || Pending(s.mem, k, e.page, Tlb.MinVersion(s.trackers[k.vm]))
  {
    hide MemInv, Tlb.MinVersion, Reached;
    UsableCovers(g, steps, s, x, e);
    EntryAt(s.mem, Key(s.vcpus[x].vm, e.gpn));
  }

  lemma UsableCovers(g: Given, steps: seq<Step>, s: Sys, x: nat, e: TlbEntry)
    requires Reached(g, steps, s) && Usable(s, x, e)
    ensures MemInv(s.mem) && s.vcpus[x].vm in s.trackers
    ensures Tlb.MinVersion(s.trackers[s.vcpus[x].vm]) <= s.vcpus[x].prev.value.version
    ensures Covers(s.mem, Key(s.vcpus[x].vm, e.gpn), e.page, s.vcpus[x].prev.value.version)
  {
    hide MemInv, Unlocked, Fresh, Covers, Reached, Tlb.MinVersion, Tlb.Accounts;
    ReachedInv(g, steps, s);
    var v := s.vcpus[x];
    VcpuAt(s, x);
    var h := Handles(s.vcpus, v.vm);
    Tlb.MinVersionIsLeast(s.trackers[v.vm], h);
    assert x in h;
    assert Tagged(v, v.on, s.cpus) && Safe(s.mem, s.trackers, v, e);
  }

  /** No running vCPU can reach a page that has been taken away from it: one that is Converted, locked for
      another use, holds a VM's state, or belongs to another VM that has not shared it. */
  lemma NoReachToOthersPages(g: Given, steps: seq<Step>, s: Sys, x: nat, e: TlbEntry)
    requires Reached(g, steps, s) && Usable(s, x, e)
    ensures e.page in s.mem.pages
    ensures var i := s.mem.pages[e.page];
            && !i.state.Converted? && !i.state.ConvertedLocked? && !i.state.VmState? && !i.state.Free?
            && (Owner(i) != Some(s.vcpus[x].vm) ==> s.vcpus[x].vm != HOST && i.owners == [HOST] && i.state.Shared?)
  {
    hide MemInv, Covers, Reached;
    UsableCovers(g, steps, s, x, e);
    CoveredPage(s.mem, Key(s.vcpus[x].vm, e.gpn), e.page, s.vcpus[x].prev.value.version);
  }

  /* ---------------- Isolation ---------------- */

  /** A Mapped page is a valid leaf in exactly one table, at one address: its owner's. */
  lemma MappedOnce(g: Given, steps: seq<Step>, s: Sys, p: nat) returns (k: Key)
    requires Reached(g, steps, s) && p in s.mem.pages && s.mem.pages[p].state.Mapped?
    ensures k in s.mem.ptes && s.mem.ptes[k] == Leaf(p) && Owner(s.mem.pages[p]) == Some(k.vm)
    ensures forall l | l in s.mem.ptes && s.mem.ptes[l] == Leaf(p) :: l == k
  {
    hide Reached, SysInv;
    ReachedInv(g, steps, s);
    InvMem(s);
    k := NamedByOwner(s.mem, p);
  }

  lemma InvMem(s: Sys)
    requires SysInv(s)
    ensures MemInv(s.mem) && Unlocked(s.mem) && Fresh(s.mem, Vers(s))
  {
  }

  lemma NamedByOwner(m: Mem, p: nat) returns (k: Key)
    requires MemInv(m) && p in m.pages && m.pages[p].state.Mapped?
    ensures k in m.ptes && m.ptes[k] == Leaf(p) && Owner(m.pages[p]) == Some(k.vm)
    ensures forall l | l in m.ptes && m.ptes[l] == Leaf(p) :: l == k
  {
    PageAt(m, p);
    var vm := m.pages[p].owners[|m.pages[p].owners| - 1];
    assert MustName(m.pages[p], vm) && Names(m, vm, p);
    var a :| Key(vm, a) in m.ptes && m.ptes[Key(vm, a)].page == p;
    k := Key(vm, a);
    EntryAt(m, k);
    forall l | l in m.ptes && m.ptes[l] == Leaf(p) ensures l == k {
      EntryAt(m, l);
    }
  }

  /** A valid leaf in the table of a VM that does not own the page is a page the host shares. */
  lemma ForeignLeafIsShared(g: Given, steps: seq<Step>, s: Sys, k: Key)
    requires Reached(g, steps, s) && k in s.mem.ptes && s.mem.ptes[k].Leaf?
    ensures s.mem.ptes[k].page in s.mem.pages
    ensures var i := s.mem.pages[s.mem.ptes[k].page];
            if Owner(i) == Some(k.vm) then i.state.Mapped? || i.state.Shared?
            else k.vm != HOST && i.owners == [HOST] && i.state.Shared? && k in s.mem.regions
                 && s.mem.regions[k] == SharedRegion
  {
    hide Reached, SysInv;
    ReachedInv(g, steps, s);
    InvMem(s);
    EntryAt(s.mem, k);
  }

  /** A page that the host has converted, is converting, or has given to a guest appears in the host's table
      once, as an entry that is not valid. */
  lemma LentPagesAreInvalid(g: Given, steps: seq<Step>, s: Sys, p: nat) returns (k: Key)
    requires Reached(g, steps, s) && p in s.mem.pages
    requires var i := s.mem.pages[p]; |i.owners| == 2
                                      || (|i.owners| == 1 && (i.state.Converting? || i.state.Converted?))
    ensures k.vm == HOST && k in s.mem.ptes && s.mem.ptes[k] == Invalidated(p)
    ensures forall l | l in s.mem.ptes && l.vm == HOST && s.mem.ptes[l].page == p :: l == k
  {
    hide Reached, SysInv;
    ReachedInv(g, steps, s);
    InvMem(s);
    k := NamedByHost(s.mem, p);
  }

  lemma NamedByHost(m: Mem, p: nat) returns (k: Key)
    requires MemInv(m) && p in m.pages
    requires var i := m.pages[p]; |i.owners| == 2 || (|i.owners| == 1 && (i.state.Converting? || i.state.Converted?))
    ensures k.vm == HOST && k in m.ptes && m.ptes[k] == Invalidated(p)
    ensures forall l | l in m.ptes && l.vm == HOST && m.ptes[l].page == p :: l == k
  {
    PageAt(m, p);
    assert MustName(m.pages[p], HOST) && Names(m, HOST, p);
    var a :| Key(HOST, a) in m.ptes && m.ptes[Key(HOST, a)].page == p;
    k := Key(HOST, a);
    EntryAt(m, k);
  }

  /* ---------------- Reference counts ---------------- */

  /** A page is shared exactly as often as guests refer to it and the hypervisor has it pinned. */
  lemma RefCountsExact(g: Given, steps: seq<Step>, s: Sys, p: nat)
    requires Reached(g, steps, s) && p in s.mem.pages
    ensures RefCount(s.mem.pages[p].state) == |ChildRefs(s.mem, p)| + s.mem.pins[p]
    ensures s.mem.pages[p].state.Shared? <==> |ChildRefs(s.mem, p)| + s.mem.pins[p] > 0
  {
    hide Reached, SysInv;
    ReachedInv(g, steps, s);
    InvMem(s);
    CountAt(s.mem, p);
    PageAt(s.mem, p);
  }

  /** While anything refers to the page, neither the host can convert it nor a guest give it up. */
  lemma ReferencedPagesStay(g: Given, steps: seq<Step>, s: Sys, k: Key, i: nat, a: nat, n: nat, room: bool, cur: nat)
    requires Reached(g, steps, s) && k in s.mem.ptes && k == At(k.vm, i) && a <= i < a + Wrapped(n)
    requires s.mem.ptes[k].page in s.mem.pages
             && |ChildRefs(s.mem, s.mem.ptes[k].page)| + s.mem.pins[s.mem.ptes[k].page] > 0
    ensures ConvertPages(s.mem, k.vm, a, n, cur) == Failed(s.mem)
    ensures i < LIMIT ==> ShareBegin(s.mem, k.vm, a, n, cur, room) == Failed(s.mem)
  {
    hide Reached, Wrapped;
    RefCountsExact(g, steps, s, s.mem.ptes[k].page);
    assert !Convertible(s.mem, At(k.vm, i));
    if i < LIMIT { assert !Withdrawable(s.mem, Key(k.vm, i)); }
  }

  /* ---------------- Pending conversions ---------------- */

  /** No conversion is pending from before the oldest version in use. */
  lemma NothingOverdue(g: Given, steps: seq<Step>, s: Sys, k: Key)
    requires Reached(g, steps, s) && k in s.mem.regions
    ensures k.vm in s.trackers && !Overdue(s.mem, k, Tlb.MinVersion(s.trackers[k.vm]))
  {
    hide Reached, SysInv, MemInv;
    ReachedInv(g, steps, s);
    InvMem(s);
    RegionKeys(s.mem);
  }

  /** A vCPU that was blocked until version `b` can run again only when every conversion that began before
      `b` is complete. */
  lemma BlockedUntilComplete(g: Given, steps: seq<Step>, s: Sys, x: nat, cpu: nat, k: Key)
    requires Reached(g, steps, s) && x in s.vcpus && s.vcpus[x].status.Blocked?
    requires x in Claim(s, x, cpu).vcpus && Claim(s, x, cpu).vcpus[x].status == Running
    requires k in s.mem.regions && k.vm == s.vcpus[x].vm
    ensures !Overdue(s.mem, k, s.vcpus[x].status.version)
  {
    hide Reached;
    NothingOverdue(g, steps, s, k);
  }

  /** A vCPU whose call has to wait is blocked until the version at which its conversion is not pending any more:
      with BlockedUntilComplete, it runs again only when the conversion is complete. */
  lemma SharerIsBlocked(g: Given, steps: seq<Step>, s: Sys, x: nat, a: nat, n: nat, room: bool, back: bool, j: nat)
    requires Reached(g, steps, s) && x in s.vcpus && s.vcpus[x].active && s.vcpus[x].vm in s.trackers
    requires var vm, cur := s.vcpus[x].vm, s.trackers[s.vcpus[x].vm].current.version;
             if back then UnshareBegin(s.mem, vm, a, n, cur, room).Done?
                else ShareBegin(s.mem, vm, a, n, cur, room).Done?
    requires Populated(s.mem, s.vcpus[x].vm, a, n) && a <= j < a + n
    ensures ChangeSharing(s, x, a, n, room, back).Some?
    ensures var s1, cur := ChangeSharing(s, x, a, n, room, back).value, s.trackers[s.vcpus[x].vm].current.version;
            && s1.vcpus == s.vcpus[x := s.vcpus[x].(next := Blocked(cur + 1))]
            && Overdue(s1.mem, Key(s.vcpus[x].vm, j), cur + 1)
  {
    hide Reached, SysInv, MemInv, ShareBegin, UnshareBegin, Populated, TrackersOk, Fresh;
    ReachedInv(g, steps, s);
    InvMem(s);
    TrackersAt(s);
    MinAtMostCurrent(s, s.vcpus[x].vm);
    PendingAfter(s.mem, s.vcpus[x].vm, a, n, room, back, Vers(s), j);
  }

  lemma PendingAfter(m: Mem, vm: OwnerId, a: nat, n: nat, room: bool, back: bool, vers: Versions, j: nat)
    requires MemInv(m) && Fresh(m, vers) && vm in vers && vers[vm].min <= vers[vm].cur && a <= j < a + n
             && Populated(m, vm, a, n)
    requires if back then UnshareBegin(m, vm, a, n, vers[vm].cur, room).Done?
             else ShareBegin(m, vm, a, n, vers[vm].cur, room).Done?
    ensures var c := if back then UnshareBegin(m, vm, a, n, vers[vm].cur, room)
            else ShareBegin(m, vm, a, n, vers[vm].cur, room);
            Overdue(c.mem, Key(vm, j), vers[vm].cur + 1)
  {
    hide MemInv, ShareBegin, UnshareBegin, Populated, Fresh;
    if back {
      UnshareBeginDoes(m, vm, a, n, room, vers, j);
    } else {
      ShareBeginDoes(m, vm, a, n, room, vers, j);
    }
  }

  lemma TrackersAt(s: Sys)
    requires SysInv(s)
    ensures TrackersOk(s.trackers, s.vcpus)
  {
  }

  lemma TrackerAt(s: Sys, vm: OwnerId)
    requires SysInv(s) && vm in s.trackers
    ensures Tlb.Accounts(s.trackers[vm], Handles(s.vcpus, vm))
  {
  }

  /** Once every vCPU of a VM that is inside its address space has entered after version `v`, the shootdown of `v`
      is over: no conversion from `v` or before is pending, and a page that the host was converting can be used. */
  lemma ShootdownOver(g: Given, steps: seq<Step>, s: Sys, vm: OwnerId, v: nat, k: Key)
    requires Reached(g, steps, s) && vm in s.trackers && v < s.trackers[vm].current.version && k.vm == vm
    requires forall x | x in s.vcpus && s.vcpus[x].vm == vm && s.vcpus[x].active && s.vcpus[x].prev.Some? ::
             v < s.vcpus[x].prev.value.version
    ensures v < Tlb.MinVersion(s.trackers[vm])
    ensures k in s.mem.regions ==> !Overdue(s.mem, k, v + 1)
    ensures vm == HOST && k in s.mem.ptes && s.mem.ptes[k].page in s.mem.pages
            && s.mem.pages[s.mem.ptes[k].page].owners == [HOST]
            && s.mem.pages[s.mem.ptes[k].page].state.Converting?
               && s.mem.pages[s.mem.ptes[k].page].state.version <= v ==>
              Lockable(s.mem, k, Tlb.MinVersion(s.trackers[vm]))
  {
    hide Reached, SysInv, MemInv, Tlb.MinVersion, Tlb.Accounts;
    ReachedInv(g, steps, s);
    InvMem(s);
    TrackerAt(s, vm);
    Tlb.MinVersionIsLeast(s.trackers[vm], Handles(s.vcpus, vm));
    if k in s.mem.regions { NothingOverdue(g, steps, s, k); }
    if k in s.mem.ptes { EntryAt(s.mem, k); }
  }

  /** A fence that is not refused starts a new version. */
  lemma FenceAdvances(s: Sys, vm: OwnerId)
    requires SysInv(s) && vm in s.trackers && Do(s, Shootdown(vm)).Some?
    ensures var s1 := Do(s, Shootdown(vm)).value;
            if exists x | x in Handles(s.vcpus, vm) ::
                 Handles(s.vcpus, vm)[x] < s.trackers[vm].current.version then s1 == s
            else vm in s1.trackers && s1.trackers[vm].current.version == s.trackers[vm].current.version + 1
                 && s1.vcpus == s.vcpus
  {
    hide SysInv, MemInv, Complete;
    TrackerAt(s, vm);
    Tlb.FenceRefused(s.trackers[vm], Handles(s.vcpus, vm));
  }
}
