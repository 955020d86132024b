/** The TLBs over whole runs: what is cached stays usable until the vCPU leaves, also when it is stale; what entering an
    address space removes, and what it leaves; and the beginning and the end of VMs. */
module TlbRuns {
  import opened Basics
  import opened PageInfos
  import opened Memory
  import opened MemorySteps
  import opened MemoryRanges
  import opened Hypercalls
  import opened Conversions
  import opened Lifecycle
  import opened Teardown
  import opened System
  import opened SystemSafety
  import opened Theorems
  import opened CpuRuns
  import opened VmIds
  import Tlb = TlbTrackers

  /** Both are inside the same address space, entered in the same way. */
  predicate SameSeat(v: Vcpu, w: Vcpu) {
    v.active && w.active && w.vm == v.vm && w.on == v.on && w.prev == v.prev
  }

  /** vCPU `x` has not left its address space, and what its CPU had cached is still there. */
  ghost predicate Remains(s: Sys, t: Sys, x: nat) {
    x in s.vcpus && s.vcpus[x].active ==>
      && x in t.vcpus && SameSeat(s.vcpus[x], t.vcpus[x])
      && (s.vcpus[x].on in s.cpus ==>
            s.vcpus[x].on in t.cpus && s.cpus[s.vcpus[x].on].tlb <= t.cpus[s.vcpus[x].on].tlb)
  }

  lemma ShareRemains(s: Sys, y: nat, g: nat, n: nat, room: bool, back: bool, x: nat)
    requires ChangeSharing(s, y, g, n, room, back).Some?
    ensures Remains(s, ChangeSharing(s, y, g, n, room, back).value, x)
  {
    hide ShareBegin, UnshareBegin, Populated, Tlb.MinVersion;
  }

  lemma LeaveRemains(s: Sys, y: nat, x: nat)
    requires Leave(s, y).Some? && y != x
    ensures Remains(s, Leave(s, y).value, x)
  {
    hide Tlb.Put, Complete, Tlb.MinVersion;
  }

  lemma FenceRemains(s: Sys, w: OwnerId, x: nat)
    requires Fence(s, w).Some?
    ensures Remains(s, Fence(s, w).value, x)
  {
    hide Tlb.Increment, Complete, Tlb.MinVersion;
  }

  lemma EnterRemains(s: Sys, y: nat, x: nat)
    requires Enter(s, y).Some?
    ensures Remains(s, Enter(s, y).value, x)
  {
    hide PickVmid, FlushVmid;
  }

  lemma CpuRemains(s: Sys, y: nat, w: OwnerId, cpu: nat, gpn: nat, x: nat)
    requires x in s.vcpus && s.vcpus[x].active ==> s.vcpus[x].status == Running
    ensures forall t | t in {AddVcpu(s, y, w), SwitchOn(s, y), SwitchOff(s, y), Claim(s, y, cpu), Unclaim(s, y),
                             FillTlb(s, y, gpn)} ::
              Remains(s, t, x)
  {
    hide Tlb.MinVersion;
  }

  lemma EvictRemains(s: Sys, cpu: nat, other: TlbEntry, x: nat, e: TlbEntry)
    requires x in s.vcpus && s.vcpus[x].active && s.vcpus[x].on in s.cpus && e in s.cpus[s.vcpus[x].on].tlb
    requires cpu != s.vcpus[x].on || other != e
    ensures var t := EvictTlb(s, cpu, other);
            t.vcpus == s.vcpus && s.vcpus[x].on in t.cpus && e in t.cpus[s.vcpus[x].on].tlb
  {
  }

  lemma GuestRemains(s: Sys, w: OwnerId, x: nat)
    requires x in s.vcpus && s.vcpus[x].active ==> s.vcpus[x].status == Running
    ensures AddGuest(s, w).Some? ==> Remains(s, AddGuest(s, w).value, x)
    ensures DestroyVm(s, w).Some? ==> Remains(s, DestroyVm(s, w).value, x)
  {
    hide Destroy, AddVm;
  }

  lemma ServeRemains(s: Sys, r: Request, x: nat)
    requires Serve(s, r).Some?
    ensures Remains(s, Serve(s, r).value, x)
  {
    hide Answer;
  }

  /** What is cached stays, apart from evictions, and so does the vCPU, unless it comes out. */
  lemma StepRemains(s: Sys, step: Step, x: nat)
    requires SysInv(s) && Do(s, step).Some? && step != ComeOut(x) && !step.Evict?
    ensures Remains(s, Do(s, step).value, x)
  {
    hide SysInv, AddGuest, DestroyVm, AddVcpu, SwitchOn, SwitchOff, Claim, Enter, Leave, Unclaim, FillTlb, EvictTlb;
    hide Fence, ChangeSharing, Serve, Remains;
    if x in s.vcpus { ActiveRuns(s, x); }
    match step
    case NewVm(guest) => GuestRemains(s, guest, x);
    case DropVm(guest) => GuestRemains(s, guest, x);
    case NewVcpu(y, w) => CpuRemains(s, y, w, 0, 0, x);
    case PowerOn(y) => CpuRemains(s, y, HOST, 0, 0, x);
    case PowerOff(y) => CpuRemains(s, y, HOST, 0, 0, x);
    case Take(y, cpu) => CpuRemains(s, y, HOST, cpu, 0, x);
    case GoIn(y) => EnterRemains(s, y, x);
    case ComeOut(y) => LeaveRemains(s, y, x);
    case GiveBack(y) => CpuRemains(s, y, HOST, 0, 0, x);
    case Fill(y, gpn) => CpuRemains(s, y, HOST, 0, gpn, x);
    case Shootdown(w) => FenceRemains(s, w, x);
    case ShareMem(y, g, n, room) => ShareRemains(s, y, g, n, room, false, x);
    case UnshareMem(y, g, n, room) => ShareRemains(s, y, g, n, room, true, x);
    case Ask(r) => ServeRemains(s, r, x);
  }

  lemma StepUsable(s: Sys, step: Step, x: nat, e: TlbEntry)
    requires SysInv(s) && Do(s, step).Some? && Usable(s, x, e)
    requires step != ComeOut(x) && step != Evict(s.vcpus[x].on, e)
    ensures Usable(Do(s, step).value, x, e) && Do(s, step).value.vcpus[x].on == s.vcpus[x].on
  {
    hide SysInv, Do;
    if step.Evict? {
      EvictIs(s, step.cpu, step.entry);
      EvictRemains(s, step.cpu, step.entry, x, e);
    } else {
      StepRemains(s, step, x);
    }
  }

  lemma EvictIs(s: Sys, cpu: nat, e: TlbEntry)
    ensures Do(s, Evict(cpu, e)) == Some(EvictTlb(s, cpu, e))
  {
    hide EvictTlb;
  }

  lemma {:induction false} RunUsable(s: Sys, steps: seq<Step>, x: nat, e: TlbEntry)
    requires SysInv(s) && Run(s, steps).Some? && Usable(s, x, e)
    requires ComeOut(x) !in steps && Evict(s.vcpus[x].on, e) !in steps
    ensures Usable(Run(s, steps).value, x, e)
    decreases |steps|
  {
    hide SysInv, Do, Usable;
    if steps != [] {
      UsableAt(s, x, e);
      DoKeeps(s, steps[0]);
      StepUsable(s, steps[0], x, e);
      UsableAt(Do(s, steps[0]).value, x, e);
      RunUsable(Do(s, steps[0]).value, steps[1..], x, e);
    }
  }

  lemma UsableAt(s: Sys, x: nat, e: TlbEntry)
    requires Usable(s, x, e)
    ensures x in s.vcpus && s.vcpus[x].active && s.vcpus[x].prev.Some? && s.vcpus[x].on in s.cpus
  {
  }

  /** Whatever happens, a cached translation can be used on until the vCPU leaves its address space or the hardware
      drops the entry; nothing else takes it away. */
  lemma StaysCached(g: Given, before: seq<Step>, s: Sys, x: nat, e: TlbEntry, steps: seq<Step>, t: Sys)
    requires Reached(g, before, s) && Usable(s, x, e) && Run(s, steps) == Some(t)
    requires ComeOut(x) !in steps && Evict(s.vcpus[x].on, e) !in steps
    ensures Usable(t, x, e)
  {
    hide Reached, SysInv, Run;
    ReachedInv(g, before, s);
    RunUsable(s, steps, x, e);
  }

  /** Every leaf of its VM can be cached for a vCPU. */
  lemma LeafIsCached(g: Given, before: seq<Step>, s: Sys, x: nat, a: nat)
    requires Reached(g, before, s) && x in s.vcpus && s.vcpus[x].active
    requires Key(s.vcpus[x].vm, a) in s.mem.ptes && s.mem.ptes[Key(s.vcpus[x].vm, a)].Leaf?
    ensures s.vcpus[x].prev.Some? && Do(s, Fill(x, a)).Some?
    ensures Usable(Do(s, Fill(x, a)).value, x,
                   TlbEntry(s.vcpus[x].prev.value.id.vmid, a, s.mem.ptes[Key(s.vcpus[x].vm, a)].page))
  {
    hide Reached, SysInv;
    ReachedInv(g, before, s);
    Seated(s, x);
    FillIs(s, x, a);
  }

  lemma FillIs(s: Sys, x: nat, a: nat)
    ensures Do(s, Fill(x, a)) == Some(FillTlb(s, x, a))
  {
    hide FillTlb;
  }

  lemma Seated(s: Sys, x: nat)
    requires SysInv(s) && x in s.vcpus && s.vcpus[x].active
    ensures s.vcpus[x].prev.Some? && s.vcpus[x].on in s.cpus && s.vcpus[x].vm in s.trackers
    ensures s.vcpus[x].status == Running && Tagged(s.vcpus[x], s.vcpus[x].on, s.cpus)
    ensures forall y | y in s.vcpus && s.vcpus[y].active && s.vcpus[y].on == s.vcpus[x].on :: y == x
    ensures s.cpus[s.vcpus[x].on].ids.next < s.cpus[s.vcpus[x].on].ids.count
    ensures s.vcpus[x].prev.value.version <= s.trackers[s.vcpus[x].vm].current.version
  {
    hide MemOk, TrackersOk, TlbOk;
    assert VcpuOk(s.vcpus[x], s.trackers, s.cpus);
  }

  /** So a page that a guest gives up can still be reached by the vCPU that gave it up: its translation is stale,
      and usable until it leaves. This is why the page has to wait. */
  lemma StaleAfterShare(g: Given, before: seq<Step>, s: Sys, x: nat, a: nat, n: nat, room: bool, j: nat, t: Sys)
    requires Reached(g, before, s) && SharesPages(s, x, a, n, room, false) && a <= j < a + n
    requires Key(s.vcpus[x].vm, j) in s.mem.ptes && s.mem.ptes[Key(s.vcpus[x].vm, j)].Leaf?
    requires Run(s, [Fill(x, j), ShareMem(x, a, n, room)]) == Some(t)
    ensures s.vcpus[x].prev.Some?
    ensures var k := Key(s.vcpus[x].vm, j);
            var p := s.mem.ptes[k].page;
            Usable(t, x, TlbEntry(s.vcpus[x].prev.value.id.vmid, j, p)) && Get(t.mem.ptes, k) == Some(Invalidated(p))
  {
    hide Reached, SysInv, SharesPages, Do, Usable;
    ReachedInv(g, before, s);
    SharesAt(s, x, a, n, room, false);
    LeafIsCached(g, before, s, x, j);
    DoKeeps(s, Fill(x, j));
    TwoSteps(s, Fill(x, j), ShareMem(x, a, n, room));
    var e := TlbEntry(s.vcpus[x].prev.value.id.vmid, j, s.mem.ptes[Key(s.vcpus[x].vm, j)].page);
    var s1 := Do(s, Fill(x, j)).value;
    UsableAt(s1, x, e);
    StepUsable(s1, ShareMem(x, a, n, room), x, e);
    FilledSame(s, x, j);
    SharedAt(s, s1, x, a, n, room, j);
  }

  lemma FilledSame(s: Sys, x: nat, a: nat)
    ensures Do(s, Fill(x, a)).Some?
    ensures var t := Do(s, Fill(x, a)).value; t.mem == s.mem && t.trackers == s.trackers && t.vcpus == s.vcpus
  {
  }

  lemma SharedAt(s: Sys, s1: Sys, x: nat, a: nat, n: nat, room: bool, j: nat)
    requires SysInv(s) && SharesPages(s, x, a, n, room, false) && a <= j < a + n && Key(s.vcpus[x].vm, j) in s.mem.ptes
    requires s1.mem == s.mem && s1.trackers == s.trackers && s1.vcpus == s.vcpus
    ensures Do(s1, ShareMem(x, a, n, room)).Some?
    ensures var k := Key(s.vcpus[x].vm, j);
            Get(Do(s1, ShareMem(x, a, n, room)).value.mem.ptes, k) == Some(Invalidated(s.mem.ptes[k].page))
  {
    hide MemInv, ShareBegin, Populated, Tlb.MinVersion, TrackersOk, VcpusOk, OneAtATime, VmidsOk, TlbOk, Unlocked,
         Fresh;
    var vm := s.vcpus[x].vm;
    MinBelow(s, vm);
    ShareBeginDoes(s.mem, vm, a, n, room, Vers(s), j);
  }

  /* ---------------- Entering ---------------- */

  /** A vCPU that leaves and enters again keeps all the translations it had cached if it had entered at the current
      version of its VM, and none if at an older one. */
  lemma ReentryIff(g: Given, before: seq<Step>, s: Sys, x: nat, e: TlbEntry)
    requires Reached(g, before, s) && x in s.vcpus && s.vcpus[x].active
    ensures s.vcpus[x].prev.Some? && s.vcpus[x].vm in s.trackers && Run(s, [ComeOut(x), GoIn(x)]).Some?
    ensures Usable(Run(s, [ComeOut(x), GoIn(x)]).value, x, e) <==>
            Usable(s, x, e) && s.vcpus[x].prev.value.version == s.trackers[s.vcpus[x].vm].current.version
  {
    hide Reached, SysInv, Do, Run;
    ReachedInv(g, before, s);
    Seated(s, x);
    DoKeeps(s, ComeOut(x));
    var s1 := Do(s, ComeOut(x)).value;
    LeftBehind(s, x);
    DoKeeps(s1, GoIn(x));
    TwoSteps(s, ComeOut(x), GoIn(x));
    ReentryAt(s, s1, x, e);
  }

  /** A vCPU that is claimed again on the CPU it was on, too, keeps all its translations or none. */
  lemma ReclaimIff(g: Given, before: seq<Step>, s: Sys, x: nat, e: TlbEntry, t: Sys)
    requires Reached(g, before, s) && x in s.vcpus && s.vcpus[x].active
    requires Run(s, [ComeOut(x), GiveBack(x), Take(x, s.vcpus[x].on), GoIn(x)]) == Some(t)
    requires x in t.vcpus && t.vcpus[x].active
    ensures s.vcpus[x].prev.Some? && s.vcpus[x].vm in s.trackers
    ensures Usable(t, x, e) <==>
            Usable(s, x, e) && s.vcpus[x].prev.value.version == s.trackers[s.vcpus[x].vm].current.version
  {
    hide Reached, SysInv, Do, Run, Usable;
    ReachedInv(g, before, s);
    Seated(s, x);
    var on := s.vcpus[x].on;
    FourSteps(s, ComeOut(x), GiveBack(x), Take(x, on), GoIn(x));
    var s1 := Do(s, ComeOut(x)).value;
    var s2 := Do(s1, GiveBack(x)).value;
    var s3 := Do(s2, Take(x, on)).value;
    LeftBehind(s, x);
    Reclaimed(s, s1, s2, s3, x);
    ReentryAt(s, s3, x, e);
  }

  lemma FourSteps(s: Sys, a: Step, b: Step, c: Step, d: Step)
    requires Run(s, [a, b, c, d]).Some?
    ensures Do(s, a).Some? && Do(Do(s, a).value, b).Some? && Do(Do(Do(s, a).value, b).value, c).Some?
    ensures Run(s, [a, b, c, d]) == Do(Do(Do(Do(s, a).value, b).value, c).value, d)
  {
    hide Do, Run;
    assert [a, b, c, d] == [a] + [b, c, d] && [b, c, d] == [b] + [c, d];
    FirstStep(s, a, [b, c, d]);
    FirstStep(Do(s, a).value, b, [c, d]);
    var s2 := Do(Do(s, a).value, b).value;
    assert [c, d] == [c] + [d];
    FirstStep(s2, c, [d]);
    TwoSteps(s2, c, d);
  }

  lemma Reclaimed(s: Sys, s1: Sys, s2: Sys, s3: Sys, x: nat)
    requires x in s.vcpus && s.vcpus[x].active && s.vcpus[x].vm in s.trackers && s.vcpus[x].status == Running
    requires s.vcpus[x].prev.Some? && s.vcpus[x].prev.value.cpu == s.vcpus[x].on && Gone(s, s1, x)
    requires Do(s1, GiveBack(x)) == Some(s2) && Do(s2, Take(x, s.vcpus[x].on)) == Some(s3) && Do(s3, GoIn(x)).Some?
    requires x in Do(s3, GoIn(x)).value.vcpus && Do(s3, GoIn(x)).value.vcpus[x].active
    ensures Gone(s, s3, x)
  {
    hide Tlb.MinVersion, Tlb.Get, PickVmid, FlushVmid;
  }

  /** The vCPU has left its address space, but could enter it again, with all else but memory as it was. */
  ghost predicate Gone(s: Sys, s1: Sys, x: nat)
    requires x in s.vcpus && s.vcpus[x].vm in s.trackers
  {
    && s1.vcpus.Keys == s.vcpus.Keys && (forall y | y in s.vcpus && y != x :: s1.vcpus[y] == s.vcpus[y])
    && s1.vcpus[x].(next := s.vcpus[x].next) == s.vcpus[x].(active := false)
    && s1.cpus == s.cpus && s1.trackers.Keys == s.trackers.Keys
    && s1.trackers[s.vcpus[x].vm].current.version == s.trackers[s.vcpus[x].vm].current.version
  }

  lemma LeftBehind(s: Sys, x: nat)
    requires SysInv(s) && x in s.vcpus && s.vcpus[x].active && s.vcpus[x].vm in s.trackers && Do(s, ComeOut(x)).Some?
    ensures Gone(s, Do(s, ComeOut(x)).value, x)
  {
    hide MemOk, VcpusOk, OneAtATime, VmidsOk, TlbOk, Tlb.Accounts, Tlb.Put, Tlb.MinVersion, Complete;
    if s.vcpus[x].prev.Some? { Tlb.PutAccounts(s.trackers[s.vcpus[x].vm], Handles(s.vcpus, s.vcpus[x].vm), x); }
  }

  lemma ReentryAt(s: Sys, s1: Sys, x: nat, e: TlbEntry)
    requires x in s.vcpus && s.vcpus[x].active && s.vcpus[x].vm in s.trackers && Gone(s, s1, x)
    requires s.vcpus[x].prev.Some? && s.vcpus[x].on in s.cpus && s.vcpus[x].status == Running
    requires Tagged(s.vcpus[x], s.vcpus[x].on, s.cpus)
    requires forall y | y in s.vcpus && s.vcpus[y].active && s.vcpus[y].on == s.vcpus[x].on :: y == x
    requires s.cpus[s.vcpus[x].on].ids.next < s.cpus[s.vcpus[x].on].ids.count
    requires s.vcpus[x].prev.value.version <= s.trackers[s.vcpus[x].vm].current.version
    requires Do(s1, GoIn(x)).Some?
    ensures Usable(Do(s1, GoIn(x)).value, x, e) <==>
            Usable(s, x, e) && s.vcpus[x].prev.value.version == s.trackers[s.vcpus[x].vm].current.version
  {
    hide Tlb.MinVersion, Tlb.Get;
    assert !Occupied(s1, s1.vcpus[x].on);
  }

  /** Entering an address space leaves alone what other CPUs have cached, and what the same CPU has cached for other
      VMIDs, unless the VMIDs have run out there. */
  lemma EntryKeepsOthers(g: Given, before: seq<Step>, s: Sys, x: nat, c: nat, e: TlbEntry)
    requires Reached(g, before, s) && c in s.cpus && e in s.cpus[c].tlb
    ensures Do(s, GoIn(x)).Some? && c in Do(s, GoIn(x)).value.cpus
    ensures var t := Do(s, GoIn(x)).value;
            t.cpus[c].ids.version == s.cpus[c].ids.version
            && (x in t.vcpus && t.vcpus[x].on == c && t.vcpus[x].prev.Some? ==>
                  e.vmid != t.vcpus[x].prev.value.id.vmid) ==>
              e in t.cpus[c].tlb
  {
    hide Reached, SysInv, Tlb.MinVersion, Do;
    ReachedInv(g, before, s);
    DoKeeps(s, GoIn(x));
    EntryOthers(s, x, c, e);
  }

  lemma EntryOthers(s: Sys, x: nat, c: nat, e: TlbEntry)
    requires c in s.cpus && e in s.cpus[c].tlb && Do(s, GoIn(x)).Some?
    ensures c in Do(s, GoIn(x)).value.cpus
    ensures var t := Do(s, GoIn(x)).value;
            t.cpus[c].ids.version == s.cpus[c].ids.version
            && (x in t.vcpus && t.vcpus[x].on == c && t.vcpus[x].prev.Some? ==>
                  e.vmid != t.vcpus[x].prev.value.id.vmid) ==>
              e in t.cpus[c].tlb
  {
    hide Tlb.MinVersion, Tlb.Get;
  }

  /* ---------------- VMs ---------------- */

  /** A VM can be destroyed exactly if none of its vCPUs is running. Then it is gone with its vCPUs, its table and its
      regions, it owns no page, and no other vCPU has changed. */
  lemma DropVmIff(g: Given, before: seq<Step>, s: Sys, guest: OwnerId)
    requires Reached(g, before, s) && guest in s.trackers && guest != HOST
    ensures Do(s, DropVm(guest)).Some?
    ensures var t := Do(s, DropVm(guest)).value;
            if exists x | x in s.vcpus :: s.vcpus[x].vm == guest && s.vcpus[x].status == Running then t == s
            else
              && guest !in t.trackers && guest !in t.mem.vms
              && (forall k: Key | k.vm == guest :: k !in t.mem.ptes && k !in t.mem.regions)
              && (forall p | p in t.mem.pages :: guest !in t.mem.pages[p].owners)
              && (forall x :: Get(t.vcpus, x) == if x in s.vcpus && s.vcpus[x].vm != guest then Some(s.vcpus[x])
                              else None)
  {
    hide Reached, SysInv, MemInv, Do, Unlocked, Fresh, Destroyed;
    ReachedInv(g, before, s);
    DoKeeps(s, DropVm(guest));
    InvMem(s);
    SameVms(s, guest);
    DropIs(s, guest);
    var t := Do(s, DropVm(guest)).value;
    if !exists x | x in s.vcpus :: s.vcpus[x].vm == guest && s.vcpus[x].status == Running {
      DestroyKeeps(s.mem, guest, Vers(s));
      InvMem(t);
      FreshVm(t.mem, guest);
      WithoutGuest(s.mem, t.mem, guest);
      forall p | p in t.mem.pages ensures guest !in t.mem.pages[p].owners { PageAt(t.mem, p); }
    }
  }

  lemma WithoutGuest(m: Mem, n: Mem, guest: OwnerId)
    requires Destroyed(m, n, guest)
    ensures guest !in n.vms
  {
  }

  lemma SameVms(s: Sys, vm: OwnerId)
    requires SysInv(s)
    ensures vm in s.trackers <==> vm in s.mem.vms
  {
    hide MemInv, Unlocked, TrackersOk, VcpusOk, OneAtATime, VmidsOk, TlbOk, Tlb.MinVersion;
    assert Vers(s).Keys == s.trackers.Keys;
  }

  lemma DropIs(s: Sys, guest: OwnerId)
    requires guest in s.trackers && guest in s.mem.vms && guest != HOST && Do(s, DropVm(guest)).Some?
    ensures var t := Do(s, DropVm(guest)).value;
            if exists x | x in s.vcpus :: s.vcpus[x].vm == guest && s.vcpus[x].status == Running then t == s
            else
              && Destroy(s.mem, guest) == Some(t.mem) && guest !in t.trackers
              && (forall x :: Get(t.vcpus, x) == if x in s.vcpus && s.vcpus[x].vm != guest then Some(s.vcpus[x])
                              else None)
  {
    hide Destroy;
  }

  /** A VM can be made exactly with an identifier that no other has. It starts with nothing: no vCPUs, no regions, no
      pages. */
  lemma NewVmIff(g: Given, before: seq<Step>, s: Sys, guest: OwnerId)
    requires Reached(g, before, s)
    ensures Do(s, NewVm(guest)).Some?
    ensures var t := Do(s, NewVm(guest)).value;
            if guest == HYPERVISOR || guest in s.trackers then t == s
            else
              && t.trackers == s.trackers[guest := Tlb.INITIAL] && t.vcpus == s.vcpus
              && t.mem == s.mem.(vms := s.mem.vms + {guest})
              && (forall k: Key | k.vm == guest :: k !in t.mem.ptes && k !in t.mem.regions)
              && (forall p | p in t.mem.pages :: guest !in t.mem.pages[p].owners)
              && (forall x | x in t.vcpus :: t.vcpus[x].vm != guest)
  {
    hide Reached, SysInv, MemInv, Do, Unlocked, Fresh;
    ReachedInv(g, before, s);
    DoKeeps(s, NewVm(guest));
    InvMem(s);
    SameVms(s, guest);
    NewIs(s, guest);
    FreshVm(s.mem, guest);
    if guest !in s.trackers {
      forall p | p in s.mem.pages ensures guest == HYPERVISOR || guest !in s.mem.pages[p].owners {
        PageAt(s.mem, p);
        RegionKeys(s.mem);
      }
      forall x | x in s.vcpus ensures s.vcpus[x].vm != guest { ActiveIn(s, x); }
    }
  }

  lemma NewIs(s: Sys, guest: OwnerId)
    requires Do(s, NewVm(guest)).Some?
    ensures var t := Do(s, NewVm(guest)).value;
            if guest == HYPERVISOR || guest in s.mem.vms then t == s
            else t == s.(mem := s.mem.(vms := s.mem.vms + {guest}), trackers := s.trackers[guest := Tlb.INITIAL])
  {
  }
}
