/** The way of a page through the machine: the host converts it, gives it to a guest and gets it back; and a guest gives
    pages up by sharing. In between, any vCPUs may come and go, and any VMs may fence. */
module Lending {
  import opened Basics
  import opened PageInfos
  import opened Memory
  import opened MemorySteps
  import opened MemoryRanges
  import opened Hypercalls
  import opened Conversions
  import opened CallOutcomes
  import opened Lifecycle
  import opened Teardown
  import opened System
  import opened SystemSafety
  import opened Theorems
  import opened ListedSystem
  import opened CpuRuns
  import opened TlbRuns
  import Tlb = TlbTrackers

  /** Steps of vCPUs and of the hardware, and fences: no call that works on memory. */
  predicate Calm(step: Step) {
    !step.NewVm? && !step.DropVm? && !step.Ask? && !step.ShareMem? && !step.UnshareMem?
  }

  predicate AllCalm(steps: seq<Step>) {
    forall i | 0 <= i < |steps| :: Calm(steps[i])
  }

  /** Memory is as it was, or some conversions that were due have been completed. */
  ghost predicate Calmed(m: Mem, o: Mem) {
    o == m || exists vm, min :: Completed(m, o, Due(m, vm, min))
  }

  lemma CalmStep(s: Sys, step: Step)
    requires SysInv(s) && Do(s, step).Some? && Calm(step)
    ensures Calmed(s.mem, Do(s, step).value.mem)
  {
    hide SysInv, Completed, Ends, Tlb.MinVersion;
    if step.ComeOut? || step.Shootdown? {
      hide Do;
      EndsMem(s, step);
    } else {
      CalmMem(s, step);
    }
  }

  lemma CalmMem(s: Sys, step: Step)
    requires Do(s, step).Some? && Calm(step) && !step.ComeOut? && !step.Shootdown?
    ensures Do(s, step).value.mem == s.mem
  {
    hide PickVmid, FlushVmid, Tlb.MinVersion, Tlb.Get;
  }

  /* ---------------- Converted pages wait ---------------- */

  /** The host has begun to convert page `p`, mapped at `k`, at version `v`. */
  predicate Awaits(m: Mem, k: Key, p: nat, v: nat) {
    k.vm == HOST && Get(m.ptes, k) == Some(Invalidated(p)) && Get(m.pages, p) == Some(Info(Ram, Converting(v), [HOST]))
  }

  lemma CalmedAwaits(m: Mem, o: Mem, k: Key, p: nat, v: nat)
    requires MemInv(m) && Calmed(m, o) && Awaits(m, k, p, v)
    ensures Awaits(o, k, p, v)
  {
    hide MemInv;
    EntryAt(m, k);
    if o != m {
      var vm, min :| Completed(m, o, Due(m, vm, min));
      forall l | l in Due(m, vm, min) && l in m.ptes ensures m.ptes[l].page != p { EntryAt(m, l); }
      assert !NamedBy(m, Due(m, vm, min), p);
    }
  }

  lemma {:induction false} RunAwaits(s: Sys, steps: seq<Step>, k: Key, p: nat, v: nat)
    requires SysInv(s) && Run(s, steps).Some? && AllCalm(steps) && Awaits(s.mem, k, p, v)
    ensures Awaits(Run(s, steps).value.mem, k, p, v)
    decreases |steps|
  {
    hide SysInv, Do, Awaits, Calmed, MemInv, Calm;
    if steps != [] {
      DoKeeps(s, steps[0]);
      InvMem(s);
      CalmStep(s, steps[0]);
      CalmedAwaits(s.mem, Do(s, steps[0]).value.mem, k, p, v);
      RunAwaits(Do(s, steps[0]).value, steps[1..], k, p, v);
    }
  }

  /** What the host has at its page `i`. */
  function HostPage(s: Sys, i: nat): (p: nat)
    requires Key(HOST, i) in s.mem.ptes
  {
    s.mem.ptes[Key(HOST, i)].page
  }

  /** Once the version at which the host converted pages is out of use, whatever its vCPUs and those of others have
      done to get there, all of the pages can be given away. */
  lemma ConvertedThenUsable(g: Given, before: seq<Step>, s: Sys, a: nat, n: nat, mid: seq<Step>, t: Sys)
    requires Reached(g, before, s) && n > 0 && a + n <= LIMIT
    requires forall i | a <= i < a + n :: OwnLeaf(s.mem, Key(HOST, i), 1)
    requires Run(s, [Ask(AskConvert(HOST, a, n))] + mid) == Some(t) && AllCalm(mid)
    ensures HOST in s.trackers && HOST in t.trackers && SysInv(t)
    ensures var v := s.trackers[HOST].current.version;
            && (forall i | a <= i < a + n ::
                  Key(HOST, i) in s.mem.ptes && Awaits(t.mem, Key(HOST, i), HostPage(s, i), v))
            && (v < Tlb.MinVersion(t.trackers[HOST]) ==>
                  forall i | a <= i < a + n :: Lockable(t.mem, Key(HOST, i), Tlb.MinVersion(t.trackers[HOST])))
  {
    hide Reached, SysInv, MemInv, Do, Run, OwnLeaf, Tlb.MinVersion, AllCalm, Unlocked, Fresh, Awaits, Lockable;
    ReachedInv(g, before, s);
    InvMem(s);
    HostKnown(s);
    FirstStep(s, Ask(AskConvert(HOST, a, n)), mid);
    DoKeeps(s, Ask(AskConvert(HOST, a, n)));
    var s1 := Do(s, Ask(AskConvert(HOST, a, n))).value;
    RunKeeps(s1, mid);
    HostKnown(t);
    var v := s.trackers[HOST].current.version;
    forall i | a <= i < a + n
      ensures Key(HOST, i) in s.mem.ptes && Awaits(t.mem, Key(HOST, i), HostPage(s, i), v)
              && (v < Tlb.MinVersion(t.trackers[HOST]) ==>
                    Lockable(t.mem, Key(HOST, i), Tlb.MinVersion(t.trackers[HOST])))
    {
      ConvertedIn(s, a, n, i);
      RunAwaits(s1, mid, Key(HOST, i), HostPage(s, i), v);
      AwaitsLockable(t.mem, Key(HOST, i), HostPage(s, i), v, Tlb.MinVersion(t.trackers[HOST]));
    }
  }

  lemma HostKnown(s: Sys)
    requires SysInv(s)
    ensures HOST in s.trackers && HOST in s.mem.vms
  {
    hide Unlocked, TrackersOk, VcpusOk, OneAtATime, VmidsOk, TlbOk, EntriesOk, NamedOnce, NamedAtAll, Counted,
         Tlb.MinVersion;
    assert Vers(s).Keys == s.trackers.Keys;
  }

  lemma AwaitsLockable(m: Mem, k: Key, p: nat, v: nat, min: nat)
    requires Awaits(m, k, p, v)
    ensures v < min ==> Lockable(m, k, min)
  {
  }

  lemma ConvertedIn(s: Sys, a: nat, n: nat, i: nat)
    requires SysInv(s) && n > 0 && a + n <= LIMIT && a <= i < a + n && HOST in s.trackers
    requires forall j | a <= j < a + n :: OwnLeaf(s.mem, Key(HOST, j), 1)
    requires Do(s, Ask(AskConvert(HOST, a, n))).Some?
    ensures Key(HOST, i) in s.mem.ptes
    ensures Awaits(Do(s, Ask(AskConvert(HOST, a, n))).value.mem, Key(HOST, i), HostPage(s, i),
                   s.trackers[HOST].current.version)
  {
    hide SysInv, MemInv, OwnLeaf, ConvertPages, Unlocked, Fresh, At, Do, Tlb.MinVersion;
    InvMem(s);
    forall j | a <= j < a + n ensures At(HOST, j) == Key(HOST, j) { Straight(HOST, j); }
    ConvertPagesDoneIff(s.mem, HOST, a, n, Vers(s));
    ConvertPagesDoes(s.mem, a, n, Vers(s), i);
    AskIs(s, AskConvert(HOST, a, n));
  }

  lemma Straight(vm: OwnerId, j: nat)
    requires j < LIMIT
    ensures At(vm, j) == Key(vm, j)
  {
  }

  /** The memory after a call that works on it. */
  lemma AskIs(s: Sys, r: Request)
    requires HOST in s.trackers && Do(s, Ask(r)).Some?
    ensures var c := Answer(s.mem, Vers(s), r); !c.Panic? && Do(s, Ask(r)) == Some(s.(mem := c.mem))
  {
    hide Answer, Tlb.MinVersion;
  }

  /* ---------------- Lent to a guest ---------------- */

  /** From `m` to `o` the page that the host has at `i`, of a range from `a` on, has been given to the guest, in a range
      from `b` on; the host keeps an entry for it that is not valid. */
  predicate Gave(m: Mem, o: Mem, a: nat, guest: OwnerId, b: nat, i: nat)
    requires a <= i
  {
    && Key(HOST, i) in m.ptes
    && var p := m.ptes[Key(HOST, i)].page;
       && Get(o.ptes, Key(HOST, i)) == Some(Invalidated(p)) && Get(o.ptes, Key(guest, b + (i - a))) == Some(Leaf(p))
       && Get(o.pages, p) == Some(Info(Ram, Mapped, [HOST, guest]))
  }

  /** Pages that can be given away are given to a guest, in order, where it has room for them. */
  lemma Lent(g: Given, before: seq<Step>, s: Sys, guest: OwnerId, a: nat, b: nat, n: nat)
    requires Reached(g, before, s) && HOST in s.trackers && guest != HOST && n > 0 && a + n <= LIMIT
    requires forall i | a <= i < a + n :: Lockable(s.mem, Key(HOST, i), Tlb.MinVersion(s.trackers[HOST]))
    requires forall j | b <= j < b + n :: Mappable(s.mem, Key(guest, j), Confidential)
    ensures Do(s, Ask(AskAdd(guest, a, b, n, true, n))).Some?
    ensures forall i | a <= i < a + n ::
              Gave(s.mem, Do(s, Ask(AskAdd(guest, a, b, n, true, n))).value.mem, a, guest, b, i)
  {
    hide Reached, SysInv, MemInv, Do, Unlocked, Fresh, At, Lockable, Mappable, AddPages, Tlb.MinVersion, LocksTwice;
    hide Gave;
    ReachedInv(g, before, s);
    InvMem(s);
    forall j | a <= j < a + n ensures At(HOST, j) == Key(HOST, j) { Straight(HOST, j); }
    ShortRange(s.mem, a, n, Vers(s)[HOST].min);
    AddPagesDoneIff(s.mem, guest, a, b, n, true, n, Vers(s));
    DoKeeps(s, Ask(AskAdd(guest, a, b, n, true, n)));
    AskIs(s, AskAdd(guest, a, b, n, true, n));
    forall i | a <= i < a + n
      ensures Gave(s.mem, Do(s, Ask(AskAdd(guest, a, b, n, true, n))).value.mem, a, guest, b, i)
    {
      GaveOne(s.mem, guest, a, b, n, Vers(s), i);
    }
  }

  lemma GaveOne(m: Mem, guest: OwnerId, a: nat, b: nat, n: nat, vers: Versions, i: nat)
    requires MemInv(m) && Fresh(m, vers) && Unlocked(m) && a <= i < a + n && a + n <= LIMIT
    requires AddPages(m, guest, a, b, n, true, n, vers[HOST].min).Done?
    ensures Gave(m, AddPages(m, guest, a, b, n, true, n, vers[HOST].min).mem, a, guest, b, i)
  {
    hide MemInv, Fresh, Unlocked, AddPages, At;
    AddPagesDoes(m, guest, a, b, n, true, n, vers, i - a);
    Straight(HOST, i);
    assert a + (i - a) == i;
  }

  lemma ShortRange(m: Mem, a: nat, n: nat, min: nat)
    requires a + n <= LIMIT
    ensures !LocksTwice(m, HOST, a, n, min) && Wrapped(n) == n
  {
  }

  /** From `m` to `o` the page that the host has at `i` has been lent to the guest, too, and is counted once more. */
  ghost predicate LentToo(m: Mem, o: Mem, a: nat, guest: OwnerId, b: nat, i: nat)
    requires a <= i
  {
    && Key(HOST, i) in m.ptes && m.ptes[Key(HOST, i)].page in m.pages
    && var p := m.ptes[Key(HOST, i)].page;
       && Get(o.ptes, Key(HOST, i)) == Some(Leaf(p)) && Get(o.ptes, Key(guest, b + (i - a))) == Some(Leaf(p))
       && Get(o.pages, p) == Some(m.pages[p].(state := Shared(Refs(m, p) + 1)))
  }

  /** Pages of the host are lent to a guest, in order, where it has shared memory without pages; the host keeps them. */
  lemma LentShared(g: Given, before: seq<Step>, s: Sys, guest: OwnerId, a: nat, b: nat, n: nat)
    requires Reached(g, before, s) && guest != HOST && n > 0 && a + n <= LIMIT
    requires forall i | a <= i < a + n :: OwnLeaf(s.mem, Key(HOST, i), REF_COUNT_MAX)
    requires forall j | b <= j < b + n :: Get(s.mem.regions, Key(guest, j)) == Some(SharedRegion)
                                          && Key(guest, j) !in s.mem.ptes
    ensures Do(s, Ask(AskAddShared(guest, a, b, n, true))).Some?
    ensures forall i | a <= i < a + n ::
              LentToo(s.mem, Do(s, Ask(AskAddShared(guest, a, b, n, true))).value.mem, a, guest, b, i)
  {
    hide Reached, SysInv, MemInv, Do, Unlocked, Fresh, At, OwnLeaf, AddSharedPages, Tlb.MinVersion, LentToo;
    ReachedInv(g, before, s);
    InvMem(s);
    HostKnown(s);
    forall j | a <= j < a + n ensures At(HOST, j) == Key(HOST, j) { Straight(HOST, j); }
    AddSharedPagesDoneIff(s.mem, guest, a, b, n, true, Vers(s));
    DoKeeps(s, Ask(AskAddShared(guest, a, b, n, true)));
    AskIs(s, AskAddShared(guest, a, b, n, true));
    forall i | a <= i < a + n
      ensures LentToo(s.mem, Do(s, Ask(AskAddShared(guest, a, b, n, true))).value.mem, a, guest, b, i)
    {
      LentOne(s.mem, guest, a, b, n, Vers(s), i);
    }
  }

  lemma LentOne(m: Mem, guest: OwnerId, a: nat, b: nat, n: nat, vers: Versions, i: nat)
    requires MemInv(m) && Fresh(m, vers) && a <= i < a + n && a + n <= LIMIT
    requires AddSharedPages(m, guest, a, b, n, true).Done?
    ensures LentToo(m, AddSharedPages(m, guest, a, b, n, true).mem, a, guest, b, i)
  {
    hide MemInv, Fresh, AddSharedPages, At;
    AddSharedPagesDoes(m, guest, a, b, n, true, vers, i - a);
    Straight(HOST, i);
    assert a + (i - a) == i;
    CountAt(m, m.ptes[Key(HOST, i)].page);
  }

  /** Pages that can be given away are given to a guest for its state; then they are lent, and come back with the
      rest. */
  lemma LentInternal(g: Given, before: seq<Step>, s: Sys, guest: OwnerId, a: nat, n: nat)
    requires Reached(g, before, s) && HOST in s.trackers && guest in s.trackers && guest != HOST && n > 0
             && a + n <= LIMIT
    requires forall i | a <= i < a + n :: ConvertedBefore(s.mem, Key(HOST, i), Tlb.MinVersion(s.trackers[HOST]))
    ensures Do(s, Ask(AskAddInternal(guest, a, n, true))).Some?
    ensures var t := Do(s, Ask(AskAddInternal(guest, a, n, true))).value;
            forall i | a <= i < a + n ::
              && LentTo(t.mem, i, guest) && Key(HOST, i) in s.mem.ptes && HostPage(t, i) == HostPage(s, i)
              && t.mem.pages[HostPage(t, i)].state == VmState
  {
    hide Reached, SysInv, MemInv, Do, Unlocked, Fresh, At, ConvertedBefore, AddInternalPages, Tlb.MinVersion,
         LocksTwice;
    ReachedInv(g, before, s);
    InvMem(s);
    SameVms(s, guest);
    forall j | a <= j < a + n ensures At(HOST, j) == Key(HOST, j) { Straight(HOST, j); }
    ShortRange(s.mem, a, n, Vers(s)[HOST].min);
    AddInternalPagesDoneIff(s.mem, guest, a, n, true, Vers(s));
    DoKeeps(s, Ask(AskAddInternal(guest, a, n, true)));
    AskIs(s, AskAddInternal(guest, a, n, true));
    forall i | a <= i < a + n
      ensures Key(HOST, i) in s.mem.ptes
              && var t := Do(s, Ask(AskAddInternal(guest, a, n, true))).value;
                 && LentTo(t.mem, i, guest) && HostPage(t, i) == HostPage(s, i)
                 && t.mem.pages[HostPage(t, i)].state == VmState
    {
      AddInternalPagesDoes(s.mem, guest, a, n, true, Vers(s), i - a);
      assert a + (i - a) == i;
    }
  }

  /** A page of a VM that is pinned is counted once more, and unpinning it restores memory. */
  lemma PinnedAndUnpinned(g: Given, before: seq<Step>, s: Sys, vm: OwnerId, i: nat)
    requires Reached(g, before, s) && i < LIMIT && OwnLeaf(s.mem, Key(vm, i), REF_COUNT_MAX)
    ensures Run(s, [Ask(AskPin(vm, i, 1)), Ask(AskUnpin(s.mem.ptes[Key(vm, i)].page, vm))]) == Some(s)
    ensures Do(s, Ask(AskPin(vm, i, 1))).Some?
    ensures var p, o := s.mem.ptes[Key(vm, i)].page, Do(s, Ask(AskPin(vm, i, 1))).value.mem;
            && o.pins == s.mem.pins + multiset{p}
            && Get(o.pages, p) == Some(s.mem.pages[p].(state := Shared(Refs(s.mem, p) + 1)))
  {
    hide Reached, SysInv, MemInv, Do, Unlocked, Fresh, At, PinPages, UnpinPage, Tlb.MinVersion;
    ReachedInv(g, before, s);
    InvMem(s);
    HostKnown(s);
    Straight(vm, i);
    var p := s.mem.ptes[Key(vm, i)].page;
    PinPagesDoneIff(s.mem, vm, i, 1, Vers(s));
    DoKeeps(s, Ask(AskPin(vm, i, 1)));
    AskIs(s, AskPin(vm, i, 1));
    PinPagesDoes(s.mem, vm, i, 1, Vers(s), i);
    OnePinned(s.mem, vm, i);
    CountAt(s.mem, p);
    PinThenUnpin(s.mem, vm, i);
    var s1 := Do(s, Ask(AskPin(vm, i, 1))).value;
    DoKeeps(s1, Ask(AskUnpin(p, vm)));
    AskIs(s1, AskUnpin(p, vm));
    TwoSteps(s, Ask(AskPin(vm, i, 1)), Ask(AskUnpin(p, vm)));
    assert s.(mem := s.mem) == s;
  }

  lemma OnePinned(m: Mem, vm: OwnerId, i: nat)
    requires At(vm, i) in m.ptes
    ensures multiset(PagesOf(m, vm, i, 1)) == multiset{m.ptes[At(vm, i)].page}
  {
    assert PagesOf(m, vm, i + 1, 0) == [];
    assert PagesOf(m, vm, i, 1) == [m.ptes[At(vm, i)].page];
  }

  /* ---------------- Returned to the host ---------------- */

  /** The host has lent the page at its address `i` to the guest. */
  predicate LentTo(m: Mem, i: nat, guest: OwnerId) {
    && Key(HOST, i) in m.ptes && m.ptes[Key(HOST, i)].Invalidated?
    && m.ptes[Key(HOST, i)].page in m.pages && m.pages[m.ptes[Key(HOST, i)].page].owners == [HOST, guest]
  }

  /** Whatever a guest has done with pages that it holds, when it is destroyed the host can have them back, mapped where
      they were. */
  lemma Returned(g: Given, before: seq<Step>, s: Sys, guest: OwnerId, a: nat, n: nat)
    requires Reached(g, before, s) && guest in s.trackers && guest != HOST && n > 0 && a + n <= LIMIT
    requires forall x | x in s.vcpus && s.vcpus[x].vm == guest :: s.vcpus[x].status != Running
    requires forall i | a <= i < a + n :: LentTo(s.mem, i, guest)
    ensures Run(s, [DropVm(guest), Ask(AskReclaim(HOST, a, n))]).Some?
    ensures var t := Run(s, [DropVm(guest), Ask(AskReclaim(HOST, a, n))]).value;
            forall i | a <= i < a + n ::
              && Key(HOST, i) in s.mem.ptes
              && Get(t.mem.ptes, Key(HOST, i)) == Some(Leaf(HostPage(s, i)))
              && Get(t.mem.pages, HostPage(s, i)) == Some(Info(Ram, Mapped, [HOST]))
  {
    hide Reached, SysInv, MemInv, Do, Run, Unlocked, Fresh, Tlb.MinVersion, LentTo;
    ReachedInv(g, before, s);
    DoKeeps(s, DropVm(guest));
    TwoSteps(s, DropVm(guest), Ask(AskReclaim(HOST, a, n)));
    var s1 := Do(s, DropVm(guest)).value;
    HostKnown(s1);
    forall i | a <= i < a + n
      ensures LentTo(s.mem, i, guest) && ConvertedBefore(s1.mem, Key(HOST, i), 0) && Key(HOST, i) in s.mem.ptes
              && s1.mem.ptes[Key(HOST, i)].page == HostPage(s, i)
    {
      GivenBack(s, guest, i);
    }
    Reclaimed(s1, a, n);
  }

  lemma GivenBack(s: Sys, guest: OwnerId, i: nat)
    requires SysInv(s) && guest in s.trackers && guest != HOST && LentTo(s.mem, i, guest)
    requires forall x | x in s.vcpus && s.vcpus[x].vm == guest :: s.vcpus[x].status != Running
    requires Do(s, DropVm(guest)).Some?
    ensures var o := Do(s, DropVm(guest)).value.mem;
            && ConvertedBefore(o, Key(HOST, i), 0) && Key(HOST, i) in s.mem.ptes
            && o.ptes[Key(HOST, i)] == s.mem.ptes[Key(HOST, i)]
  {
    hide SysInv, MemInv, Do, Unlocked, Fresh, Tlb.MinVersion, Destroy;
    InvMem(s);
    SameVms(s, guest);
    DropIs(s, guest);
    DestroyKeeps(s.mem, guest, Vers(s));
    assert Key(HOST, i) !in Entries(s.mem, guest);
  }

  lemma Reclaimed(s: Sys, a: nat, n: nat)
    requires SysInv(s) && HOST in s.trackers && n > 0 && a + n <= LIMIT
    requires forall i | a <= i < a + n :: ConvertedBefore(s.mem, Key(HOST, i), 0)
    ensures Do(s, Ask(AskReclaim(HOST, a, n))).Some?
    ensures var t := Do(s, Ask(AskReclaim(HOST, a, n))).value;
            forall i | a <= i < a + n ::
              && Key(HOST, i) in s.mem.ptes
              && Get(t.mem.ptes, Key(HOST, i)) == Some(Leaf(HostPage(s, i)))
              && Get(t.mem.pages, HostPage(s, i)) == Some(Info(Ram, Mapped, [HOST]))
  {
    hide SysInv, MemInv, Do, Unlocked, Fresh, Tlb.MinVersion, ReclaimPages, ConvertedBefore, Lockable, At;
    InvMem(s);
    var min := Vers(s)[HOST].min;
    forall i | a <= i < a + n ensures Lockable(s.mem, Key(HOST, i), min) { Sooner(s.mem, Key(HOST, i), min); }
    ReclaimPagesDoneIff(s.mem, HOST, a, n, Vers(s));
    DoKeeps(s, Ask(AskReclaim(HOST, a, n)));
    AskIs(s, AskReclaim(HOST, a, n));
    forall i | a <= i < a + n
      ensures Key(HOST, i) in s.mem.ptes
              && var t := Do(s, Ask(AskReclaim(HOST, a, n))).value;
                 && Get(t.mem.ptes, Key(HOST, i)) == Some(Leaf(HostPage(s, i)))
                 && Get(t.mem.pages, HostPage(s, i)) == Some(Info(Ram, Mapped, [HOST]))
    {
      ReclaimPagesDoes(s.mem, a, n, Vers(s), i);
    }
  }

  lemma Sooner(m: Mem, k: Key, min: nat)
    requires MemInv(m) && k.vm == HOST && ConvertedBefore(m, k, 0)
    ensures Lockable(m, k, min)
  {
    hide MemInv;
    LockableIff(m, k, 0);
  }

  /* ---------------- Given up by a guest ---------------- */

  /** At its page `j`, guest `vm` is giving up what it had there in `m`, since version `v`; or that is done: the page is
      the host's, free to be used again, and the guest has none there. */
  predicate GivesUp(m: Mem, o: Mem, vm: OwnerId, j: nat, v: nat) {
    var k := Key(vm, j);
    if Get(o.regions, k) == Some(Sharing(v)) then
      && Get(o.ptes, k) == (if k in m.ptes then Some(Invalidated(m.ptes[k].page)) else None)
      && (k in m.ptes ==> Get(o.pages, m.ptes[k].page) == Some(Info(Ram, Unassigning(v), [HOST, vm])))
    else
      && Get(o.regions, k) == Some(SharedRegion) && Get(o.ptes, k) == None
      && (k in m.ptes ==> Get(o.pages, m.ptes[k].page) == Some(Info(Ram, Converted, [HOST])))
  }

  lemma CalmedGivesUp(m: Mem, o: Mem, q: Mem, vm: OwnerId, j: nat, v: nat)
    requires MemInv(o) && Calmed(o, q) && GivesUp(m, o, vm, j, v) && vm != HOST
    ensures GivesUp(m, q, vm, j, v)
  {
    hide MemInv;
    if q != o {
      var w, min :| Completed(o, q, Due(o, w, min));
      var k := Key(vm, j);
      if k in o.ptes { EntryAt(o, k); }
      if k in m.ptes && k !in Due(o, w, min) {
        var p := m.ptes[k].page;
        forall l | l in Due(o, w, min) && l in o.ptes ensures o.ptes[l].page != p { OtherNames(o, k, l, p); }
        assert !NamedBy(o, Due(o, w, min), p);
      }
    }
  }

  /** A page that the guest of `k` is giving up, or that is converted, is not named by another pending entry. */
  lemma OtherNames(o: Mem, k: Key, l: Key, p: nat)
    requires MemInv(o) && l in o.ptes && l in o.regions && (o.regions[l].Sharing? || o.regions[l].Unsharing?) && l != k
    requires p in o.pages && k.vm != HOST
    requires o.pages[p] == Info(Ram, Converted, [HOST])
             || (|o.pages[p].owners| == 2 && o.pages[p].owners[1] == k.vm && o.pages[p].state.Unassigning?
                 && Get(o.ptes, k) == Some(Invalidated(p)))
    ensures o.ptes[l].page != p
  {
    EntryAt(o, l);
    if k in o.ptes { EntryAt(o, k); }
  }

  lemma {:induction false} RunGivesUp(m: Mem, s: Sys, steps: seq<Step>, vm: OwnerId, j: nat, v: nat)
    requires SysInv(s) && Run(s, steps).Some? && AllCalm(steps) && GivesUp(m, s.mem, vm, j, v) && vm != HOST
    ensures GivesUp(m, Run(s, steps).value.mem, vm, j, v)
    decreases |steps|
  {
    hide SysInv, Do, GivesUp, Calmed, MemInv, Calm;
    if steps != [] {
      DoKeeps(s, steps[0]);
      InvMem(s);
      CalmStep(s, steps[0]);
      CalmedGivesUp(m, s.mem, Do(s, steps[0]).value.mem, vm, j, v);
      RunGivesUp(m, Do(s, steps[0]).value, steps[1..], vm, j, v);
    }
  }

  /** Once the version at which a guest shared a range is out of use, whatever vCPUs have done to get there, the
      range is shared, the guest has no page there, and the pages it had are the host's, converted. */
  lemma SharedThenGivenUp(g: Given, before: seq<Step>, s: Sys, x: nat, a: nat, n: nat, room: bool, mid: seq<Step>,
                          t: Sys, j: nat)
    requires Reached(g, before, s) && SharesPages(s, x, a, n, room, false) && a <= j < a + n
    requires Run(s, [ShareMem(x, a, n, room)] + mid) == Some(t) && AllCalm(mid)
    ensures var vm := s.vcpus[x].vm;
            && vm in s.trackers && vm in t.trackers
            && (s.trackers[vm].current.version < Tlb.MinVersion(t.trackers[vm]) ==>
                  && Get(t.mem.regions, Key(vm, j)) == Some(SharedRegion) && Key(vm, j) !in t.mem.ptes
                  && (Key(vm, j) in s.mem.ptes ==>
                        Get(t.mem.pages, s.mem.ptes[Key(vm, j)].page) == Some(Info(Ram, Converted, [HOST]))))
  {
    hide Reached, SysInv, MemInv, Do, Run, Tlb.MinVersion, AllCalm, Unlocked, Fresh, SharesPages, HeldBack, Ahead;
    ReachedInv(g, before, s);
    SharesAt(s, x, a, n, room, false);
    var vm := s.vcpus[x].vm;
    var v := s.trackers[vm].current.version;
    CalmKeeps(mid, vm);
    FirstStep(s, ShareMem(x, a, n, room), mid);
    DoKeeps(s, ShareMem(x, a, n, room));
    var s1 := Do(s, ShareMem(x, a, n, room)).value;
    StepTurns(s, ShareMem(x, a, n, room), x, vm);
    RunTracked(s1, mid, x, vm);
    RunKeeps(s1, mid);
    BeginsToGiveUp(s, x, a, n, room, j);
    RunGivesUp(s.mem, s1, mid, vm, j, v);
    if v < Tlb.MinVersion(t.trackers[vm]) && Key(vm, j) in t.mem.regions {
      NotOverdueBefore(t, Key(vm, j), Tlb.MinVersion(t.trackers[vm]));
    }
  }

  lemma CalmKeeps(mid: seq<Step>, vm: OwnerId)
    requires AllCalm(mid)
    ensures DropVm(vm) !in mid
  {
  }

  lemma {:induction false} RunTracked(s: Sys, steps: seq<Step>, x: nat, vm: OwnerId)
    requires SysInv(s) && Run(s, steps).Some? && DropVm(vm) !in steps && vm in s.trackers
    requires x in s.vcpus && s.vcpus[x].vm == vm
    ensures vm in Run(s, steps).value.trackers
    decreases |steps|
  {
    hide SysInv, Do, Tlb.MinVersion;
    if steps != [] {
      DoKeeps(s, steps[0]);
      StepTurns(s, steps[0], x, vm);
      RunTracked(Do(s, steps[0]).value, steps[1..], x, vm);
    }
  }

  lemma BeginsToGiveUp(s: Sys, x: nat, a: nat, n: nat, room: bool, j: nat)
    requires SysInv(s) && SharesPages(s, x, a, n, room, false) && a <= j < a + n
    requires Do(s, ShareMem(x, a, n, room)).Some?
    ensures var vm := s.vcpus[x].vm;
            && vm != HOST
            && GivesUp(s.mem, Do(s, ShareMem(x, a, n, room)).value.mem, vm, j, s.trackers[vm].current.version)
  {
    hide MemInv, Populated, Tlb.MinVersion, TrackersOk, VcpusOk, OneAtATime, VmidsOk, TlbOk, Unlocked, Fresh, Range;
    var vm := s.vcpus[x].vm;
    MinBelow(s, vm);
    ShareBeginDoes(s.mem, vm, a, n, room, Vers(s), j);
    hide ShareBegin;
  }
}
