/** The machine keeps its invariant in every run, and exactly when a run ends in a panic. */
module SystemSafety {
  import opened Basics
  import opened PageInfos
  import opened Memory
  import opened MemorySteps
  import opened MemoryRanges
  import opened Hypercalls
  import opened Conversions
  import opened Lifecycle
  import opened Teardown
  import opened VmIds
  import opened System
  import Tlb = TlbTrackers

  /* ---------------- Calls on memory ---------------- */

  lemma AnswerSound(m: Mem, vers: Versions, r: Request)
    requires MemInv(m) && Fresh(m, vers) && Unlocked(m)
    ensures Careful(m, Answer(m, vers, r), vers) && (Answer(m, vers, r).Panic? <==> Fatal(m, vers, r))
  {
    hide MemInv, Good, Unlocked, ConvertPages, ReclaimPages, AddPages, AddInternalPages, AddSharedPages, PinPages,
         UnpinPage, AddRegion;
    Nothing(m, vers);
    match r
    case AskConvert(vm, g, n) => ConvertPagesSound(m, vm, g, n, vers);
    case AskReclaim(vm, g, n) => if vm in vers { ReclaimPagesSound(m, vm, g, n, vers); }
    case AskAdd(guest, from, to, n, tables, copied) => AddPagesSound(m, guest, from, to, n, tables, copied, vers);
    case AskAddInternal(guest, from, n, accepted) => AddInternalPagesSound(m, guest, from, n, accepted, vers);
    case AskAddShared(guest, from, to, n, tables) => AddSharedPagesSound(m, guest, from, to, n, tables, vers);
    case AskPin(vm, g, n) => PinPagesSound(m, vm, g, n, vers);
    case AskUnpin(p, owner) => UnpinPageSound(m, p, owner, vers);
    case AskRegion(vm, g, n, shared, room) => AddRegionSound(m, vm, g, n, shared, room, vers);
  }

  /** A change of memory that is good for the versions in use keeps the invariant. */
  lemma MemStep(s: Sys, n: Mem)
    requires SysInv(s) && Good(s.mem, n, Vers(s)) && Unlocked(n)
    ensures SysInv(s.(mem := n))
  {
    hide MemInv, Unlocked, Stable, TrackersOk, VcpusOk, OneAtATime, VmidsOk, TlbOk, Windows;
    TlbKept(s.mem, n, s.trackers, s.trackers, s.vcpus, s.vcpus, s.cpus);
  }

  /** The vCPUs of `b` are vCPUs of `a` that have not entered an address space again. */
  ghost predicate Fewer(a: Vcpus, b: Vcpus) {
    forall x | x in b :: b[x].prev.None? || (x in a && b[x].vm == a[x].vm && b[x].prev == a[x].prev)
  }

  /** Cached translations stay accounted for if the memory is stable and no oldest version goes down. */
  lemma TlbKept(m: Mem, n: Mem, was: Trackers, now: Trackers, a: Vcpus, b: Vcpus, cpus: Cpus)
    requires VcpusOk(was, a, cpus) && VcpusOk(now, b, cpus) && TlbOk(m, was, a, cpus) && Stable(m, n, Windows(now))
             && Fewer(a, b)
    requires forall vm | vm in now && vm in was :: Tlb.MinVersion(was[vm]) <= Tlb.MinVersion(now[vm])
    ensures TlbOk(n, now, b, cpus)
  {
    hide Covers;
    forall x, c, e | x in b && Tagged(b[x], c, cpus) && e in cpus[c].tlb && e.vmid == b[x].prev.value.id.vmid
      ensures Safe(n, now, b[x], e)
    {
      assert Tagged(a[x], c, cpus) && Safe(m, was, a[x], e) && VcpuOk(a[x], was, cpus) && VcpuOk(b[x], now, cpus);
    }
  }

  lemma VmidsKept(a: Vcpus, b: Vcpus, cpus: Cpus)
    requires VmidsOk(a, cpus) && Fewer(a, b)
    ensures VmidsOk(b, cpus)
  {
    forall x, c | x in b && Tagged(b[x], c, cpus) ensures Tagged(a[x], c, cpus) {
    }
  }

  lemma SameHandles(a: Vcpus, b: Vcpus, vm: OwnerId)
    requires forall x | x in b :: b[x].vm == vm && b[x].active ==>
               x in a && a[x].vm == vm && a[x].active && a[x].prev == b[x].prev
    requires forall x | x in a :: a[x].vm == vm && a[x].active ==>
               x in b && b[x].vm == vm && b[x].active && a[x].prev == b[x].prev
    ensures Handles(a, vm) == Handles(b, vm)
  {
  }

  /* ---------------- vCPUs outside their address space ---------------- */

  /** No vCPU goes in or out. */
  ghost predicate SameInside(a: Vcpus, b: Vcpus) {
    && (forall x | x in b && b[x].active :: x in a && a[x].active && a[x].vm == b[x].vm && a[x].prev == b[x].prev
                                            && a[x].on == b[x].on)
    && (forall x | x in a && a[x].active :: x in b && b[x].active)
  }

  lemma VcpuStep(s: Sys, b: Vcpus)
    requires SysInv(s) && Fewer(s.vcpus, b) && SameInside(s.vcpus, b) && VcpusOk(s.trackers, b, s.cpus)
    ensures SysInv(s.(vcpus := b))
  {
    hide MemInv, Unlocked, Stable, VcpusOk, VmidsOk, TlbOk, Windows, MemOk, Tlb.Accounts;
    StableSelf(s.mem, Windows(s.trackers));
    TlbKept(s.mem, s.mem, s.trackers, s.trackers, s.vcpus, b, s.cpus);
    VmidsKept(s.vcpus, b, s.cpus);
    forall vm | vm in s.trackers ensures Tlb.Accounts(s.trackers[vm], Handles(b, vm)) {
      SameHandles(s.vcpus, b, vm);
    }
  }

  lemma ClaimKeeps(s: Sys, x: nat, cpu: nat)
    requires SysInv(s)
    ensures SysInv(Claim(s, x, cpu))
  {
    hide MemOk, TrackersOk, OneAtATime, VmidsOk, TlbOk, Windows;
    var b := Claim(s, x, cpu).vcpus;
    if b != s.vcpus {
      VcpuStep(s, b);
    }
  }

  lemma UnclaimKeeps(s: Sys, x: nat)
    requires SysInv(s)
    ensures SysInv(Unclaim(s, x))
  {
    hide MemOk, TrackersOk, OneAtATime, VmidsOk, TlbOk, Windows;
    var b := Unclaim(s, x).vcpus;
    if b != s.vcpus {
      VcpuStep(s, b);
    }
  }

  lemma SwitchKeeps(s: Sys, x: nat)
    requires SysInv(s)
    ensures SysInv(SwitchOn(s, x)) && SysInv(SwitchOff(s, x))
  {
    hide MemOk, TrackersOk, OneAtATime, VmidsOk, TlbOk, Windows;
    if SwitchOn(s, x) != s { VcpuStep(s, SwitchOn(s, x).vcpus); }
    if SwitchOff(s, x) != s { VcpuStep(s, SwitchOff(s, x).vcpus); }
  }

  lemma AddVcpuKeeps(s: Sys, x: nat, vm: OwnerId)
    requires SysInv(s)
    ensures SysInv(AddVcpu(s, x, vm))
  {
    hide MemOk, TrackersOk, OneAtATime, VmidsOk, TlbOk, Windows;
    if AddVcpu(s, x, vm) != s { VcpuStep(s, AddVcpu(s, x, vm).vcpus); }
  }

  /* ---------------- Versions ---------------- */

  /** The tracker of one VM changes so that its oldest version does not go down; if that version goes up, the
      conversions that waited for it are completed. */
  lemma VersionStep(s: Sys, vm: OwnerId, t: Tlb.Tracker, b: Vcpus, flush: bool)
    requires SysInv(s) && vm in s.trackers
    requires var now := s.trackers[vm := t]; TrackersOk(now, b) && VcpusOk(now, b, s.cpus)
    requires OneAtATime(b) && Fewer(s.vcpus, b)
    requires Tlb.MinVersion(s.trackers[vm]) <= Tlb.MinVersion(t)
    requires !flush ==> Tlb.MinVersion(s.trackers[vm]) == Tlb.MinVersion(t)
    ensures var s1 := s.(trackers := s.trackers[vm := t], vcpus := b);
            var r := if flush then ShotDown(s1, vm) else Some(s1);
            r.Some? && SysInv(r.value)
  {
    hide MemInv, Unlocked, Stable, TrackersOk, VcpusOk, OneAtATime, VmidsOk, TlbOk, Tlb.MinVersion, Complete;
    var now := s.trackers[vm := t];
    VmidsKept(s.vcpus, b, s.cpus);
    if flush {
      CompleteRestores(s.mem, vm, Windows(s.trackers), Windows(now));
      var n := Complete(s.mem, vm, Tlb.MinVersion(t)).value;
      TlbKept(s.mem, n, s.trackers, now, s.vcpus, b, s.cpus);
    } else {
      StableSelf(s.mem, Windows(now));
      TlbKept(s.mem, s.mem, s.trackers, now, s.vcpus, b, s.cpus);
    }
  }

  lemma LeaveKeeps(s: Sys, x: nat)
    requires SysInv(s)
    ensures Leave(s, x).Some? && SysInv(Leave(s, x).value)
  {
    hide MemOk, VmidsOk, TlbOk, Windows, Tlb.Accounts, Tlb.MinVersion, Tlb.Put, ShotDown;
    if x in s.vcpus && s.vcpus[x].active {
      var v := s.vcpus[x];
      assert VcpuOk(v, s.trackers, s.cpus);
      var t, b := s.trackers[v.vm], s.vcpus[x := v.(active := false)];
      var h := Handles(s.vcpus, v.vm);
      Tlb.PutAccounts(t, h, x);
      var p := Tlb.Put(t, v.prev.value.version).value;
      forall vm | vm in s.trackers ensures Tlb.Accounts(s.trackers[v.vm := p.0][vm], Handles(b, vm)) {
        if vm == v.vm {
          assert Handles(b, vm) == h - {x};
        } else {
          SameHandles(s.vcpus, b, vm);
        }
      }
      VersionStep(s, v.vm, p.0, b, p.1);
    }
  }

  lemma FenceKeeps(s: Sys, vm: OwnerId)
    requires SysInv(s)
    ensures Fence(s, vm).Some? && SysInv(Fence(s, vm).value)
  {
    hide MemOk, VmidsOk, OneAtATime, TlbOk, Windows, Tlb.Accounts, Tlb.MinVersion, Tlb.Increment, ShotDown;
    if vm in s.trackers && Tlb.Increment(s.trackers[vm]).TlbOk? {
      var t := s.trackers[vm];
      Tlb.IncrementAccounts(t, Handles(s.vcpus, vm));
      VersionStep(s, vm, Tlb.Increment(t).value.0, s.vcpus, Tlb.Increment(t).value.1);
    }
  }

  /* ---------------- Entering an address space ---------------- */

  /** The VMID is the vCPU's own: no other vCPU has it, and what the TLB holds under it was put there by
      this vCPU, at the version that `PickVmid` returns. */
  lemma PickedVmid(s: Sys, x: nat)
    requires VmidsOk(s.vcpus, s.cpus) && VcpusOk(s.trackers, s.vcpus, s.cpus) && x in s.vcpus
             && s.vcpus[x].status == Running
    ensures s.vcpus[x].on in s.cpus && s.cpus[s.vcpus[x].on].ids.next < s.cpus[s.vcpus[x].on].ids.count
    ensures var v := s.vcpus[x];
            var (cpu, id, was) := PickVmid(v, s.cpus[v.on]);
            && cpu.tlb <= s.cpus[v.on].tlb
            && cpu.ids.next < cpu.ids.count
            && id.version == cpu.ids.version >= s.cpus[v.on].ids.version
            && HandedOut(cpu.ids, id.vmid)
            && (forall e | e in cpu.tlb :: HandedOut(cpu.ids, e.vmid))
            && (was.None? ==> forall e | e in cpu.tlb :: e.vmid != id.vmid)
            && (was.Some? ==> cpu == s.cpus[v.on] && v.prev == Some(PrevTlb(v.on, id, was.value)))
            && (forall y | y in s.vcpus && y != x && Tagged(s.vcpus[y], v.on, s.cpus)
                && cpu.ids.version == s.cpus[v.on].ids.version ::
                  HandedOut(cpu.ids, s.vcpus[y].prev.value.id.vmid) && s.vcpus[y].prev.value.id.vmid != id.vmid)
  {
    var v := s.vcpus[x];
    assert VcpuOk(v, s.trackers, s.cpus);
  }

  lemma EnterIds(s: Sys, x: nat)
    requires VmidsOk(s.vcpus, s.cpus) && VcpusOk(s.trackers, s.vcpus, s.cpus) && Enter(s, x).Some?
    requires x in s.vcpus && s.vcpus[x].status == Running
    ensures VmidsOk(Enter(s, x).value.vcpus, Enter(s, x).value.cpus)
  {
    hide PickVmid;
    var s1 := Enter(s, x).value;
    if s1 != s {
      var v := s.vcpus[x];
      PickedVmid(s, x);
      forall y, c | y in s1.vcpus && Tagged(s1.vcpus[y], c, s1.cpus)
        ensures HandedOut(s1.cpus[c].ids, s1.vcpus[y].prev.value.id.vmid)
      {
        if y != x { VcpuAt(s, y); }
      }
      forall y, z, c | y in s1.vcpus && z in s1.vcpus && Tagged(s1.vcpus[y], c, s1.cpus)
             && Tagged(s1.vcpus[z], c, s1.cpus)
                       && s1.vcpus[y].prev.value.id.vmid == s1.vcpus[z].prev.value.id.vmid
        ensures y == z
      {
        OldTag(s, s1, x, y, c);
        OldTag(s, s1, x, z, c);
      }
    }
  }

  /** After an entry on its CPU, the VMID of another vCPU is valid there only if it was before. */
  lemma OldTag(s: Sys, s1: Sys, x: nat, y: nat, c: nat)
    requires VmidsOk(s.vcpus, s.cpus) && VcpusOk(s.trackers, s.vcpus, s.cpus)
    requires x in s.vcpus && s.vcpus[x].status == Running && Enter(s, x) == Some(s1) && s1 != s
    requires y in s1.vcpus && Tagged(s1.vcpus[y], c, s1.cpus)
    ensures y in s.vcpus && c in s.cpus
    ensures y != x ==>
              && s1.vcpus[y] == s.vcpus[y] && Tagged(s.vcpus[y], c, s.cpus)
              && (c == s.vcpus[x].on ==>
                  s1.vcpus[x].prev.Some? && s1.vcpus[y].prev.value.id.vmid != s1.vcpus[x].prev.value.id.vmid)
    ensures y == x ==> c == s.vcpus[x].on
  {
    hide PickVmid;
    PickedVmid(s, x);
    VcpuAt(s, y);
  }

  lemma VcpuAt(s: Sys, x: nat)
    requires VcpusOk(s.trackers, s.vcpus, s.cpus) && x in s.vcpus
    ensures VcpuOk(s.vcpus[x], s.trackers, s.cpus)
  {
  }

  lemma EnterTlb(s: Sys, x: nat)
    requires VmidsOk(s.vcpus, s.cpus) && VcpusOk(s.trackers, s.vcpus, s.cpus)
             && TlbOk(s.mem, s.trackers, s.vcpus, s.cpus)
    requires x in s.vcpus && s.vcpus[x].status == Running && Enter(s, x).Some?
    ensures var s1 := Enter(s, x).value; TlbOk(s1.mem, s1.trackers, s1.vcpus, s1.cpus)
  {
    hide PickVmid, Covers, Tlb.MinVersion;
    var s1 := Enter(s, x).value;
    if s1 != s {
      PickedVmid(s, x);
      var v := s.vcpus[x];
      VcpuAt(s, x);
      GetKeepsMin(s.trackers[v.vm]);
      forall y, c, e | y in s1.vcpus && Tagged(s1.vcpus[y], c, s1.cpus) && e in s1.cpus[c].tlb
             && e.vmid == s1.vcpus[y].prev.value.id.vmid
        ensures Safe(s1.mem, s1.trackers, s1.vcpus[y], e)
      {
        VcpuAt(s, y);
        if y == x {
          var (cpu, id, was) := PickVmid(v, s.cpus[v.on]);
          assert c == v.on && e in cpu.tlb && e.vmid == id.vmid;
          assert was.Some? && was.value == s.trackers[v.vm].current.version;
          assert Tagged(v, c, s.cpus) && e in s.cpus[c].tlb;
          assert Safe(s.mem, s.trackers, v, e);
        } else {
          assert Tagged(s.vcpus[y], c, s.cpus) && e in s.cpus[c].tlb;
          assert Safe(s.mem, s.trackers, s.vcpus[y], e);
        }
      }
    }
  }

  lemma GetKeepsMin(t: Tlb.Tracker)
    ensures Tlb.MinVersion(Tlb.Get(t)) == Tlb.MinVersion(t) && Tlb.Get(t).current.version == t.current.version
  {
  }

  lemma EnterTrackers(s: Sys, x: nat)
    requires TrackersOk(s.trackers, s.vcpus) && x in s.vcpus && s.vcpus[x].vm in s.trackers && Enter(s, x).Some?
    ensures var s1 := Enter(s, x).value; TrackersOk(s1.trackers, s1.vcpus)
                                         && Windows(s1.trackers) == Windows(s.trackers)
  {
    hide PickVmid, Tlb.Accounts, Tlb.MinVersion, Tlb.Get;
    var s1 := Enter(s, x).value;
    if s1 != s {
      var v := s.vcpus[x];
      var t, h := s.trackers[v.vm], Handles(s.vcpus, v.vm);
      GetKeepsMin(t);
      Tlb.GetAccounts(t, h, x);
      forall vm | vm in s1.trackers ensures Tlb.Accounts(s1.trackers[vm], Handles(s1.vcpus, vm)) {
        if vm == v.vm {
          assert Handles(s1.vcpus, vm) == h[x := t.current.version];
        } else {
          SameHandles(s.vcpus, s1.vcpus, vm);
        }
      }
    }
  }

  lemma EnterKeeps(s: Sys, x: nat)
    requires SysInv(s)
    ensures Enter(s, x).Some? && SysInv(Enter(s, x).value)
  {
    hide MemOk, VmidsOk, TlbOk, TrackersOk, VcpusOk, OneAtATime, PickVmid, Windows, Occupied;
    if x in s.vcpus && s.vcpus[x].status == Running && !s.vcpus[x].active && !Occupied(s, s.vcpus[x].on) {
      VcpuAt(s, x);
      PickedVmid(s, x);
      EnterIds(s, x);
      EnterTlb(s, x);
      EnterTrackers(s, x);
      EnterVcpus(s, x);
    }
  }

  lemma EnterVcpus(s: Sys, x: nat)
    requires VcpusOk(s.trackers, s.vcpus, s.cpus) && VmidsOk(s.vcpus, s.cpus) && OneAtATime(s.vcpus)
    requires x in s.vcpus && s.vcpus[x].status == Running && Enter(s, x).Some?
    ensures var s1 := Enter(s, x).value; VcpusOk(s1.trackers, s1.vcpus, s1.cpus) && OneAtATime(s1.vcpus)
  {
    hide PickVmid, VmidsOk;
    var s1 := Enter(s, x).value;
    if s1 != s {
      PickedVmid(s, x);
      forall y | y in s1.vcpus ensures VcpuOk(s1.vcpus[y], s1.trackers, s1.cpus) {
        VcpuAt(s, y);
      }
      assert !Occupied(s, s.vcpus[x].on);
    }
  }

  /* ---------------- The TLBs ---------------- */

  ghost predicate SameIds(a: Cpus, b: Cpus) {
    a.Keys == b.Keys && forall c | c in a :: a[c].ids == b[c].ids
  }

  lemma IdsKept(trackers: Trackers, vcpus: Vcpus, a: Cpus, b: Cpus)
    requires SameIds(a, b) && VcpusOk(trackers, vcpus, a) && VmidsOk(vcpus, a)
    requires forall c, e | c in b && e in b[c].tlb :: HandedOut(b[c].ids, e.vmid)
    ensures VcpusOk(trackers, vcpus, b) && VmidsOk(vcpus, b)
  {
    forall x, c | x in vcpus ensures Tagged(vcpus[x], c, a) <==> Tagged(vcpus[x], c, b) {
    }
    forall x | x in vcpus ensures VcpuOk(vcpus[x], trackers, b) {
      assert VcpuOk(vcpus[x], trackers, a);
    }
  }

  lemma FillTlbOk(s: Sys, x: nat, gpn: nat)
    requires SysInv(s)
    ensures var s1 := FillTlb(s, x, gpn);
            && TlbOk(s1.mem, s1.trackers, s1.vcpus, s1.cpus) && SameIds(s.cpus, s1.cpus)
            && (forall c, e | c in s1.cpus && e in s1.cpus[c].tlb :: HandedOut(s1.cpus[c].ids, e.vmid))
  {
    hide MemInv, Unlocked, Fresh, TrackersOk, OneAtATime, Windows, Tlb.MinVersion;
    var s1 := FillTlb(s, x, gpn);
    if s1 != s {
      var v, k := s.vcpus[x], Key(s.vcpus[x].vm, gpn);
      VcpuAt(s, x);
      EntryAt(s.mem, k);
      var added := TlbEntry(v.prev.value.id.vmid, gpn, s.mem.ptes[k].page);
      assert forall w :: Covers(s.mem, k, added.page, w);
      assert Tagged(v, v.on, s.cpus);
      forall y, c, e | y in s1.vcpus && Tagged(s1.vcpus[y], c, s1.cpus) && e in s1.cpus[c].tlb
             && e.vmid == s1.vcpus[y].prev.value.id.vmid
        ensures Safe(s1.mem, s1.trackers, s1.vcpus[y], e)
      {
        assert Tagged(s.vcpus[y], c, s.cpus);
        if e in s.cpus[c].tlb {
          assert Safe(s.mem, s.trackers, s.vcpus[y], e);
        } else {
          assert e == added && c == v.on && y == x;
        }
      }
    }
  }

  lemma FillKeeps(s: Sys, x: nat, gpn: nat)
    requires SysInv(s)
    ensures SysInv(FillTlb(s, x, gpn))
  {
    hide MemOk, TrackersOk, VcpusOk, VmidsOk, OneAtATime, TlbOk, Windows, SameIds;
    FillTlbOk(s, x, gpn);
    IdsKept(s.trackers, s.vcpus, s.cpus, FillTlb(s, x, gpn).cpus);
  }

  lemma EvictKeeps(s: Sys, cpu: nat, e: TlbEntry)
    requires SysInv(s)
    ensures SysInv(EvictTlb(s, cpu, e))
  {
    hide MemOk, TrackersOk, VcpusOk, OneAtATime, Windows, Safe;
    var s1 := EvictTlb(s, cpu, e);
    IdsKept(s.trackers, s.vcpus, s.cpus, s1.cpus);
    forall y, c | y in s1.vcpus && Tagged(s1.vcpus[y], c, s1.cpus) ensures Tagged(s.vcpus[y], c, s.cpus) {
    }
  }

  /* ---------------- Calls ---------------- */

  lemma ServeKeeps(s: Sys, r: Request)
    requires SysInv(s)
    ensures Serve(s, r).None? <==> Fatal(s.mem, Vers(s), r)
    ensures Serve(s, r).Some? ==> SysInv(Serve(s, r).value)
  {
    hide MemInv, Good, Unlocked, Answer, Fatal, TrackersOk, VcpusOk, OneAtATime, VmidsOk, TlbOk;
    AnswerSound(s.mem, Vers(s), r);
    if !Answer(s.mem, Vers(s), r).Panic? { MemStep(s, Answer(s.mem, Vers(s), r).mem); }
  }

  lemma ShareKeeps(s: Sys, x: nat, g: nat, n: nat, room: bool, back: bool)
    requires SysInv(s)
    ensures ChangeSharing(s, x, g, n, room, back).Some? && SysInv(ChangeSharing(s, x, g, n, room, back).value)
  {
    hide MemInv, Good, Unlocked, ShareBegin, UnshareBegin, TrackersOk, OneAtATime, VmidsOk, TlbOk, Fresh;
    if x in s.vcpus && s.vcpus[x].active && s.vcpus[x].vm in s.trackers {
      var v := s.vcpus[x];
      MinAtMostCurrent(s, v.vm);
      ShareBeginSound(s.mem, v.vm, g, n, room, Vers(s));
      UnshareBeginSound(s.mem, v.vm, g, n, room, Vers(s));
      var win := Vers(s)[v.vm];
      var c := if back then UnshareBegin(s.mem, v.vm, g, n, win.cur, room)
          else ShareBegin(s.mem, v.vm, g, n, win.cur, room);
      MemStep(s, c.mem);
      var s1, s2 := s.(mem := c.mem), ChangeSharing(s, x, g, n, room, back).value;
      if s2.vcpus != s1.vcpus {
        VcpuStep(s1, s2.vcpus);
      }
    }
  }

  lemma MinAtMostCurrent(s: Sys, vm: OwnerId)
    requires TrackersOk(s.trackers, s.vcpus) && vm in s.trackers
    ensures Vers(s)[vm].min <= Vers(s)[vm].cur
  {
    assert Tlb.Accounts(s.trackers[vm], Handles(s.vcpus, vm));
  }

  lemma AddGuestKeeps(s: Sys, guest: OwnerId)
    requires SysInv(s)
    ensures AddGuest(s, guest).Some? && SysInv(AddGuest(s, guest).value)
  {
    hide MemInv, Unlocked, Stable, Covers, VmidsOk, OneAtATime, TlbOk, Tlb.Accounts;
    var s1 := AddGuest(s, guest).value;
    AddVmSound(s.mem, guest, Vers(s), Window(0, 0));
    if s1 != s && guest !in s.trackers {
      assert Windows(s1.trackers) == Windows(s.trackers)[guest := Window(0, 0)];
      forall x | x in s1.vcpus ensures VcpuOk(s1.vcpus[x], s1.trackers, s1.cpus) && s1.vcpus[x].vm != guest {
        VcpuAt(s, x);
      }
      assert Handles(s1.vcpus, guest) == map[];
      InitialAccounts();
      StableNewVm(s.mem, s1.mem, Vers(s), guest);
      TlbKept(s.mem, s1.mem, s.trackers, s1.trackers, s.vcpus, s1.vcpus, s.cpus);
    }
  }

  lemma InitialAccounts()
    ensures Tlb.Accounts(Tlb.INITIAL, map[])
  {
    assert Tlb.Holders(map[], 0) == {};
  }

  lemma StableNewVm(m: Mem, n: Mem, vers: Versions, guest: OwnerId)
    requires MemInv(m) && Stable(m, n, vers) && guest !in m.vms
    ensures Stable(m, n, vers[guest := Window(0, 0)])
  {
    hide MemInv;
    FreshVm(m, guest);
  }

  /** The vCPUs of the other VMs. */
  ghost function Others(vcpus: Vcpus, guest: OwnerId): (r: Vcpus) {
    map x | x in vcpus && vcpus[x].vm != guest :: vcpus[x]
  }

  lemma OthersKept(trackers: Trackers, vcpus: Vcpus, cpus: Cpus, guest: OwnerId)
    requires VcpusOk(trackers, vcpus, cpus) && TrackersOk(trackers, vcpus) && OneAtATime(vcpus)
    ensures VcpusOk(trackers - {guest}, Others(vcpus, guest), cpus)
    ensures TrackersOk(trackers - {guest}, Others(vcpus, guest)) && OneAtATime(Others(vcpus, guest))
    ensures Windows(trackers - {guest}) == VersionsWithout(Windows(trackers), guest)
  {
    hide Tlb.Accounts;
    var b := Others(vcpus, guest);
    forall x | x in b ensures VcpuOk(b[x], trackers - {guest}, cpus) {
      assert VcpuOk(vcpus[x], trackers, cpus);
    }
    forall vm | vm in trackers - {guest} ensures Tlb.Accounts(trackers[vm], Handles(b, vm)) {
      SameHandles(vcpus, b, vm);
    }
  }

  lemma DestroyVmKeeps(s: Sys, guest: OwnerId)
    requires SysInv(s)
    ensures DestroyVm(s, guest).Some? && SysInv(DestroyVm(s, guest).value)
  {
    hide MemInv, Unlocked, Stable, Fresh, VmidsOk, TlbOk, TrackersOk, VcpusOk, OneAtATime, Windows, Destroy, Destroyed;
    if DestroyVm(s, guest) != Some(s) {
      DestroyKeeps(s.mem, guest, Vers(s));
      var s1 := DestroyVm(s, guest).value;
      assert s1.vcpus == Others(s.vcpus, guest);
      OthersKept(s.trackers, s.vcpus, s.cpus, guest);
      VmidsKept(s.vcpus, s1.vcpus, s.cpus);
      TlbKept(s.mem, s1.mem, s.trackers, s1.trackers, s.vcpus, s1.vcpus, s.cpus);
    }
  }

  /* ---------------- Runs ---------------- */

  lemma DoKeeps(s: Sys, step: Step)
    requires SysInv(s)
    ensures Do(s, step).None? <==> step.Ask? && Fatal(s.mem, Vers(s), step.request)
    ensures Do(s, step).Some? ==> SysInv(Do(s, step).value)
  {
    hide SysInv, AddGuest, DestroyVm, AddVcpu, SwitchOn, SwitchOff, Claim, Enter, Leave, Unclaim, FillTlb, EvictTlb,
         Fence;
    hide ChangeSharing, Serve, Fatal;
    match step
    case NewVm(guest) => AddGuestKeeps(s, guest);
    case DropVm(guest) => DestroyVmKeeps(s, guest);
    case NewVcpu(x, vm) => AddVcpuKeeps(s, x, vm);
    case PowerOn(x) => SwitchKeeps(s, x);
    case PowerOff(x) => SwitchKeeps(s, x);
    case Take(x, cpu) => ClaimKeeps(s, x, cpu);
    case GoIn(x) => EnterKeeps(s, x);
    case ComeOut(x) => LeaveKeeps(s, x);
    case GiveBack(x) => UnclaimKeeps(s, x);
    case Fill(x, gpn) => FillKeeps(s, x, gpn);
    case Evict(cpu, e) => EvictKeeps(s, cpu, e);
    case Shootdown(vm) => FenceKeeps(s, vm);
    case ShareMem(x, g, n, room) => ShareKeeps(s, x, g, n, room, false);
    case UnshareMem(x, g, n, room) => ShareKeeps(s, x, g, n, room, true);
    case Ask(r) => ServeKeeps(s, r);
  }

  /** The invariant holds at the end of every run. */
  lemma {:induction false} RunKeeps(s: Sys, steps: seq<Step>)
    requires SysInv(s)
    ensures Run(s, steps).Some? ==> SysInv(Run(s, steps).value)
    decreases |steps|
  {
    hide SysInv, Do, Fatal;
    if steps != [] {
      DoKeeps(s, steps[0]);
      if Do(s, steps[0]).Some? { RunKeeps(Do(s, steps[0]).value, steps[1..]); }
    }
  }

  /** Step `i` of the run is a request that is fatal where the run has got to. */
  ghost predicate FatalAt(s: Sys, steps: seq<Step>, i: nat)
    requires i < |steps|
  {
    && steps[i].Ask? && Run(s, steps[..i]).Some?
    && var s1 := Run(s, steps[..i]).value; Fatal(s1.mem, Vers(s1), steps[i].request)
  }

  lemma FatalLater(s: Sys, steps: seq<Step>, i: nat)
    requires 0 < i < |steps| && Do(s, steps[0]).Some?
    ensures FatalAt(s, steps, i) <==> FatalAt(Do(s, steps[0]).value, steps[1..], i - 1)
  {
    hide Do, Fatal;
    assert steps[..i][0] == steps[0] && steps[..i][1..] == steps[1..][..i - 1];
  }

  /** A run panics if and only if it comes to a fatal request. */
  lemma {:induction false} RunPanicsIff(s: Sys, steps: seq<Step>)
    requires SysInv(s)
    ensures Run(s, steps).None? <==> exists i: nat | i < |steps| :: FatalAt(s, steps, i)
    decreases |steps|
  {
    hide SysInv, Do, Fatal, FatalAt;
    if steps != [] {
      DoKeeps(s, steps[0]);
      FatalFirst(s, steps);
      if Do(s, steps[0]).Some? {
        var s1 := Do(s, steps[0]).value;
        RunPanicsIff(s1, steps[1..]);
        forall i: nat | i + 1 < |steps| ensures FatalAt(s, steps, i + 1) <==> FatalAt(s1, steps[1..], i) {
          FatalLater(s, steps, i + 1);
        }
        if i: nat :| i < |steps| && FatalAt(s, steps, i) {
          assert i > 0 && FatalAt(s1, steps[1..], i - 1);
        }
      }
    }
  }

  lemma FatalFirst(s: Sys, steps: seq<Step>)
    requires steps != []
    ensures FatalAt(s, steps, 0) <==> steps[0].Ask? && Fatal(s.mem, Vers(s), steps[0].request)
  {
    hide Fatal;
    assert steps[..0] == [];
  }

  lemma ModestIsFine(m: Mem, vers: Versions, r: Request)
    requires Modest(r)
    ensures !Fatal(m, vers, r)
  {
  }
}
