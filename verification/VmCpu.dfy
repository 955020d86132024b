/** vCPUs and physical CPUs as objects: what the steps of the machine do to them, in place. */
module VmCpus {
  import opened Basics
  import opened PageInfos
  import opened VmIds
  import opened System
  import Tlb = TlbTrackers

  datatype CpuError = VmCpuBlocked | VmCpuRunning | VmCpuOff

  datatype CpuResult = CpuOk | CpuErr(error: CpuError)

  /* ---------------- The steps, for the objects they are about ---------------- */

  /** Entering an address space, for the vCPU, the versions of its VM and the CPU. */
  function Entered(v: Vcpu, t: Tlb.Tracker, c: Cpu): (r: (Vcpu, Tlb.Tracker, Cpu))
    requires c.ids.next < c.ids.count
  {
    var (cpu, id, was) := PickVmid(v, c);
    var tlb := if was.Some? && was.value < t.current.version then FlushVmid(cpu.tlb, id.vmid) else cpu.tlb;
    (v.(active := true, prev := Some(PrevTlb(v.on, id, t.current.version))), Tlb.Get(t), cpu.(tlb := tlb))
  }

  /** The step of the machine changes these three and nothing else. */
  lemma EnterIs(s: Sys, x: nat)
    requires SysInv(s) && x in s.vcpus && s.vcpus[x].status == Running && !s.vcpus[x].active
             && !Occupied(s, s.vcpus[x].on)
    ensures var v := s.vcpus[x];
            && v.on in s.cpus && v.vm in s.trackers && s.cpus[v.on].ids.next < s.cpus[v.on].ids.count
            && var (w, t, c) := Entered(v, s.trackers[v.vm], s.cpus[v.on]);
               Enter(s, x) == Some(s.(trackers := s.trackers[v.vm := t], vcpus := s.vcpus[x := w], cpus :=
                                      s.cpus[v.on := c]))
  {
    hide MemOk, TrackersOk, TlbOk, OneAtATime;
    assert VcpuOk(s.vcpus[x], s.trackers, s.cpus);
  }

  /** Leaving it: the vCPU, the versions, and whether a shootdown is over; none if the reference was not held. */
  function Left(v: Vcpu, t: Tlb.Tracker): (r: Option<(Vcpu, Tlb.Tracker, bool)>) {
    if !v.active then Some((v, t, false))
    else if v.prev.None? then None
    else match Tlb.Put(t, v.prev.value.version)
      case TlbErr(_) => None
      case TlbOk(p) => Some((v.(active := false), p.0, p.1))
  }

  /** The versions are accounted for by the handles, and vCPU `x` has one of them exactly while it is inside its address
      space. */
  ghost predicate Accounted(v: Vcpu, t: Tlb.Tracker, handles: map<nat, nat>, x: nat) {
    && Tlb.Accounts(t, handles)
    && (if v.active then v.prev.Some? && x in handles && handles[x] == v.prev.value.version else x !in handles)
  }

  /** In every state of the machine, the vCPU accounts for its version, so that leaving cannot fail; and the step of the
      machine changes the vCPU and the versions so, and completes what is due exactly if the shootdown is over. */
  lemma LeaveIs(s: Sys, x: nat)
    requires SysInv(s) && x in s.vcpus
    ensures var v := s.vcpus[x];
            && v.vm in s.trackers && Accounted(v, s.trackers[v.vm], Handles(s.vcpus, v.vm), x)
            && Left(v, s.trackers[v.vm]).Some?
            && var r := Left(v, s.trackers[v.vm]).value;
               var s1 := s.(trackers := s.trackers[v.vm := r.1], vcpus := s.vcpus[x := r.0]);
               Leave(s, x) == if r.2 then ShotDown(s1, v.vm) else Some(s1)
  {
    hide MemOk, TlbOk, OneAtATime, VmidsOk, Tlb.Put, Tlb.Accounts, ShotDown;
    var v := s.vcpus[x];
    assert VcpuOk(v, s.trackers, s.cpus);
    var h := Handles(s.vcpus, v.vm);
    assert Tlb.Accounts(s.trackers[v.vm], h);
    if v.active {
      Tlb.PutAccounts(s.trackers[v.vm], h, x);
    } else {
      assert s.vcpus[x := v] == s.vcpus && s.trackers[v.vm := s.trackers[v.vm]] == s.trackers;
    }
  }

  /** activate, up to the point where the vCPU enters its address space: what it becomes, or why not. */
  function Activated(v: Vcpu, min: nat, cpu: nat): (r: (CpuResult, Vcpu)) {
    match v.status
    case Blocked(version) => if version > min then (CpuErr(VmCpuBlocked), v) else (CpuOk, Taken(v, cpu))
    case Runnable => (CpuOk, Taken(v, cpu))
    case Running => (CpuErr(VmCpuRunning), v)
    case PoweredOff => (CpuErr(VmCpuOff), v)
  }

  /** On a CPU other than the last one, the VMID and the version that were in use there mean nothing. */
  function Taken(v: Vcpu, cpu: nat): (w: Vcpu) {
    v.(status := Running, next := Runnable, on := cpu, prev := if v.prev.Some? && v.prev.value.cpu == cpu then v.prev
       else None)
  }

  lemma ClaimIs(s: Sys, x: nat, cpu: nat)
    requires x in s.vcpus && cpu in s.cpus && s.vcpus[x].vm in s.trackers
    ensures Claim(s, x, cpu) ==
            s.(vcpus := s.vcpus[x := Activated(s.vcpus[x], Tlb.MinVersion(s.trackers[s.vcpus[x].vm]), cpu).1])
  {
    assert s.vcpus[x := s.vcpus[x]] == s.vcpus;
  }

  /* ---------------- The objects ---------------- */

  class PhysCpu {
    const ids: VmIdTracker
    var tlb: set<TlbEntry>

    ghost predicate Valid()
      reads this, ids
    {
      ids.Valid()
    }

    ghost function View(): (c: Cpu)
      reads this, ids
    {
      Cpu(ids.View(), tlb)
    }

    constructor (ids: VmIdTracker, tlb: set<TlbEntry>)
      ensures this.ids == ids && this.tlb == tlb
    {
      this.ids, this.tlb := ids, tlb;
    }

    /** Removes the translations of one VMID from the TLB. */
    method Hfence(vmid: nat)
      modifies this`tlb
      ensures tlb == FlushVmid(old(tlb), vmid)
    {
      tlb := set e | e in tlb && e.vmid != vmid;
    }

    /** A new VMID; the TLB is empty afterwards if the numbers start over. */
    method TakeVmid() returns (id: VmId)
      requires Valid()
      modifies this`tlb, ids
      ensures Valid() && ids.View() == NextVmId(old(ids.View())).0 && id == NextVmId(old(ids.View())).1
      ensures tlb == if NextVmId(old(ids.View())).2 then {} else old(tlb)
    {
      id := ids.DoNextVmId();
      if ids.flushed { tlb := {}; }
    }
  }

  class VmCpu {
    const vm: OwnerId
    var status: Status
    var next: Status
    var on: nat
    var prev: Option<PrevTlb>
    var active: bool

    ghost function View(): (v: Vcpu)
      reads this
    {
      Vcpu(vm, status, next, on, prev, active)
    }

    constructor (vm: OwnerId)
      ensures View() == Vcpu(vm, PoweredOff, Runnable, 0, None, false)
    {
      this.vm, status, next, on, prev, active := vm, PoweredOff, Runnable, 0, None, false;
    }

    /** Takes the right to run the vCPU on a CPU. */
    method DoActivate(tracker: Tlb.TlbTracker, cpu: nat) returns (r: CpuResult)
      modifies this
      ensures (r, View()) == Activated(old(View()), Tlb.MinVersion(tracker.View()), cpu)
      ensures tracker.View() == old(tracker.View())
    {
      var min := tracker.DoMinVersion();
      match status {
        case PoweredOff => return CpuErr(VmCpuOff);
        case Running => return CpuErr(VmCpuRunning);
        case Blocked(version) => if version > min { return CpuErr(VmCpuBlocked); }
        case Runnable =>
      }
      if prev.Some? && prev.value.cpu != cpu { prev := None; }
      next, on := Runnable, cpu;
      status := Running;
      return CpuOk;
    }

    /** restore_vm_pages on the CPU that the vCPU has been activated on. */
    method DoRestoreVmPages(tracker: Tlb.TlbTracker, cpu: PhysCpu)
      requires cpu.Valid() && !active
      modifies this`prev, this`active, tracker, cpu`tlb, cpu.ids
      ensures cpu.Valid()
      ensures (View(), tracker.View(), cpu.View()) == Entered(old(View()), old(tracker.View()), old(cpu.View()))
    {
      var id: VmId;
      var was: Option<nat> := None;
      if prev.Some? && prev.value.id.version == cpu.ids.version {
        id, was := prev.value.id, Some(prev.value.version);
      } else {
        id := cpu.TakeVmid();
      }
      var version := tracker.DoGet();
      if was.Some? && was.value < version { cpu.Hfence(id.vmid); }
      prev, active := Some(PrevTlb(on, id, version)), true;
    }

    /** Drops the reference to the address space, if there is one; whether that ends a shootdown. The account says that
        the reference is counted, so that it can be put back. */
    method DoLeave(tracker: Tlb.TlbTracker, ghost handles: map<nat, nat>, ghost x: nat) returns (done: bool)
      requires Accounted(View(), tracker.View(), handles, x)
      modifies this`active, tracker
      ensures Some((View(), tracker.View(), done)) == Left(old(View()), old(tracker.View()))
      ensures !active && Accounted(View(), tracker.View(), handles - {x}, x)
    {
      hide Tlb.Accounts, Tlb.Put;
      if !active {
        assert handles - {x} == handles;
        return false;
      }
      Tlb.PutAccounts(tracker.View(), handles, x);
      var r := tracker.DoPut(prev.value.version);
      active := false;
      return r.value;
    }

    /** Performs pending TLB maintenance: leaves and enters again. */
    method DoSyncTlb(tracker: Tlb.TlbTracker, cpu: PhysCpu, ghost handles: map<nat, nat>, ghost x: nat)
      returns (done: bool)
      requires cpu.Valid() && Accounted(View(), tracker.View(), handles, x)
      modifies this`prev, this`active, tracker, cpu`tlb, cpu.ids
      ensures cpu.Valid() && Left(old(View()), old(tracker.View())).Some?
      ensures var l := Left(old(View()), old(tracker.View())).value;
              done == l.2 && (View(), tracker.View(), cpu.View()) == Entered(l.0, l.1, old(cpu.View()))
      ensures Accounted(View(), tracker.View(), (handles - {x})[x := tracker.View().current.version], x)
    {
      hide Tlb.Accounts;
      done := DoLeave(tracker, handles, x);
      Tlb.GetAccounts(tracker.View(), handles - {x}, x);
      DoRestoreVmPages(tracker, cpu);
    }
  }
}
