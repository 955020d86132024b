/** The whole machine as a transition system: memory and page tables, TLB versions of each VM, vCPUs that
    move between physical CPUs, VMIDs that roll over, and the TLB of each CPU, filled at any time from the
    table of the VM that runs there. `None` stands for a panic of the hypervisor. */
module System {
  import opened Basics
  import opened PageInfos
  import opened Memory
  import opened Hypercalls
  import opened Conversions
  import opened Lifecycle
  import opened Teardown
  import opened VmIds
  import Tlb = TlbTrackers

  datatype Status = PoweredOff | Runnable | Running | Blocked(version: nat)

  /** The VMID and TLB version with which a vCPU last entered its address space, and the CPU it did so on. */
  datatype PrevTlb = PrevTlb(cpu: nat, id: VmId, version: nat)

  /** `on` is the CPU that runs the vCPU, `next` the status it takes when it stops running, and `active`
      says that it is inside its address space, holding a reference to the TLB version in `prev`. */
  datatype Vcpu = Vcpu(vm: OwnerId, status: Status, next: Status, on: nat, prev: Option<PrevTlb>, active: bool)

  datatype TlbEntry = TlbEntry(vmid: nat, gpn: nat, page: nat)

  datatype Cpu = Cpu(ids: Ids, tlb: set<TlbEntry>)

  datatype Sys = Sys(mem: Mem, trackers: map<OwnerId, Tlb.Tracker>, vcpus: map<nat, Vcpu>, cpus: map<nat, Cpu>)

  /* ---------------- Operations ---------------- */

  function Windows(trackers: map<OwnerId, Tlb.Tracker>): (v: Versions) {
    map vm | vm in trackers :: Window(Tlb.MinVersion(trackers[vm]), trackers[vm].current.version)
  }

  function Vers(s: Sys): (v: Versions) {
    Windows(s.trackers)
  }

  /** What happens when a TLB shootdown of `vm` is over. */
  ghost function ShotDown(s: Sys, vm: OwnerId): (r: Option<Sys>) {
    if vm !in s.trackers then None
    else match Complete(s.mem, vm, Tlb.MinVersion(s.trackers[vm]))
      case None => None
      case Some(m) => Some(s.(mem := m))
  }

  /** The vCPU leaves its address space and drops its reference to the TLB version. */
  ghost function Leave(s: Sys, x: nat): (r: Option<Sys>) {
    if x !in s.vcpus || !s.vcpus[x].active then Some(s)
    else
      var v := s.vcpus[x];
      if v.prev.None? || v.vm !in s.trackers then None
      else match Tlb.Put(s.trackers[v.vm], v.prev.value.version)
        case TlbErr(_) => None
        case TlbOk(p) =>
          var s1 := s.(trackers := s.trackers[v.vm := p.0], vcpus := s.vcpus[x := v.(active := false)]);
          if p.1 then ShotDown(s1, v.vm) else Some(s1)
  }

  predicate Occupied(s: Sys, cpu: nat) {
    exists y | y in s.vcpus :: s.vcpus[y].active && s.vcpus[y].on == cpu
  }

  function FlushVmid(tlb: set<TlbEntry>, vmid: nat): (r: set<TlbEntry>) {
    set e | e in tlb && e.vmid != vmid
  }

  /** restore_vm_pages: the VMID to use on this CPU, and the TLB version it was last used with. */
  function PickVmid(v: Vcpu, cpu: Cpu): (r: (Cpu, VmId, Option<nat>))
    requires cpu.ids.next < cpu.ids.count
  {
    if v.prev.Some? && v.prev.value.id.version == cpu.ids.version
       then (cpu, v.prev.value.id, Some(v.prev.value.version))
    else
      var (ids, id, flush) := NextVmId(cpu.ids);
      (Cpu(ids, if flush then {} else cpu.tlb), id, None)
  }

  /** The vCPU enters its address space: it takes a reference to the current TLB version, and fences if the
      VMID was last used with an older one. */
  function Enter(s: Sys, x: nat): (r: Option<Sys>) {
    if x !in s.vcpus || s.vcpus[x].status != Running || s.vcpus[x].active || Occupied(s, s.vcpus[x].on) then Some(s)
    else
      var v := s.vcpus[x];
      if v.on !in s.cpus || v.vm !in s.trackers || s.cpus[v.on].ids.next >= s.cpus[v.on].ids.count then None
      else
        var (cpu, id, was) := PickVmid(v, s.cpus[v.on]);
        var t := s.trackers[v.vm];
        var tlb := if was.Some? && was.value < t.current.version then FlushVmid(cpu.tlb, id.vmid) else cpu.tlb;
        Some(s.(trackers := s.trackers[v.vm := Tlb.Get(t)],
                vcpus := s.vcpus[x := v.(active := true, prev := Some(PrevTlb(v.on, id, t.current.version)))],
                cpus := s.cpus[v.on := cpu.(tlb := tlb)]))
  }

  /** activate, up to the point where the vCPU enters its address space. */
  function Claim(s: Sys, x: nat, cpu: nat): (r: Sys) {
    if x !in s.vcpus || cpu !in s.cpus || s.vcpus[x].vm !in s.trackers then s
    else
      var v := s.vcpus[x];
      if v.status == Runnable || (v.status.Blocked? && v.status.version <= Tlb.MinVersion(s.trackers[v.vm])) then
        s.(vcpus := s.vcpus[x := v.(status := Running, next := Runnable, on := cpu,
                                    prev := if v.prev.Some? && v.prev.value.cpu == cpu then v.prev else None)])
      else s
  }

  /** The claim on the vCPU ends; it has left its address space before. */
  function Unclaim(s: Sys, x: nat): (r: Sys) {
    if x in s.vcpus && s.vcpus[x].status == Running && !s.vcpus[x].active then
      s.(vcpus := s.vcpus[x := s.vcpus[x].(status := s.vcpus[x].next)])
    else s
  }

  function AddVcpu(s: Sys, x: nat, vm: OwnerId): (r: Sys) {
    if x in s.vcpus || vm !in s.trackers then s
    else s.(vcpus := s.vcpus[x := Vcpu(vm, PoweredOff, Runnable, 0, None, false)])
  }

  function SwitchOn(s: Sys, x: nat): (r: Sys) {
    if x !in s.vcpus || s.vcpus[x].status != PoweredOff then s
    else s.(vcpus := s.vcpus[x := s.vcpus[x].(status := Runnable)])
  }

  /** The vCPU exits for good; it stops running when the claim on it ends. */
  function SwitchOff(s: Sys, x: nat): (r: Sys) {
    if x !in s.vcpus || !s.vcpus[x].active then s
    else s.(vcpus := s.vcpus[x := s.vcpus[x].(next := PoweredOff)])
  }

  /** A fence on the address space of `vm`; refused while an earlier one is not over. */
  ghost function Fence(s: Sys, vm: OwnerId): (r: Option<Sys>) {
    if vm !in s.trackers then Some(s)
    else match Tlb.Increment(s.trackers[vm])
      case TlbErr(_) => Some(s)
      case TlbOk(p) =>
        var s1 := s.(trackers := s.trackers[vm := p.0]);
        if p.1 then ShotDown(s1, vm) else Some(s1)
  }

  /** The calls that work on memory alone. The hypervisor itself computes how many pages to pin, less than 2^52; all
      other counts are as a VM gives them. */
  datatype Request =
    | AskConvert(vm: OwnerId, g: nat, n: nat)
    | AskReclaim(vm: OwnerId, g: nat, n: nat)
    | AskAdd(guest: OwnerId, from: nat, to: nat, n: nat, tables: bool, copied: nat)
    | AskAddInternal(guest: OwnerId, from: nat, n: nat, accepted: bool)
    | AskAddShared(guest: OwnerId, from: nat, to: nat, n: nat, tables: bool)
    | AskPin(vm: OwnerId, g: nat, n: nat)
    | AskUnpin(p: nat, owner: OwnerId)
    | AskRegion(vm: OwnerId, g: nat, n: nat, shared: bool, room: bool)

  ghost function Answer(m: Mem, vers: Versions, r: Request): (c: Call)
    requires HOST in vers
  {
    match r
    case AskConvert(vm, g, n) => ConvertPages(m, vm, g, n, vers[HOST].cur)
    case AskReclaim(vm, g, n) => if vm in vers then ReclaimPages(m, vm, g, n, vers[vm].min) else Failed(m)
    case AskAdd(guest, from, to, n, tables, copied) => AddPages(m, guest, from, to, n, tables, copied, vers[HOST].min)
    case AskAddInternal(guest, from, n, accepted) => AddInternalPages(m, guest, from, n, accepted, vers[HOST].min)
    case AskAddShared(guest, from, to, n, tables) => AddSharedPages(m, guest, from, to, n, tables)
    case AskPin(vm, g, n) => if n < PAGE_LIMIT then PinPages(m, vm, g, n) else Failed(m)
    case AskUnpin(p, owner) => UnpinPage(m, p, owner)
    case AskRegion(vm, g, n, shared, room) => AddRegion(m, vm, g, n, shared, room)
  }

  /** The requests that make the hypervisor panic: reclaiming pages that can be reclaimed by a range that goes on
      beyond the addresses that the table translates, and a range to lock in which entries repeat. */
  predicate Fatal(m: Mem, vers: Versions, r: Request) {
    match r
    case AskReclaim(vm, g, n) =>
      vm in vers && n > 0 && InSpace(g, n) && g + n > LIMIT && AllLockable(m, vm, g, Wrapped(n), vers[vm].min)
    case AskAdd(_, from, _, n, _, _) => HOST in vers && LocksTwice(m, HOST, from, n, vers[HOST].min)
    case AskAddInternal(_, from, n, _) => HOST in vers && LocksTwice(m, HOST, from, n, vers[HOST].min)
    case _ => false
  }

  /** What a VM can see to so that its requests are not fatal. */
  predicate Modest(r: Request) {
    match r
    case AskReclaim(_, g, n) => n == 0 || g + n <= LIMIT
    case AskAdd(_, _, _, n, _, _) => Wrapped(n) <= LIMIT
    case AskAddInternal(_, _, n, _) => Wrapped(n) <= LIMIT
    case _ => true
  }

  /** The vCPU asks to share memory with the host, or to take shared memory back, and is blocked if that
      has to wait for a TLB shootdown. */
  function ChangeSharing(s: Sys, x: nat, g: nat, n: nat, room: bool, back: bool): (r: Option<Sys>) {
    if x !in s.vcpus || !s.vcpus[x].active || s.vcpus[x].vm !in s.trackers then Some(s)
    else
      var v := s.vcpus[x];
      var win := Vers(s)[v.vm];
      match if back then UnshareBegin(s.mem, v.vm, g, n, win.cur, room)
        else ShareBegin(s.mem, v.vm, g, n, win.cur, room)
      case Panic => None
      case Failed(m) => Some(s.(mem := m))
      case Done(m) =>
        var wait := WaitFor(s.mem, v.vm, g, n, win);
        Some(s.(mem := m, vcpus := if wait > win.min then s.vcpus[x := v.(next := Blocked(wait))] else s.vcpus))
  }

  ghost function DestroyVm(s: Sys, guest: OwnerId): (r: Option<Sys>) {
    if guest == HOST || guest !in s.trackers || guest !in s.mem.vms
       || exists x | x in s.vcpus :: s.vcpus[x].vm == guest && s.vcpus[x].status == Running then Some(s)
    else match Destroy(s.mem, guest)
      case None => None
      case Some(m) =>
        Some(Sys(m, s.trackers - {guest}, map x | x in s.vcpus && s.vcpus[x].vm != guest :: s.vcpus[x], s.cpus))
  }

  datatype Step =
    | NewVm(guest: OwnerId)
    | DropVm(guest: OwnerId)
    | NewVcpu(x: nat, vm: OwnerId)
    | PowerOn(x: nat)
    | PowerOff(x: nat)
    | Take(x: nat, cpu: nat)
    | GoIn(x: nat)
    | ComeOut(x: nat)
    | GiveBack(x: nat)
    | Fill(x: nat, gpn: nat)
    | Evict(cpu: nat, entry: TlbEntry)
    | Shootdown(vm: OwnerId)
    | ShareMem(x: nat, g: nat, n: nat, room: bool)
    | UnshareMem(x: nat, g: nat, n: nat, room: bool)
    | Ask(request: Request)

  /** The hardware caches a valid translation of the VM that runs on the CPU. */
  function FillTlb(s: Sys, x: nat, gpn: nat): (r: Sys) {
    if x !in s.vcpus || !s.vcpus[x].active || s.vcpus[x].prev.None? || s.vcpus[x].on !in s.cpus then s
    else
      var v := s.vcpus[x];
      var k := Key(v.vm, gpn);
      if k !in s.mem.ptes || !s.mem.ptes[k].Leaf? then s
      else
        var cpu := s.cpus[v.on];
        s.(cpus := s.cpus[v.on := cpu.(tlb := cpu.tlb + {TlbEntry(v.prev.value.id.vmid, gpn, s.mem.ptes[k].page)})])
  }

  function EvictTlb(s: Sys, cpu: nat, e: TlbEntry): (r: Sys) {
    if cpu !in s.cpus then s else s.(cpus := s.cpus[cpu := s.cpus[cpu].(tlb := s.cpus[cpu].tlb - {e})])
  }

  ghost function AddGuest(s: Sys, guest: OwnerId): (r: Option<Sys>) {
    match AddVm(s.mem, guest)
    case Done(m) => Some(s.(mem := m, trackers := s.trackers[guest := Tlb.INITIAL]))
    case Failed(m) => Some(s.(mem := m))
    case Panic => None
  }

  ghost function Serve(s: Sys, r: Request): (o: Option<Sys>) {
    if HOST !in s.trackers then None
    else match Answer(s.mem, Vers(s), r)
      case Panic => None
      case Done(m) => Some(s.(mem := m))
      case Failed(m) => Some(s.(mem := m))
  }

  ghost function Do(s: Sys, step: Step): (r: Option<Sys>) {
    match step
    case NewVm(guest) => AddGuest(s, guest)
    case DropVm(guest) => DestroyVm(s, guest)
    case NewVcpu(x, vm) => Some(AddVcpu(s, x, vm))
    case PowerOn(x) => Some(SwitchOn(s, x))
    case PowerOff(x) => Some(SwitchOff(s, x))
    case Take(x, cpu) => Some(Claim(s, x, cpu))
    case GoIn(x) => Enter(s, x)
    case ComeOut(x) => Leave(s, x)
    case GiveBack(x) => Some(Unclaim(s, x))
    case Fill(x, gpn) => Some(FillTlb(s, x, gpn))
    case Evict(cpu, e) => Some(EvictTlb(s, cpu, e))
    case Shootdown(vm) => Fence(s, vm)
    case ShareMem(x, g, n, room) => ChangeSharing(s, x, g, n, room, false)
    case UnshareMem(x, g, n, room) => ChangeSharing(s, x, g, n, room, true)
    case Ask(r) => Serve(s, r)
  }

  ghost function Run(s: Sys, steps: seq<Step>): (r: Option<Sys>)
    decreases |steps|
  {
    if steps == [] then Some(s)
    else match Do(s, steps[0])
      case None => None
      case Some(s1) => Run(s1, steps[1..])
  }

  /* ---------------- Invariant ---------------- */

  type Trackers = map<OwnerId, Tlb.Tracker>
  type Vcpus = map<nat, Vcpu>
  type Cpus = map<nat, Cpu>

  ghost predicate MemOk(m: Mem, vers: Versions) {
    MemInv(m) && Unlocked(m) && Fresh(m, vers)
  }

  /** The TLB versions held by the vCPUs of `vm` that are inside its address space. */
  ghost function Handles(vcpus: Vcpus, vm: OwnerId): (h: map<nat, nat>) {
    map x | x in vcpus && vcpus[x].vm == vm && vcpus[x].active && vcpus[x].prev.Some? :: vcpus[x].prev.value.version
  }

  ghost predicate TrackersOk(trackers: Trackers, vcpus: Vcpus) {
    forall vm | vm in trackers :: Tlb.Accounts(trackers[vm], Handles(vcpus, vm))
  }

  /** The VMID that the vCPU used last on `cpu` still belongs to it. */
  predicate Tagged(v: Vcpu, cpu: nat, cpus: Cpus) {
    && v.prev.Some? && v.prev.value.cpu == cpu && cpu in cpus
    && v.prev.value.id.version == cpus[cpu].ids.version
  }

  predicate VcpuOk(v: Vcpu, trackers: Trackers, cpus: Cpus) {
    && v.vm in trackers
    && (v.active ==> v.status == Running && Tagged(v, v.on, cpus))
    && (v.status == Running ==> v.on in cpus && v.next != Running && (v.prev.Some? ==> v.prev.value.cpu == v.on))
    && (v.prev.Some? ==>
          && v.prev.value.version <= trackers[v.vm].current.version
          && v.prev.value.cpu in cpus
          && v.prev.value.id.version <= cpus[v.prev.value.cpu].ids.version)
  }

  ghost predicate VcpusOk(trackers: Trackers, vcpus: Vcpus, cpus: Cpus) {
    forall x | x in vcpus :: VcpuOk(vcpus[x], trackers, cpus)
  }

  /** A CPU has one vCPU inside an address space at a time. */
  ghost predicate OneAtATime(vcpus: Vcpus) {
    forall x, y | x in vcpus && y in vcpus && vcpus[x].active && vcpus[y].active && vcpus[x].on == vcpus[y].on :: x == y
  }

  ghost predicate VmidsOk(vcpus: Vcpus, cpus: Cpus) {
    && (forall c | c in cpus :: cpus[c].ids.next < cpus[c].ids.count)
    && (forall c, e | c in cpus && e in cpus[c].tlb :: HandedOut(cpus[c].ids, e.vmid))
    && (forall x, c | x in vcpus && Tagged(vcpus[x], c, cpus) :: HandedOut(cpus[c].ids, vcpus[x].prev.value.id.vmid))
    && (forall x, y, c | x in vcpus && y in vcpus && Tagged(vcpus[x], c, cpus) && Tagged(vcpus[y], c, cpus)
                         && vcpus[x].prev.value.id.vmid == vcpus[y].prev.value.id.vmid :: x == y)
  }

  /** If the vCPU could run on without a fence, the cached translation is accounted for. */
  predicate Safe(m: Mem, trackers: Trackers, v: Vcpu, e: TlbEntry) {
    v.vm in trackers && v.prev.Some? && Tlb.MinVersion(trackers[v.vm]) <= v.prev.value.version ==>
      Covers(m, Key(v.vm, e.gpn), e.page, v.prev.value.version)
  }

  ghost predicate TlbOk(m: Mem, trackers: Trackers, vcpus: Vcpus, cpus: Cpus) {
    forall x, c, e | x in vcpus && Tagged(vcpus[x], c, cpus) && e in cpus[c].tlb
           && e.vmid == vcpus[x].prev.value.id.vmid ::
      Safe(m, trackers, vcpus[x], e)
  }

  ghost predicate SysInv(s: Sys) {
    && MemOk(s.mem, Vers(s))
    && TrackersOk(s.trackers, s.vcpus)
    && VcpusOk(s.trackers, s.vcpus, s.cpus)
    && OneAtATime(s.vcpus)
    && VmidsOk(s.vcpus, s.cpus)
    && TlbOk(s.mem, s.trackers, s.vcpus, s.cpus)
  }
}
