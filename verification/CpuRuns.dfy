/** The vCPUs over whole runs: which status can follow which, and how long a vCPU stays blocked. */
module CpuRuns {
  import opened Basics
  import opened PageInfos
  import opened Memory
  import opened MemorySteps
  import opened Hypercalls
  import opened Conversions
  import opened Lifecycle
  import opened System
  import opened SystemSafety
  import opened Theorems
  import Tlb = TlbTrackers

  /** What may come next for a vCPU, when the oldest version in use is `min`. */
  predicate Follows(was: Status, now: Status, min: nat) {
    || now == was
    || match was
       case PoweredOff => now == Runnable
       case Runnable => now == Running
       case Blocked(version) => now == Running && version <= min
       case Running => now != Running
  }

  /** What a step does to vCPU `x`, unless its VM is destroyed. */
  ghost predicate Moves(s: Sys, t: Sys, x: nat) {
    x in s.vcpus && s.vcpus[x].vm in s.trackers ==>
      && x in t.vcpus && t.vcpus[x].vm == s.vcpus[x].vm
      && Follows(s.vcpus[x].status, t.vcpus[x].status, Tlb.MinVersion(s.trackers[s.vcpus[x].vm]))
  }

  /** Neither the current version of VM `vm` nor the oldest in use goes back. */
  ghost predicate Rises(s: Sys, t: Sys, vm: OwnerId) {
    vm in s.trackers ==>
      && vm in t.trackers && Tlb.MinVersion(s.trackers[vm]) <= Tlb.MinVersion(t.trackers[vm])
      && s.trackers[vm].current.version <= t.trackers[vm].current.version
  }

  /** The step says something about vCPU `x` itself. */
  predicate Concerns(step: Step, x: nat) {
    match step
    case PowerOn(y) => y == x
    case PowerOff(y) => y == x
    case Take(y, _) => y == x
    case GiveBack(y) => y == x
    case ShareMem(y, _, _, _) => y == x
    case UnshareMem(y, _, _, _) => y == x
    case _ => false
  }

  /** The status of vCPU `x` is as it was, and so is the one it is to take. */
  ghost predicate Still(s: Sys, t: Sys, x: nat) {
    x in s.vcpus && s.vcpus[x].vm in s.trackers ==>
      x in t.vcpus && t.vcpus[x].status == s.vcpus[x].status && t.vcpus[x].next == s.vcpus[x].next
  }

  lemma SameMoves(s: Sys, t: Sys, x: nat, vm: OwnerId)
    requires t.vcpus == s.vcpus && t.trackers == s.trackers
    ensures Moves(s, t, x) && Rises(s, t, vm) && Still(s, t, x)
  {
  }

  lemma ServeMoves(s: Sys, r: Request, x: nat, vm: OwnerId)
    requires Serve(s, r).Some?
    ensures Moves(s, Serve(s, r).value, x) && Rises(s, Serve(s, r).value, vm) && Still(s, Serve(s, r).value, x)
  {
    hide Moves, Rises, Answer, Still;
    SameMoves(s, Serve(s, r).value, x, vm);
  }

  lemma ShareMoves(s: Sys, y: nat, g: nat, n: nat, room: bool, back: bool, x: nat, vm: OwnerId)
    requires ChangeSharing(s, y, g, n, room, back).Some?
    ensures var t := ChangeSharing(s, y, g, n, room, back).value;
            Moves(s, t, x) && Rises(s, t, vm) && (y != x ==> Still(s, t, x))
  {
  }

  lemma EnterMoves(s: Sys, y: nat, x: nat, vm: OwnerId)
    requires Enter(s, y).Some?
    ensures Moves(s, Enter(s, y).value, x) && Rises(s, Enter(s, y).value, vm) && Still(s, Enter(s, y).value, x)
  {
    hide PickVmid, FlushVmid;
  }

  lemma LeaveMoves(s: Sys, y: nat, x: nat, vm: OwnerId)
    requires SysInv(s) && Leave(s, y).Some?
    ensures Moves(s, Leave(s, y).value, x) && Rises(s, Leave(s, y).value, vm) && Still(s, Leave(s, y).value, x)
  {
    hide MemOk, VcpusOk, OneAtATime, VmidsOk, TlbOk, Tlb.Accounts, Tlb.Put, Tlb.MinVersion;
    if y in s.vcpus && s.vcpus[y].active && s.vcpus[y].prev.Some? && s.vcpus[y].vm in s.trackers {
      Tlb.PutAccounts(s.trackers[s.vcpus[y].vm], Handles(s.vcpus, s.vcpus[y].vm), y);
    }
  }

  lemma FenceMoves(s: Sys, w: OwnerId, x: nat, vm: OwnerId)
    requires SysInv(s) && Fence(s, w).Some?
    ensures Moves(s, Fence(s, w).value, x) && Rises(s, Fence(s, w).value, vm) && Still(s, Fence(s, w).value, x)
  {
    hide MemOk, VcpusOk, OneAtATime, VmidsOk, TlbOk, Tlb.Accounts, Tlb.Increment, Tlb.MinVersion;
    if w in s.trackers && Tlb.Increment(s.trackers[w]).TlbOk? {
      Tlb.IncrementAccounts(s.trackers[w], Handles(s.vcpus, w));
    }
  }

  lemma CpuMoves(s: Sys, y: nat, w: OwnerId, cpu: nat, e: TlbEntry, gpn: nat, x: nat, vm: OwnerId)
    ensures forall t | t in {AddVcpu(s, y, w), SwitchOn(s, y), SwitchOff(s, y), Claim(s, y, cpu), Unclaim(s, y),
                             FillTlb(s, y, gpn), EvictTlb(s, cpu, e)} && (SysInv(s) || t != Unclaim(s, y)) ::
              Moves(s, t, x) && Rises(s, t, vm)
    ensures y != x ==> forall t | t in {SwitchOn(s, y), SwitchOff(s, y), Claim(s, y, cpu), Unclaim(s, y)} ::
              Still(s, t, x)
    ensures forall t | t in {AddVcpu(s, y, w), FillTlb(s, y, gpn), EvictTlb(s, cpu, e)} :: Still(s, t, x)
  {
    hide MemOk, OneAtATime, VmidsOk, TlbOk, TrackersOk, Tlb.MinVersion;
    if SysInv(s) && y in s.vcpus { assert VcpuOk(s.vcpus[y], s.trackers, s.cpus); }
  }

  lemma GuestMoves(s: Sys, w: OwnerId, x: nat, vm: OwnerId)
    requires SysInv(s)
    ensures AddGuest(s, w).Some? ==>
              Moves(s, AddGuest(s, w).value, x) && Rises(s, AddGuest(s, w).value, vm)
              && Still(s, AddGuest(s, w).value, x)
    ensures DestroyVm(s, w).Some? && w != vm && (x in s.vcpus ==> s.vcpus[x].vm == vm) ==>
              Moves(s, DestroyVm(s, w).value, x) && Rises(s, DestroyVm(s, w).value, vm)
              && Still(s, DestroyVm(s, w).value, x)
  {
    hide MemInv, Unlocked, OneAtATime, VmidsOk, TlbOk, TrackersOk, VcpusOk, Tlb.MinVersion;
  }

  /** Every step of the machine but the destruction of its VM moves a vCPU as its status allows, and does not move
      it if it is about something else; and none makes the versions go back. */
  lemma StepMoves(s: Sys, step: Step, x: nat, vm: OwnerId)
    requires SysInv(s) && Do(s, step).Some? && step != DropVm(vm) && (x in s.vcpus ==> s.vcpus[x].vm == vm)
    ensures Moves(s, Do(s, step).value, x) && Rises(s, Do(s, step).value, vm)
    ensures !Concerns(step, x) ==> Still(s, Do(s, step).value, x)
  {
    hide SysInv, AddGuest, DestroyVm, AddVcpu, SwitchOn, SwitchOff, Claim, Enter, Leave, Unclaim, FillTlb, EvictTlb,
         Fence;
    hide ChangeSharing, Serve, Moves, Rises, Still;
    match step
    case NewVm(guest) => GuestMoves(s, guest, x, vm);
    case DropVm(guest) => GuestMoves(s, guest, x, vm);
    case NewVcpu(y, w) => CpuMoves(s, y, w, 0, TlbEntry(0, 0, 0), 0, x, vm);
    case PowerOn(y) => CpuMoves(s, y, vm, 0, TlbEntry(0, 0, 0), 0, x, vm);
    case PowerOff(y) => CpuMoves(s, y, vm, 0, TlbEntry(0, 0, 0), 0, x, vm);
    case Take(y, cpu) => CpuMoves(s, y, vm, cpu, TlbEntry(0, 0, 0), 0, x, vm);
    case GoIn(y) => EnterMoves(s, y, x, vm);
    case ComeOut(y) => LeaveMoves(s, y, x, vm);
    case GiveBack(y) => CpuMoves(s, y, vm, 0, TlbEntry(0, 0, 0), 0, x, vm);
    case Fill(y, gpn) => CpuMoves(s, y, vm, 0, TlbEntry(0, 0, 0), gpn, x, vm);
    case Evict(cpu, e) => CpuMoves(s, 0, vm, cpu, e, 0, x, vm);
    case Shootdown(w) => FenceMoves(s, w, x, vm);
    case ShareMem(y, g, n, room) => ShareMoves(s, y, g, n, room, false, x, vm);
    case UnshareMem(y, g, n, room) => ShareMoves(s, y, g, n, room, true, x, vm);
    case Ask(r) => ServeMoves(s, r, x, vm);
  }

  /** The vCPU is still blocked, or the version it waits for has come. */
  ghost predicate Waits(s: Sys, x: nat, vm: OwnerId, b: nat) {
    && x in s.vcpus && s.vcpus[x].vm == vm && vm in s.trackers
    && (s.vcpus[x].status == Blocked(b) || b <= Tlb.MinVersion(s.trackers[vm]))
  }

  lemma {:induction false} RunWaits(s: Sys, steps: seq<Step>, x: nat, vm: OwnerId, b: nat)
    requires SysInv(s) && Run(s, steps).Some? && DropVm(vm) !in steps && Waits(s, x, vm, b)
    ensures Waits(Run(s, steps).value, x, vm, b)
    decreases |steps|
  {
    hide SysInv, Do;
    if steps != [] {
      DoKeeps(s, steps[0]);
      StepMoves(s, steps[0], x, vm);
      RunWaits(Do(s, steps[0]).value, steps[1..], x, vm, b);
    }
  }

  /** A vCPU that is blocked until version `b` stays so in every run that does not destroy its VM, until that version
      is the oldest in use; and by then every conversion that began before `b` is complete. */
  lemma BlockedForAsLong(g: Given, before: seq<Step>, s: Sys, x: nat, b: nat, steps: seq<Step>, t: Sys, k: Key)
    requires Reached(g, before, s) && x in s.vcpus && s.vcpus[x].status == Blocked(b)
    requires Run(s, steps) == Some(t) && DropVm(s.vcpus[x].vm) !in steps
    ensures x in t.vcpus && t.vcpus[x].vm == s.vcpus[x].vm
    ensures t.vcpus[x].status != Blocked(b) && k in t.mem.regions && k.vm == s.vcpus[x].vm ==> !Overdue(t.mem, k, b)
  {
    hide Reached;
    ReachedInv(g, before, s);
    VcpuAt(s, x);
    hide SysInv;
    var vm := s.vcpus[x].vm;
    RunWaits(s, steps, x, vm, b);
    RunKeeps(s, steps);
    if k in t.mem.regions && k.vm == vm {
      InvMem(t);
      RegionKeys(t.mem);
    }
  }

  /* ---------------- What the steps do to one vCPU ---------------- */

  predicate CanTake(status: Status, min: nat) {
    status == Runnable || (status.Blocked? && status.version <= min)
  }

  /** The status of vCPU `x` of VM `vm`, and the one it is to take, before and after a step. */
  ghost predicate Turns(s: Sys, t: Sys, step: Step, x: nat, vm: OwnerId)
    requires x in s.vcpus && vm in s.trackers
  {
    && x in t.vcpus && vm in t.trackers && t.vcpus[x].vm == s.vcpus[x].vm
    && Tlb.MinVersion(s.trackers[vm]) <= Tlb.MinVersion(t.trackers[vm])
    && s.trackers[vm].current.version <= t.trackers[vm].current.version
    && var v, w, wait := s.vcpus[x], t.vcpus[x], Blocked(s.trackers[vm].current.version + 1);
       if !Concerns(step, x) then w.status == v.status && w.next == v.next
       else match step
         case PowerOn(_) => w.next == v.next && w.status == if v.status == PoweredOff then Runnable else v.status
         case PowerOff(_) => w.status == v.status && w.next == if v.active then PoweredOff else v.next
         case Take(_, cpu) =>
           if cpu in s.cpus && CanTake(v.status, Tlb.MinVersion(s.trackers[vm]))
           then w.status == Running && w.next == Runnable else w.status == v.status && w.next == v.next
         case GiveBack(_) => w.next == v.next && w.status == if v.status == Running && !v.active then v.next
                             else v.status
         case _ =>
           w.status == v.status && (w.next == v.next || (v.active && w.next == wait))
  }

  lemma TakeTurns(s: Sys, x: nat, cpu: nat, vm: OwnerId)
    requires x in s.vcpus && s.vcpus[x].vm == vm && vm in s.trackers
    ensures Do(s, Take(x, cpu)).Some? && Turns(s, Do(s, Take(x, cpu)).value, Take(x, cpu), x, vm)
  {
    hide Tlb.MinVersion;
  }

  lemma SwitchTurns(s: Sys, x: nat, vm: OwnerId)
    requires x in s.vcpus && s.vcpus[x].vm == vm && vm in s.trackers
    ensures Do(s, PowerOn(x)).Some? && Turns(s, Do(s, PowerOn(x)).value, PowerOn(x), x, vm)
    ensures Do(s, PowerOff(x)).Some? && Turns(s, Do(s, PowerOff(x)).value, PowerOff(x), x, vm)
    ensures Do(s, GiveBack(x)).Some? && Turns(s, Do(s, GiveBack(x)).value, GiveBack(x), x, vm)
  {
    hide Tlb.MinVersion;
  }

  lemma ShareTurns(s: Sys, x: nat, a: nat, n: nat, room: bool, back: bool, vm: OwnerId)
    requires x in s.vcpus && s.vcpus[x].vm == vm && vm in s.trackers
    requires Do(s, SharingStep(x, a, n, room, back)).Some?
             && Tlb.MinVersion(s.trackers[vm]) <= s.trackers[vm].current.version
    ensures Turns(s, Do(s, SharingStep(x, a, n, room, back)).value, SharingStep(x, a, n, room, back), x, vm)
  {
    hide Tlb.MinVersion, ShareBegin, UnshareBegin, Populated;
  }

  lemma MinBelow(s: Sys, vm: OwnerId)
    requires SysInv(s) && vm in s.trackers
    ensures Tlb.MinVersion(s.trackers[vm]) <= s.trackers[vm].current.version
  {
    hide MemOk, VcpusOk, OneAtATime, VmidsOk, TlbOk, TrackersOk;
    MinAtMostCurrent(s, vm);
  }

  lemma StepTurns(s: Sys, step: Step, x: nat, vm: OwnerId)
    requires SysInv(s) && Do(s, step).Some? && step != DropVm(vm) && x in s.vcpus && s.vcpus[x].vm == vm
    ensures vm in s.trackers && Turns(s, Do(s, step).value, step, x, vm)
  {
    hide SysInv, Do, Tlb.MinVersion, CanTake;
    ActiveIn(s, x);
    if Concerns(step, x) {
      hide Turns;
      match step
      case PowerOn(_) => SwitchTurns(s, x, vm);
      case PowerOff(_) => SwitchTurns(s, x, vm);
      case Take(_, cpu) => TakeTurns(s, x, cpu, vm);
      case GiveBack(_) => SwitchTurns(s, x, vm);
      case ShareMem(_, a, n, room) =>
        MinBelow(s, vm);
        ShareTurns(s, x, a, n, room, false, vm);
      case UnshareMem(_, a, n, room) =>
        MinBelow(s, vm);
        ShareTurns(s, x, a, n, room, true, vm);
    } else {
      StepMoves(s, step, x, vm);
    }
  }

  /* ---------------- After a call that has to wait ---------------- */

  function SharingStep(x: nat, a: nat, n: nat, room: bool, back: bool): (step: Step) {
    if back then UnshareMem(x, a, n, room) else ShareMem(x, a, n, room)
  }

  predicate IsSharing(step: Step, x: nat) {
    (step.ShareMem? || step.UnshareMem?) && step.x == x
  }

  /** vCPU `x`, inside its address space, asks to share a range with pages in it, or to take it back, and the call is
      done. */
  ghost predicate SharesPages(s: Sys, x: nat, a: nat, n: nat, room: bool, back: bool) {
    && x in s.vcpus && s.vcpus[x].active && s.vcpus[x].vm in s.trackers && Populated(s.mem, s.vcpus[x].vm, a, n)
    && var vm, cur := s.vcpus[x].vm, s.trackers[s.vcpus[x].vm].current.version;
       if back then UnshareBegin(s.mem, vm, a, n, cur, room).Done? else ShareBegin(s.mem, vm, a, n, cur, room).Done?
  }

  /** The step makes the vCPU run that did not. */
  ghost predicate Claims(s: Sys, step: Step, x: nat) {
    && x in s.vcpus && s.vcpus[x].status != Running
    && Do(s, step).Some? && x in Do(s, step).value.vcpus && Do(s, step).value.vcpus[x].status == Running
  }

  /** If vCPU `x` is not running, or when it stops, it is blocked until version `b` or a later one; or that is the
      oldest in use already. */
  ghost predicate HeldBack(s: Sys, x: nat, vm: OwnerId, b: nat) {
    && x in s.vcpus && s.vcpus[x].vm == vm && vm in s.trackers && b <= s.trackers[vm].current.version + 1
    && (b <= Tlb.MinVersion(s.trackers[vm])
        || (s.vcpus[x].status == Running && s.vcpus[x].next.Blocked? && b <= s.vcpus[x].next.version)
        || (s.vcpus[x].status.Blocked? && b <= s.vcpus[x].status.version))
  }

  lemma StepHeldBack(s: Sys, step: Step, x: nat, vm: OwnerId, b: nat)
    requires SysInv(s) && Do(s, step).Some? && HeldBack(s, x, vm, b) && step != DropVm(vm) && step != PowerOff(x)
    ensures HeldBack(Do(s, step).value, x, vm, b)
  {
    hide SysInv, Tlb.MinVersion, Do;
    StepTurns(s, step, x, vm);
    ActiveRuns(s, x);
  }

  lemma ActiveRuns(s: Sys, x: nat)
    requires SysInv(s) && x in s.vcpus
    ensures s.vcpus[x].active ==> s.vcpus[x].status == Running
    ensures s.vcpus[x].status == Running ==> s.vcpus[x].next != Running
  {
    hide MemOk, TrackersOk, OneAtATime, VmidsOk, TlbOk;
    assert VcpuOk(s.vcpus[x], s.trackers, s.cpus);
  }

  lemma {:induction false} RunHeldBack(s: Sys, steps: seq<Step>, x: nat, vm: OwnerId, b: nat)
    requires SysInv(s) && Run(s, steps).Some? && HeldBack(s, x, vm, b) && DropVm(vm) !in steps && PowerOff(x) !in steps
    ensures HeldBack(Run(s, steps).value, x, vm, b)
    decreases |steps|
  {
    hide SysInv, Do, HeldBack;
    if steps != [] {
      DoKeeps(s, steps[0]);
      StepHeldBack(s, steps[0], x, vm, b);
      RunHeldBack(Do(s, steps[0]).value, steps[1..], x, vm, b);
    }
  }

  lemma SharerHeldBack(g: Given, before: seq<Step>, s: Sys, x: nat, a: nat, n: nat, room: bool, back: bool)
    requires Reached(g, before, s) && SharesPages(s, x, a, n, room, back)
    ensures Do(s, SharingStep(x, a, n, room, back)).Some?
    ensures var vm := s.vcpus[x].vm;
            && HeldBack(Do(s, SharingStep(x, a, n, room, back)).value, x, vm, s.trackers[vm].current.version + 1)
            && SysInv(Do(s, SharingStep(x, a, n, room, back)).value)
            && Ahead(Do(s, SharingStep(x, a, n, room, back)).value, x, vm, s.trackers[vm].current.version + 1)
  {
    hide Reached, SysInv, ShareBegin, UnshareBegin, Populated, Tlb.MinVersion, Do;
    ReachedInv(g, before, s);
    ActiveRuns(s, x);
    NotEmpty(s.mem, s.vcpus[x].vm, a, n);
    SharerIsBlocked(g, before, s, x, a, n, room, back, a);
    SharingIs(s, x, a, n, room, back);
    DoKeeps(s, SharingStep(x, a, n, room, back));
    SharingTracks(s, x, a, n, room, back);
  }

  lemma NotEmpty(m: Mem, vm: OwnerId, a: nat, n: nat)
    requires Populated(m, vm, a, n)
    ensures n > 0
  {
  }

  lemma SharingIs(s: Sys, x: nat, a: nat, n: nat, room: bool, back: bool)
    ensures Do(s, SharingStep(x, a, n, room, back)) == ChangeSharing(s, x, a, n, room, back)
  {
    hide ChangeSharing;
  }

  lemma SharingTracks(s: Sys, x: nat, a: nat, n: nat, room: bool, back: bool)
    ensures ChangeSharing(s, x, a, n, room, back).Some? ==>
              ChangeSharing(s, x, a, n, room, back).value.trackers == s.trackers
  {
    hide ShareBegin, UnshareBegin, Populated, Tlb.MinVersion;
  }

  /** The run on from there. */
  lemma SharerAfter(g: Given, before: seq<Step>, s: Sys, x: nat, a: nat, n: nat, room: bool, back: bool,
                    steps: seq<Step>)
    requires Reached(g, before, s) && SharesPages(s, x, a, n, room, back)
    requires Run(s, [SharingStep(x, a, n, room, back)] + steps).Some?
    requires DropVm(s.vcpus[x].vm) !in steps && PowerOff(x) !in steps
    ensures s.vcpus[x].vm in s.trackers
    ensures var t, vm := Run(s, [SharingStep(x, a, n, room, back)] + steps).value, s.vcpus[x].vm;
            && SysInv(t) && HeldBack(t, x, vm, s.trackers[vm].current.version + 1)
            && ((forall i | 0 <= i < |steps| :: Idle(steps[i], x, vm)) ==>
                  Ahead(t, x, vm, s.trackers[vm].current.version + 1))
  {
    hide Reached, SharesPages, Do, HeldBack, Run, SysInv, Idle, Ahead;
    SharesAt(s, x, a, n, room, back);
    var vm := s.vcpus[x].vm;
    var b := s.trackers[vm].current.version + 1;
    SharerHeldBack(g, before, s, x, a, n, room, back);
    FirstStep(s, SharingStep(x, a, n, room, back), steps);
    var s1 := Do(s, SharingStep(x, a, n, room, back)).value;
    RunHeldBack(s1, steps, x, vm, b);
    RunKeeps(s1, steps);
    if forall i | 0 <= i < |steps| :: Idle(steps[i], x, vm) { RunAhead(s1, steps, x, vm, b); }
  }

  lemma HeldBackAt(s: Sys, x: nat, vm: OwnerId, b: nat)
    requires HeldBack(s, x, vm, b)
    ensures x in s.vcpus && s.vcpus[x].vm == vm && vm in s.trackers
  {
    hide Tlb.MinVersion;
  }

  /** A vCPU whose call to share memory, or to take it back, is on a range with pages in it is not claimed again, in any
      run on from there that neither ends it nor destroys its VM, while any page of the range is still pending from that
      call. */
  lemma SharerWaits(g: Given, before: seq<Step>, s: Sys, x: nat, a: nat, n: nat, room: bool, back: bool,
                    steps: seq<Step>, t: Sys, step: Step, j: nat)
    requires Reached(g, before, s) && SharesPages(s, x, a, n, room, back)
    requires Run(s, [SharingStep(x, a, n, room, back)] + steps) == Some(t)
    requires DropVm(s.vcpus[x].vm) !in steps && PowerOff(x) !in steps && step != DropVm(s.vcpus[x].vm)
    requires Claims(t, step, x) && a <= j < a + n && Key(s.vcpus[x].vm, j) in t.mem.regions
    ensures !Overdue(t.mem, Key(s.vcpus[x].vm, j), s.trackers[s.vcpus[x].vm].current.version + 1)
  {
    hide Reached, SharesPages, Do, HeldBack, Run, SysInv, Tlb.MinVersion, Claims, Overdue, Idle, Ahead;
    SharesAt(s, x, a, n, room, back);
    SharerAfter(g, before, s, x, a, n, room, back, steps);
    var vm := s.vcpus[x].vm;
    var b := s.trackers[vm].current.version + 1;
    HeldBackAt(t, x, vm, b);
    ClaimedMin(t, step, x, vm, b);
    NotOverdueBefore(t, Key(vm, j), b);
  }

  /** A call that is refused, or that finds no page in its range, does not make the vCPU wait. */
  lemma OthersDoNotWait(g: Given, before: seq<Step>, s: Sys, x: nat, a: nat, n: nat, room: bool, back: bool)
    requires Reached(g, before, s) && !SharesPages(s, x, a, n, room, back)
    ensures Do(s, SharingStep(x, a, n, room, back)).Some?
    ensures Do(s, SharingStep(x, a, n, room, back)).value.vcpus == s.vcpus
  {
    hide Reached, SysInv, Do, ChangeSharing, SharesPages;
    ReachedInv(g, before, s);
    DoKeeps(s, SharingStep(x, a, n, room, back));
    SharingIs(s, x, a, n, room, back);
    SharingLeaves(s, x, a, n, room, back);
  }

  lemma SharingLeaves(s: Sys, x: nat, a: nat, n: nat, room: bool, back: bool)
    requires !SharesPages(s, x, a, n, room, back) && ChangeSharing(s, x, a, n, room, back).Some?
    ensures ChangeSharing(s, x, a, n, room, back).value.vcpus == s.vcpus
  {
    hide ShareBegin, UnshareBegin, Populated, Tlb.MinVersion;
  }

  lemma SharesAt(s: Sys, x: nat, a: nat, n: nat, room: bool, back: bool)
    requires SharesPages(s, x, a, n, room, back)
    ensures x in s.vcpus && s.vcpus[x].active && s.vcpus[x].vm in s.trackers
  {
  }

  lemma FirstStep(s: Sys, step: Step, steps: seq<Step>)
    requires Run(s, [step] + steps).Some?
    ensures Do(s, step).Some? && Run(s, [step] + steps) == Run(Do(s, step).value, steps)
  {
    hide Do;
    assert ([step] + steps)[1..] == steps;
  }

  lemma ClaimedMin(t: Sys, step: Step, x: nat, vm: OwnerId, b: nat)
    requires SysInv(t) && HeldBack(t, x, vm, b) && Claims(t, step, x) && step != DropVm(vm)
    ensures b <= Tlb.MinVersion(t.trackers[vm])
  {
    hide SysInv, Do, Tlb.MinVersion;
    StepMoves(t, step, x, vm);
  }

  lemma NotOverdueBefore(t: Sys, k: Key, b: nat)
    requires SysInv(t) && k in t.mem.regions && k.vm in t.trackers && b <= Tlb.MinVersion(t.trackers[k.vm])
    ensures !Overdue(t.mem, k, b)
  {
    hide SysInv, MemInv, Tlb.MinVersion;
    InvMem(t);
  }

  /* ---------------- What a stopped vCPU can do ---------------- */

  /** A vCPU that is not running can be claimed at once, and so can a running one when it stops. */
  ghost predicate Free(s: Sys, x: nat, vm: OwnerId) {
    && x in s.vcpus && s.vcpus[x].vm == vm && vm in s.trackers
    && (s.vcpus[x].status == Runnable || (s.vcpus[x].status == Running && s.vcpus[x].next == Runnable))
  }

  /** The same, or it is blocked until exactly version `b`. */
  ghost predicate Ahead(s: Sys, x: nat, vm: OwnerId, b: nat) {
    && x in s.vcpus && s.vcpus[x].vm == vm && vm in s.trackers
    && (|| Free(s, x, vm) || s.vcpus[x].status == Blocked(b)
        || (s.vcpus[x].status == Running && s.vcpus[x].next == Blocked(b)))
  }

  /** The vCPU is off, or running and to be off when it stops. */
  ghost predicate Off(s: Sys, x: nat, vm: OwnerId) {
    && x in s.vcpus && s.vcpus[x].vm == vm && vm in s.trackers
    && (s.vcpus[x].status == PoweredOff || (s.vcpus[x].status == Running && s.vcpus[x].next == PoweredOff))
  }

  /** The steps that neither destroy the VM of vCPU `x`, nor end it, nor are calls of it to share memory. */
  predicate Idle(step: Step, x: nat, vm: OwnerId) {
    step != DropVm(vm) && step != PowerOff(x) && !IsSharing(step, x)
  }

  lemma StepAhead(s: Sys, step: Step, x: nat, vm: OwnerId, b: nat)
    requires SysInv(s) && Do(s, step).Some? && Idle(step, x, vm)
    ensures Ahead(s, x, vm, b) ==> Ahead(Do(s, step).value, x, vm, b)
    ensures Free(s, x, vm) ==> Free(Do(s, step).value, x, vm)
  {
    hide SysInv, Tlb.MinVersion, Do;
    if Ahead(s, x, vm, b) || Free(s, x, vm) { StepTurns(s, step, x, vm); }
  }

  lemma StepOff(s: Sys, step: Step, x: nat, vm: OwnerId)
    requires SysInv(s) && Do(s, step).Some? && Off(s, x, vm)
    requires step != DropVm(vm) && step != PowerOn(x) && !IsSharing(step, x)
    ensures Off(Do(s, step).value, x, vm)
  {
    hide SysInv, Tlb.MinVersion, Do;
    StepTurns(s, step, x, vm);
  }

  lemma {:induction false} RunAhead(s: Sys, steps: seq<Step>, x: nat, vm: OwnerId, b: nat)
    requires SysInv(s) && Run(s, steps).Some? && forall i | 0 <= i < |steps| :: Idle(steps[i], x, vm)
    ensures Ahead(s, x, vm, b) ==> Ahead(Run(s, steps).value, x, vm, b)
    ensures Free(s, x, vm) ==> Free(Run(s, steps).value, x, vm)
    decreases |steps|
  {
    hide SysInv, Do, Ahead, Free, Idle;
    if steps != [] {
      DoKeeps(s, steps[0]);
      StepAhead(s, steps[0], x, vm, b);
      RunAhead(Do(s, steps[0]).value, steps[1..], x, vm, b);
    }
  }

  lemma {:induction false} RunOff(s: Sys, steps: seq<Step>, x: nat, vm: OwnerId)
    requires SysInv(s) && Run(s, steps).Some? && Off(s, x, vm) && DropVm(vm) !in steps && PowerOn(x) !in steps
    requires forall i | 0 <= i < |steps| :: !IsSharing(steps[i], x)
    ensures Off(Run(s, steps).value, x, vm)
    decreases |steps|
  {
    hide SysInv, Do, Off;
    if steps != [] {
      DoKeeps(s, steps[0]);
      StepOff(s, steps[0], x, vm);
      RunOff(Do(s, steps[0]).value, steps[1..], x, vm);
    }
  }

  /** After such a call, and without another, a vCPU that has stopped can be claimed if and only if the version
      after that of the call is the oldest in use. */
  lemma SharerRunsIff(g: Given, before: seq<Step>, s: Sys, x: nat, a: nat, n: nat, room: bool, back: bool,
                      steps: seq<Step>, t: Sys, cpu: nat)
    requires Reached(g, before, s) && SharesPages(s, x, a, n, room, back)
    requires Run(s, [SharingStep(x, a, n, room, back)] + steps) == Some(t) && cpu in t.cpus
    requires forall i | 0 <= i < |steps| :: Idle(steps[i], x, s.vcpus[x].vm)
    ensures var vm := s.vcpus[x].vm;
            && x in t.vcpus && vm in t.trackers
            && (t.vcpus[x].status != Running ==>
                  (Claims(t, Take(x, cpu), x) <==>
                   s.trackers[vm].current.version < Tlb.MinVersion(t.trackers[vm])))
  {
    hide Reached, SharesPages, Do, HeldBack, Run, SysInv, Tlb.MinVersion, Claims, Idle, Ahead;
    SharesAt(s, x, a, n, room, back);
    IdleOnes(steps, x, s.vcpus[x].vm);
    SharerAfter(g, before, s, x, a, n, room, back, steps);
    var vm := s.vcpus[x].vm;
    var b := s.trackers[vm].current.version + 1;
    HeldBackAt(t, x, vm, b);
    if t.vcpus[x].status != Running {
      if Claims(t, Take(x, cpu), x) { ClaimedMin(t, Take(x, cpu), x, vm, b); }
      CanClaim(t, x, vm, cpu, b);
    }
  }

  lemma IdleOnes(steps: seq<Step>, x: nat, vm: OwnerId)
    requires forall i | 0 <= i < |steps| :: Idle(steps[i], x, vm)
    ensures DropVm(vm) !in steps && PowerOff(x) !in steps
  {
  }

  lemma CanClaim(t: Sys, x: nat, vm: OwnerId, cpu: nat, b: nat)
    requires Ahead(t, x, vm, b) && t.vcpus[x].status != Running && cpu in t.cpus
    ensures b <= Tlb.MinVersion(t.trackers[vm]) || Free(t, x, vm) ==> Claims(t, Take(x, cpu), x)
  {
    hide Tlb.MinVersion, Do;
    TakeTurns(t, x, cpu, vm);
  }

  /** A vCPU that has been claimed can be claimed again when it has stopped, unless it has ended or asked to share. */
  lemma RunsAgain(g: Given, before: seq<Step>, s: Sys, x: nat, cpu: nat, steps: seq<Step>, t: Sys, next: nat)
    requires Reached(g, before, s) && Claims(s, Take(x, cpu), x) && Run(s, [Take(x, cpu)] + steps) == Some(t)
    requires forall i | 0 <= i < |steps| :: Idle(steps[i], x, s.vcpus[x].vm)
    ensures x in t.vcpus && (t.vcpus[x].status != Running && next in t.cpus ==> Claims(t, Take(x, next), x))
  {
    hide Reached, Tlb.MinVersion, SysInv, Do, Idle, Run, Claims, Free, Ahead;
    ReachedInv(g, before, s);
    ClaimedIsFree(s, x, cpu);
    var vm := s.vcpus[x].vm;
    DoKeeps(s, Take(x, cpu));
    FirstStep(s, Take(x, cpu), steps);
    RunAhead(Do(s, Take(x, cpu)).value, steps, x, vm, 0);
    FreeAhead(t, x, vm, 0);
    if t.vcpus[x].status != Running && next in t.cpus { CanClaim(t, x, vm, next, 0); }
  }

  lemma ClaimedIsFree(s: Sys, x: nat, cpu: nat)
    requires SysInv(s) && Claims(s, Take(x, cpu), x)
    ensures x in s.vcpus && Do(s, Take(x, cpu)).Some? && Free(Do(s, Take(x, cpu)).value, x, s.vcpus[x].vm)
  {
    hide SysInv, Do, Tlb.MinVersion;
    StepTurns(s, Take(x, cpu), x, s.vcpus[x].vm);
  }

  lemma FreeAhead(s: Sys, x: nat, vm: OwnerId, b: nat)
    requires Free(s, x, vm)
    ensures x in s.vcpus && Ahead(s, x, vm, b)
  {
  }

  /** After it has ended and stopped, a vCPU is not claimed before it is powered on. */
  lemma StaysOff(g: Given, before: seq<Step>, s: Sys, x: nat, steps: seq<Step>, t: Sys, step: Step)
    requires Reached(g, before, s) && x in s.vcpus && s.vcpus[x].active && Run(s, [PowerOff(x)] + steps) == Some(t)
    requires DropVm(s.vcpus[x].vm) !in steps && PowerOn(x) !in steps && step != DropVm(s.vcpus[x].vm)
    requires forall i | 0 <= i < |steps| :: !IsSharing(steps[i], x)
    ensures !Claims(t, step, x)
  {
    hide Reached, Tlb.MinVersion, SysInv, Do, IsSharing, Run, Claims, Off;
    ReachedInv(g, before, s);
    ActiveIn(s, x);
    EndedIsOff(s, x, s.vcpus[x].vm);
    var vm := s.vcpus[x].vm;
    DoKeeps(s, PowerOff(x));
    FirstStep(s, PowerOff(x), steps);
    var s1 := Do(s, PowerOff(x)).value;
    RunOff(s1, steps, x, vm);
    RunKeeps(s1, steps);
    OffNotClaimed(t, step, x, vm);
  }

  lemma EndedIsOff(s: Sys, x: nat, vm: OwnerId)
    requires SysInv(s) && x in s.vcpus && s.vcpus[x].active && s.vcpus[x].vm == vm && vm in s.trackers
    ensures Do(s, PowerOff(x)).Some? && Off(Do(s, PowerOff(x)).value, x, vm)
  {
    hide SysInv, Do, Tlb.MinVersion;
    ActiveRuns(s, x);
    SwitchTurns(s, x, vm);
  }

  lemma OffNotClaimed(t: Sys, step: Step, x: nat, vm: OwnerId)
    requires SysInv(t) && Off(t, x, vm) && step != DropVm(vm)
    ensures !Claims(t, step, x)
  {
    hide SysInv, Do, Tlb.MinVersion;
    if Claims(t, step, x) { StepTurns(t, step, x, vm); }
  }

  lemma ActiveIn(s: Sys, x: nat)
    requires SysInv(s) && x in s.vcpus
    ensures s.vcpus[x].vm in s.trackers
  {
    hide MemOk, TrackersOk, OneAtATime, VmidsOk, TlbOk;
    assert VcpuOk(s.vcpus[x], s.trackers, s.cpus);
  }

  /** A new vCPU is not claimed before it is powered on. */
  lemma NewStaysOff(g: Given, before: seq<Step>, s: Sys, x: nat, vm: OwnerId, steps: seq<Step>, t: Sys, step: Step)
    requires Reached(g, before, s) && x !in s.vcpus && vm in s.trackers && Run(s, [NewVcpu(x, vm)] + steps) == Some(t)
    requires DropVm(vm) !in steps && PowerOn(x) !in steps && step != DropVm(vm)
    requires forall i | 0 <= i < |steps| :: !IsSharing(steps[i], x)
    ensures x in t.vcpus && t.vcpus[x].vm == vm && !Claims(t, step, x)
  {
    hide Reached, Tlb.MinVersion, SysInv, Do, IsSharing, Run, Claims;
    ReachedInv(g, before, s);
    NewIsOff(s, x, vm);
    DoKeeps(s, NewVcpu(x, vm));
    FirstStep(s, NewVcpu(x, vm), steps);
    var s1 := Do(s, NewVcpu(x, vm)).value;
    RunOff(s1, steps, x, vm);
    RunKeeps(s1, steps);
    OffNotClaimed(t, step, x, vm);
  }

  lemma NewIsOff(s: Sys, x: nat, vm: OwnerId)
    requires x !in s.vcpus && vm in s.trackers
    ensures Do(s, NewVcpu(x, vm)).Some? && Off(Do(s, NewVcpu(x, vm)).value, x, vm)
  {
  }

  /** Once powered on, it can be claimed. */
  lemma PowerOnRuns(g: Given, before: seq<Step>, s: Sys, x: nat, cpu: nat)
    requires Reached(g, before, s) && x in s.vcpus && s.vcpus[x].status == PoweredOff && cpu in s.cpus
    ensures Do(s, PowerOn(x)).Some? && Claims(Do(s, PowerOn(x)).value, Take(x, cpu), x)
  {
    hide Reached, SysInv, Do, Tlb.MinVersion;
    ReachedInv(g, before, s);
    var vm := s.vcpus[x].vm;
    ActiveIn(s, x);
    SwitchTurns(s, x, vm);
    var s1 := Do(s, PowerOn(x)).value;
    TakeTurns(s1, x, cpu, vm);
    SameCpus(s, x);
  }

  lemma SameCpus(s: Sys, x: nat)
    ensures Do(s, PowerOn(x)).Some? && Do(s, PowerOn(x)).value.cpus == s.cpus
  {
  }

  /** The claim on a vCPU can always be ended. */
  lemma ClaimEnds(g: Given, before: seq<Step>, s: Sys, x: nat)
    requires Reached(g, before, s) && x in s.vcpus && s.vcpus[x].status == Running
    ensures Run(s, [ComeOut(x), GiveBack(x)]).Some?
    ensures var t := Run(s, [ComeOut(x), GiveBack(x)]).value; x in t.vcpus && t.vcpus[x].status != Running
  {
    hide Reached, SysInv, Do, Tlb.MinVersion;
    ReachedInv(g, before, s);
    var vm := s.vcpus[x].vm;
    DoKeeps(s, ComeOut(x));
    var s1 := Do(s, ComeOut(x)).value;
    StepTurns(s, ComeOut(x), x, vm);
    Left(s, x);
    SwitchTurns(s1, x, vm);
    ActiveRuns(s, x);
    TwoSteps(s, ComeOut(x), GiveBack(x));
  }

  lemma TwoSteps(s: Sys, a: Step, b: Step)
    requires Do(s, a).Some?
    ensures Run(s, [a, b]) == Do(Do(s, a).value, b)
  {
    hide Do;
    assert [a, b][1..] == [b] && [b][1..] == [];
    var s1 := Do(s, a).value;
    assert Run(s1, [b]) == match Do(s1, b) case None => None case Some(s2) => Run(s2, []);
  }

  lemma Left(s: Sys, x: nat)
    requires x in s.vcpus && Do(s, ComeOut(x)).Some?
    ensures x in Do(s, ComeOut(x)).value.vcpus && !Do(s, ComeOut(x)).value.vcpus[x].active
  {
    hide Tlb.Put, Complete;
  }
}
