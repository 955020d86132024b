/** The machine with the region lists of its VMs. The pointwise regions of the memory model are what the lists
    mean; whether a call finds the range it names, and whether there is room for it, is decided by the lists. Every
    run with lists is a run of the machine, so that all that holds of those holds of these. */
module ListedSystem {
  import opened Basics
  import opened PageInfos
  import opened Memory
  import opened MemorySteps
  import opened MemoryRanges
  import opened Hypercalls
  import opened Conversions
  import opened Lifecycle
  import opened Teardown
  import opened System
  import opened SystemSafety
  import L = RegionLists
  import U = RegionUpdates
  import Tlb = TlbTrackers

  type List = seq<L.Region>

  datatype Listed = Listed(sys: Sys, lists: map<OwnerId, List>)

  /* ---------------- What a list says about memory ---------------- */

  function KindOf(r: RegionType): (k: L.Kind) {
    match r
    case Confidential => L.Confidential
    case SharedRegion => L.Shared
    case Sharing(v) => L.Sharing(v)
    case Unsharing(v) => L.Unsharing(v)
  }

  /** The types that memory can have; the others are for devices, and for a range that is being updated. */
  predicate OfMemory(k: L.Kind) {
    k.Confidential? || k.Shared? || k.Sharing? || k.Unsharing?
  }

  predicate IsAt(m: Mem, vm: OwnerId, g: nat, k: L.Kind) {
    Key(vm, g) in m.regions && KindOf(m.regions[Key(vm, g)]) == k
  }

  /** The list gives memory types to exactly the pages that have them. */
  ghost predicate Describes(l: List, m: Mem, vm: OwnerId) {
    forall g: nat, k | OfMemory(k) :: L.Has(l, g, k) <==> IsAt(m, vm, g, k)
  }

  predicate ListOk(l: List) {
    L.Sorted(l) && |l| <= L.MAX_MEM_REGIONS
  }

  ghost predicate ListsOk(lists: map<OwnerId, List>, m: Mem) {
    && lists.Keys == m.vms
    && forall vm | vm in lists :: ListOk(lists[vm]) && Describes(lists[vm], m, vm)
  }

  ghost predicate LInv(ls: Listed) {
    SysInv(ls.sys) && ListsOk(ls.lists, ls.sys.mem)
  }

  /* ---------------- Steps ---------------- */

  datatype Act =
    | Plain(step: Step)
    | AddMmio(vm: OwnerId, g: nat, n: nat)
    | DropMmio(vm: OwnerId, g: nat, n: nat)

  predicate Finds(lists: map<OwnerId, List>, vm: OwnerId, g: nat, n: nat, k: L.Kind) {
    vm in lists && L.ContainsList(lists[vm], g, g + n, k)
  }

  predicate Updates(lists: map<OwnerId, List>, vm: OwnerId, g: nat, n: nat, k: L.Kind) {
    vm in lists && U.UpdateList(lists[vm], g, g + n, k).Ok?
  }

  function TypeOf(shared: bool): (k: L.Kind) {
    if shared then L.Shared else L.Confidential
  }

  predicate Adds(lists: map<OwnerId, List>, vm: OwnerId, g: nat, n: nat, k: L.Kind) {
    vm in lists && L.AddList(lists[vm], g, g + n, k).Ok?
  }

  /** The step with what the lists decide in place of what it left open. */
  function Told(ls: Listed, step: Step): (r: Step) {
    match step
    case ShareMem(x, g, n, _) =>
      ShareMem(x, g, n, x in ls.sys.vcpus && Updates(ls.lists, ls.sys.vcpus[x].vm, g, n, L.Confidential))
    case UnshareMem(x, g, n, _) =>
      UnshareMem(x, g, n, x in ls.sys.vcpus && Updates(ls.lists, ls.sys.vcpus[x].vm, g, n, L.Shared))
    case Ask(AskAdd(guest, from, to, n, tables, copied)) =>
      Ask(AskAdd(guest, from, to, n, tables && Finds(ls.lists, guest, to, n, L.Confidential), copied))
    case Ask(AskAddShared(guest, from, to, n, tables)) =>
      Ask(AskAddShared(guest, from, to, n, tables && Finds(ls.lists, guest, to, n, L.Shared)))
    case Ask(AskRegion(vm, g, n, shared, _)) =>
      Ask(AskRegion(vm, g, n, shared, vm != HOST && Adds(ls.lists, vm, g, n, TypeOf(shared))))
    case other => other
  }

  /** An update, finished with the type `now`, or given up if there is none. */
  function Updated(l: List, g: nat, n: nat, was: L.Kind, now: Option<L.Kind>): (r: List) {
    match U.UpdateList(l, g, g + n, was)
    case Err(_) => l
    case Ok(p) => U.ResolveList(p.0, p.1, if now.Some? then now.value else was)
  }

  /** What becomes of the list of the VM that changes the sharing of a range. */
  function SharedList(s: Sys, l: List, vm: OwnerId, g: nat, n: nat, cur: nat, back: bool, done: bool): (r: List) {
    if vm == HOST then l
    else
      var was, wait, now := TypeOf(back), if back then L.Unsharing(cur) else L.Sharing(cur), TypeOf(!back);
      Updated(l, g, n, was, if !done then None else if Populated(s.mem, vm, g, n) then Some(wait) else Some(now))
  }

  /** The VM for which the step ends a TLB shootdown. */
  ghost function Ends(s: Sys, step: Step): (vm: Option<OwnerId>) {
    match step
    case ComeOut(x) =>
      if x !in s.vcpus || !s.vcpus[x].active || s.vcpus[x].prev.None? || s.vcpus[x].vm !in s.trackers then None
      else (match Tlb.Put(s.trackers[s.vcpus[x].vm], s.vcpus[x].prev.value.version)
            case TlbOk(p) => if p.1 then Some(s.vcpus[x].vm) else None
            case TlbErr(_) => None)
    case Shootdown(vm) =>
      if vm !in s.trackers then None
      else (match Tlb.Increment(s.trackers[vm]) case TlbOk(p) => if p.1 then Some(vm) else None case TlbErr(_) => None)
    case _ => None
  }

  function Swept(l: List, min: nat): (r: List) {
    U.Sweep(l, 0, U.Completion(min, r => true))
  }

  ghost function NewLists(ls: Listed, step: Step, t: Sys): (r: map<OwnerId, List>) {
    var s, lists := ls.sys, ls.lists;
    match step
    case NewVm(guest) => if guest in t.mem.vms && guest !in s.mem.vms then lists[guest := []] else lists
    case DropVm(guest) => if guest in s.mem.vms && guest !in t.mem.vms then lists - {guest} else lists
    case ShareMem(x, g, n, room) => ShareLists(ls, x, g, n, room, false)
    case UnshareMem(x, g, n, room) => ShareLists(ls, x, g, n, room, true)
    case Ask(AskRegion(vm, g, n, shared, room)) =>
      if AddRegion(s.mem, vm, g, n, shared, room).Done? && Adds(lists, vm, g, n, TypeOf(shared))
      then lists[vm := L.AddList(lists[vm], g, g + n, TypeOf(shared)).value]
      else lists
    case _ =>
      (match Ends(s, step)
       case None => lists
       case Some(vm) =>
         if vm in lists && vm in t.trackers then lists[vm := Swept(lists[vm], Tlb.MinVersion(t.trackers[vm]))]
         else lists)
  }

  ghost function ShareLists(ls: Listed, x: nat, g: nat, n: nat, room: bool, back: bool): (r: map<OwnerId, List>) {
    var s := ls.sys;
    if x !in s.vcpus || !s.vcpus[x].active || s.vcpus[x].vm !in s.trackers || s.vcpus[x].vm !in ls.lists then ls.lists
    else
      var vm := s.vcpus[x].vm;
      var cur := s.trackers[vm].current.version;
      var done := (if back then UnshareBegin(s.mem, vm, g, n, cur, room)
                   else ShareBegin(s.mem, vm, g, n, cur, room)).Done?;
      ls.lists[vm := SharedList(s, ls.lists[vm], vm, g, n, cur, back, done)]
  }

  ghost function LDo(ls: Listed, a: Act): (r: Option<Listed>) {
    match a
    case Plain(step) =>
      (match Do(ls.sys, Told(ls, step))
       case None => None
       case Some(t) => Some(Listed(t, NewLists(ls, Told(ls, step), t))))
    case AddMmio(vm, g, n) =>
      if vm == HOST || !Adds(ls.lists, vm, g, n, L.Mmio) then Some(ls)
      else Some(ls.(lists := ls.lists[vm := L.AddList(ls.lists[vm], g, g + n, L.Mmio).value]))
    case DropMmio(vm, g, n) =>
      if vm == HOST || vm !in ls.lists || U.RemoveList(ls.lists[vm], g, g + n, L.Mmio).Err? then Some(ls)
      else Some(ls.(lists := ls.lists[vm := U.RemoveList(ls.lists[vm], g, g + n, L.Mmio).value]))
  }

  ghost function LRun(ls: Listed, acts: seq<Act>): (r: Option<Listed>)
    decreases |acts|
  {
    if acts == [] then Some(ls)
    else match LDo(ls, acts[0])
      case None => None
      case Some(l1) => LRun(l1, acts[1..])
  }

  /* ---------------- Regions that stay as they are ---------------- */

  lemma OneRegions(m: Mem, w: Work, i: nat)
    requires One(m, w, i).Some? && !w.Withdraw? && !w.Return?
    ensures One(m, w, i).value.regions == m.regions && One(m, w, i).value.vms == m.vms
  {
    hide At;
  }

  lemma {:induction false} RangeRegions(m: Mem, w: Work, g: nat, n: nat)
    requires Range(m, w, g, n).Some? && !w.Withdraw? && !w.Return?
    ensures Range(m, w, g, n).value.regions == m.regions && Range(m, w, g, n).value.vms == m.vms
    decreases n
  {
    hide One;
    if n > 0 {
      OneRegions(m, w, g);
      RangeRegions(One(m, w, g).value, w, g + 1, n - 1);
    }
  }

  predicate SameRegions(m: Mem, n: Mem) {
    n.regions == m.regions && n.vms == m.vms
  }

  lemma FinishRegions(m: Mem, o: Mem, w: Work, g: nat, n: nat)
    requires SameRegions(m, o) && !w.Withdraw? && !w.Return?
    ensures Finish(Range(o, w, g, n)).Done? ==> SameRegions(m, Finish(Range(o, w, g, n)).mem)
    ensures w == MemoryRanges.Unlock && GiveUp(o, g, n).Failed? ==> SameRegions(m, GiveUp(o, g, n).mem)
  {
    hide Range;
    if Range(o, w, g, n).Some? { RangeRegions(o, w, g, n); }
  }

  lemma LockRegions(m: Mem, vm: OwnerId, g: nat, n: nat, min: nat)
    ensures var c := GetConvertedPages(m, vm, g, n, min); !c.Panic? ==> SameRegions(m, c.mem)
  {
    hide Range;
    FinishRegions(m, m, Lock(vm, min), g, Wrapped(n));
  }

  lemma AnswerRegions(m: Mem, vers: Versions, r: Request)
    requires HOST in vers && !r.AskRegion? && !Answer(m, vers, r).Panic?
    ensures SameRegions(m, Answer(m, vers, r).mem)
  {
    hide Range, GetConvertedPages, GiveUp, SameRegions;
    SameSelf(m);
    match r
    case AskConvert(vm, g, n) => FinishRegions(m, m, Convert(vers[HOST].cur), g, Wrapped(n));
    case AskReclaim(vm, g, n) =>
      if vm in vers {
        LockRegions(m, vm, g, n, vers[vm].min);
        var c := GetConvertedPages(m, vm, g, n, vers[vm].min);
        if c.Done? { FinishRegions(m, c.mem, Reclaim, g, Wrapped(n)); }
      }
    case AskAdd(guest, from, to, n, tables, copied) =>
      LockRegions(m, HOST, from, n, vers[HOST].min);
      var c := GetConvertedPages(m, HOST, from, n, vers[HOST].min);
      if c.Done? {
        FinishRegions(m, c.mem, MemoryRanges.Unlock, from, Wrapped(n));
        FinishRegions(m, c.mem, AssignTo(guest, from, to), from, Wrapped(n));
        GiveUpFails(c.mem, from, Wrapped(n));
      }
    case AskAddInternal(guest, from, n, accepted) =>
      LockRegions(m, HOST, from, n, vers[HOST].min);
      var c := GetConvertedPages(m, HOST, from, n, vers[HOST].min);
      if c.Done? {
        FinishRegions(m, c.mem, MemoryRanges.Unlock, from, Wrapped(n));
        FinishRegions(m, c.mem, AssignInternal(guest), from, Wrapped(n));
        GiveUpFails(c.mem, from, Wrapped(n));
      }
    case AskAddShared(guest, from, to, n, tables) => FinishRegions(m, m, ShareTo(guest, from, to), from, Wrapped(n));
    case AskPin(vm, g, n) => FinishRegions(m, m, Pin(vm), g, Wrapped(n));
    case AskUnpin(p, owner) => UnpinRegions(m, p, owner);
  }

  lemma SameSelf(m: Mem)
    ensures SameRegions(m, m)
  {
  }

  lemma GiveUpFails(m: Mem, g: nat, n: nat)
    ensures !GiveUp(m, g, n).Done?
  {
  }

  lemma UnpinRegions(m: Mem, p: nat, owner: OwnerId)
    ensures UnpinPage(m, p, owner).Panic? || SameRegions(m, UnpinPage(m, p, owner).mem)
  {
  }

  /* ---------------- Lists and regions change together ---------------- */

  /** The regions of `vm` are the same in both. */
  ghost predicate Keeps(m: Mem, o: Mem, vm: OwnerId) {
    forall g: nat :: Get(o.regions, Key(vm, g)) == Get(m.regions, Key(vm, g))
  }

  lemma KeepsDescribes(l: List, m: Mem, o: Mem, vm: OwnerId)
    requires Keeps(m, o, vm) && Describes(l, m, vm)
    ensures Describes(l, o, vm)
  {
    hide L.Has;
    forall g: nat, k | OfMemory(k) ensures L.Has(l, g, k) <==> IsAt(o, vm, g, k) {
      assert Get(o.regions, Key(vm, g)) == Get(m.regions, Key(vm, g));
    }
  }

  /** One list and the regions of its VM have changed. */
  lemma OneListOk(lists: map<OwnerId, List>, m: Mem, o: Mem, vm: OwnerId, l: List)
    requires ListsOk(lists, m) && o.vms == m.vms && vm in lists && ListOk(l) && Describes(l, o, vm)
    requires forall w | w in lists && w != vm :: Keeps(m, o, w)
    ensures ListsOk(lists[vm := l], o)
  {
    hide L.Has, ListOk, Describes, Keeps;
    forall w | w in lists && w != vm ensures Describes(lists[w], o, w) {
      KeepsDescribes(lists[w], m, o, w);
    }
  }

  lemma SameListsOk(lists: map<OwnerId, List>, m: Mem, o: Mem)
    requires ListsOk(lists, m) && SameRegions(m, o)
    ensures ListsOk(lists, o)
  {
    hide L.Has, ListOk, Describes;
    forall w | w in lists ensures Describes(lists[w], o, w) {
      KeepsDescribes(lists[w], m, o, w);
    }
  }

  /** The range has the type in the one memory, and everything else is as in the other. */
  ghost predicate Sets(m: Mem, o: Mem, vm: OwnerId, g: nat, n: nat, r: RegionType) {
    forall k :: Get(o.regions, k) == if k.vm == vm && g <= k.gpn < g + n then Some(r) else Get(m.regions, k)
  }

  lemma SetsKeeps(m: Mem, o: Mem, vm: OwnerId, g: nat, n: nat, r: RegionType, w: OwnerId)
    requires Sets(m, o, vm, g, n, r) && w != vm
    ensures Keeps(m, o, w)
  {
  }

  lemma SetsIsAt(m: Mem, o: Mem, vm: OwnerId, g: nat, n: nat, r: RegionType, a: nat, k: L.Kind)
    requires Sets(m, o, vm, g, n, r)
    ensures IsAt(o, vm, a, k) <==> if g <= a < g + n then k == KindOf(r) else IsAt(m, vm, a, k)
  {
    assert Get(o.regions, Key(vm, a)) == if g <= a < g + n then Some(r) else Get(m.regions, Key(vm, a));
  }

  /** The list with a range set to a type describes the memory in which the range is set to it. */
  lemma SetDescribes(l: List, t: List, m: Mem, o: Mem, vm: OwnerId, g: nat, n: nat, r: RegionType)
    requires Describes(l, m, vm) && Sets(m, o, vm, g, n, r)
    requires forall a: nat, k | OfMemory(k) :: L.Has(t, a, k) <==>
               if g <= a < g + n then k == KindOf(r) else L.Has(l, a, k)
    ensures Describes(t, o, vm)
  {
    hide L.Has, Sets;
    forall a: nat, k | OfMemory(k) ensures L.Has(t, a, k) <==> IsAt(o, vm, a, k) {
      SetsIsAt(m, o, vm, g, n, r, a, k);
      assert L.Has(l, a, k) <==> IsAt(m, vm, a, k);
    }
  }

  lemma UpdateDescribes(l: List, m: Mem, o: Mem, vm: OwnerId, g: nat, n: nat, was: L.Kind, now: RegionType)
    requires ListOk(l) && Describes(l, m, vm) && U.UpdateList(l, g, g + n, was).Ok? && Sets(m, o, vm, g, n, now)
    ensures var t := Updated(l, g, n, was, Some(KindOf(now))); ListOk(t) && Describes(t, o, vm)
  {
    hide L.Has, L.Sorted, Describes, Sets, U.UpdateList, U.ResolveList;
    U.UpdateMeans(l, g, g + n, was, KindOf(now));
    SetDescribes(l, Updated(l, g, n, was, Some(KindOf(now))), m, o, vm, g, n, now);
  }

  /** An update that is given up changes no type. */
  lemma DropDescribes(l: List, m: Mem, vm: OwnerId, g: nat, n: nat, was: L.Kind)
    requires ListOk(l) && Describes(l, m, vm)
    ensures var t := Updated(l, g, n, was, None); ListOk(t) && Describes(t, m, vm)
  {
    hide L.Has, L.Sorted, U.ResolveList, L.Holder;
    if U.UpdateList(l, g, g + n, was).Ok? {
      U.UpdateMeans(l, g, g + n, was, was);
      var t := Updated(l, g, n, was, None);
      L.HeldHave(l, g, g + n, was);
      forall a: nat, k | OfMemory(k) ensures L.Has(t, a, k) <==> IsAt(m, vm, a, k) {
        if g <= a < g + n && L.Has(l, a, k) { L.OneKind(l, a, k, was); }
      }
    }
  }

  /* ---------------- Sharing ---------------- */

  lemma OneRetypes(m: Mem, w: Work, i: nat)
    requires One(m, w, i).Some? && (w.Withdraw? || w.Return?)
    ensures One(m, w, i).value.regions == m.regions[Key(w.vm, i) := w.region] && One(m, w, i).value.vms == m.vms
  {
  }

  lemma {:induction false} RangeRetypes(m: Mem, w: Work, g: nat, n: nat)
    requires Range(m, w, g, n).Some? && (w.Withdraw? || w.Return?)
    ensures Sets(m, Range(m, w, g, n).value, w.vm, g, n, w.region) && Range(m, w, g, n).value.vms == m.vms
    decreases n
  {
    hide One;
    if n > 0 {
      OneRetypes(m, w, g);
      RangeRetypes(One(m, w, g).value, w, g + 1, n - 1);
    }
  }

  function Waiting(m: Mem, vm: OwnerId, g: nat, n: nat, cur: nat, back: bool): (r: RegionType) {
    if Populated(m, vm, g, n) then (if back then Unsharing(cur) else Sharing(cur))
    else if back then Confidential else SharedRegion
  }

  lemma BeginSets(m: Mem, vm: OwnerId, g: nat, n: nat, cur: nat, room: bool, back: bool)
    ensures var c := if back then UnshareBegin(m, vm, g, n, cur, room) else ShareBegin(m, vm, g, n, cur, room);
            && (c.Failed? ==> c.mem == m)
            && (c.Done? ==> room && vm != HOST && Sets(m, c.mem, vm, g, n, Waiting(m, vm, g, n, cur, back))
                            && c.mem.vms == m.vms)
  {
    hide Range, Sets, Populated;
    var w := if back then Return(vm, Waiting(m, vm, g, n, cur, back))
        else Withdraw(vm, cur, Waiting(m, vm, g, n, cur, back));
    if Range(m, w, g, n).Some? { RangeRetypes(m, w, g, n); }
  }

  lemma ShareListsOk(ls: Listed, x: nat, g: nat, n: nat, room: bool, back: bool)
    requires LInv(ls) && ChangeSharing(ls.sys, x, g, n, room, back).Some?
    requires x in ls.sys.vcpus ==> room == Updates(ls.lists, ls.sys.vcpus[x].vm, g, n, TypeOf(back))
    ensures ListsOk(ShareLists(ls, x, g, n, room, back), ChangeSharing(ls.sys, x, g, n, room, back).value.mem)
  {
    hide SysInv, Describes, ListOk, Sets, Populated, ShareBegin, UnshareBegin, Updated, Keeps, U.UpdateList;
    var s := ls.sys;
    if x in s.vcpus && s.vcpus[x].active && s.vcpus[x].vm in s.trackers && s.vcpus[x].vm in ls.lists {
      var vm, cur := s.vcpus[x].vm, s.trackers[s.vcpus[x].vm].current.version;
      var l, o := ls.lists[vm], ChangeSharing(s, x, g, n, room, back).value.mem;
      BeginSets(s.mem, vm, g, n, cur, room, back);
      var c := if back then UnshareBegin(s.mem, vm, g, n, cur, room) else ShareBegin(s.mem, vm, g, n, cur, room);
      var t := SharedList(s, l, vm, g, n, cur, back, c.Done?);
      if c.Done? {
        var r := Waiting(s.mem, vm, g, n, cur, back);
        UpdateDescribes(l, s.mem, o, vm, g, n, TypeOf(back), r);
        forall w | w in ls.lists && w != vm ensures Keeps(s.mem, o, w) {
          SetsKeeps(s.mem, o, vm, g, n, r, w);
        }
      } else {
        DropDescribes(l, s.mem, vm, g, n, TypeOf(back));
        forall w | w in ls.lists && w != vm ensures Keeps(s.mem, o, w) {
          KeepsSelf(s.mem, w);
        }
      }
      OneListOk(ls.lists, s.mem, o, vm, t);
    } else if x in s.vcpus {
      NoListNoCall(ls, x);
    }
  }

  lemma KeepsSelf(m: Mem, w: OwnerId)
    ensures Keeps(m, m, w)
  {
  }

  lemma NoListNoCall(ls: Listed, x: nat)
    requires LInv(ls) && x in ls.sys.vcpus
    ensures ls.sys.vcpus[x].vm in ls.sys.trackers ==> ls.sys.vcpus[x].vm in ls.lists
  {
    hide MemInv, Unlocked, TrackersOk, VcpusOk, OneAtATime, VmidsOk, TlbOk, Describes, ListOk;
  }

  /* ---------------- New VMs and regions ---------------- */

  lemma GuestListsOk(ls: Listed, guest: OwnerId)
    requires LInv(ls) && AddGuest(ls.sys, guest).Some?
    ensures var t := AddGuest(ls.sys, guest).value; ListsOk(NewLists(ls, NewVm(guest), t), t.mem)
  {
    hide MemInv, Unlocked, TrackersOk, VcpusOk, OneAtATime, VmidsOk, TlbOk, Describes, ListOk;
    var s, t := ls.sys, AddGuest(ls.sys, guest).value;
    FreshVm(s.mem, guest);
    forall w | w in ls.lists ensures Describes(ls.lists[w], t.mem, w) {
      KeepsDescribes(ls.lists[w], s.mem, t.mem, w);
    }
    NewListOk(t.mem, guest);
  }

  lemma NewListOk(m: Mem, vm: OwnerId)
    ensures ListOk([]) && ((forall g: nat :: Key(vm, g) !in m.regions) ==> Describes([], m, vm))
  {
  }

  lemma DropListsOk(ls: Listed, guest: OwnerId)
    requires LInv(ls) && DestroyVm(ls.sys, guest).Some?
    ensures var t := DestroyVm(ls.sys, guest).value; ListsOk(NewLists(ls, DropVm(guest), t), t.mem)
  {
    hide MemInv, Unlocked, Fresh, TrackersOk, VcpusOk, OneAtATime, VmidsOk, TlbOk, Describes, ListOk, Good, Destroy,
         Stable;
    var s, t := ls.sys, DestroyVm(ls.sys, guest).value;
    if t != s {
      DestroyKeeps(s.mem, guest, Vers(s));
      forall w | w in ls.lists && w != guest ensures Describes(ls.lists[w], t.mem, w) {
        GoneKeeps(s.mem, t.mem, guest, w);
        KeepsDescribes(ls.lists[w], s.mem, t.mem, w);
      }
    }
  }

  lemma GoneKeeps(m: Mem, n: Mem, guest: OwnerId, w: OwnerId)
    requires Destroyed(m, n, guest) && w != guest
    ensures Keeps(m, n, w)
  {
  }

  lemma RegionListsOk(ls: Listed, vm: OwnerId, g: nat, n: nat, shared: bool)
    requires LInv(ls)
    ensures var room := vm != HOST && Adds(ls.lists, vm, g, n, TypeOf(shared));
            var c := AddRegion(ls.sys.mem, vm, g, n, shared, room);
            !c.Panic? && ListsOk(NewLists(ls, Ask(AskRegion(vm, g, n, shared, room)), ls.sys), c.mem)
  {
    hide SysInv, Describes, ListOk, Sets, Keeps, L.Has, L.AddList;
    var m, room := ls.sys.mem, vm != HOST && Adds(ls.lists, vm, g, n, TypeOf(shared));
    var c := AddRegion(m, vm, g, n, shared, room);
    if c.Done? {
      var l, r := ls.lists[vm], if shared then SharedRegion else Confidential;
      RegionSets(m, vm, g, n, shared, room);
      AddDescribes(l, m, c.mem, vm, g, n, r);
      forall w | w in ls.lists && w != vm ensures Keeps(m, c.mem, w) {
        SetsKeeps(m, c.mem, vm, g, n, r, w);
      }
      OneListOk(ls.lists, m, c.mem, vm, L.AddList(l, g, g + n, TypeOf(shared)).value);
    }
  }

  lemma RegionSets(m: Mem, vm: OwnerId, g: nat, n: nat, shared: bool, room: bool)
    requires AddRegion(m, vm, g, n, shared, room).Done?
    ensures Sets(m, AddRegion(m, vm, g, n, shared, room).mem, vm, g, n, if shared then SharedRegion else Confidential)
    ensures AddRegion(m, vm, g, n, shared, room).mem.vms == m.vms
  {
    var o := AddRegion(m, vm, g, n, shared, room).mem;
    forall k ensures Get(o.regions, k) == if k.vm == vm && g <= k.gpn < g + n
                                          then Some(if shared then SharedRegion else Confidential)
                                          else Get(m.regions, k) {
      AddRegionDoes(m, vm, g, n, shared, room, k);
    }
  }

  lemma AddDescribes(l: List, m: Mem, o: Mem, vm: OwnerId, g: nat, n: nat, r: RegionType)
    requires ListOk(l) && Describes(l, m, vm) && L.AddList(l, g, g + n, KindOf(r)).Ok? && Sets(m, o, vm, g, n, r)
    ensures var t := L.AddList(l, g, g + n, KindOf(r)).value; ListOk(t) && Describes(t, o, vm)
  {
    hide L.Has, L.Sorted, Describes, Sets, L.AddList;
    L.AddMeans(l, g, g + n, KindOf(r));
    var t := L.AddList(l, g, g + n, KindOf(r)).value;
    forall a: nat, k | OfMemory(k) ensures L.Has(t, a, k) <==>
             if g <= a < g + n then k == KindOf(r) else L.Has(l, a, k) {
      if g <= a < g + n && L.Has(l, a, k) { L.OneKind(t, a, k, KindOf(r)); }
    }
    SetDescribes(l, t, m, o, vm, g, n, r);
  }

  /* ---------------- Devices ---------------- */

  lemma MmioListsOk(ls: Listed, a: Act)
    requires LInv(ls) && !a.Plain?
    ensures LDo(ls, a).Some? && LDo(ls, a).value.sys == ls.sys && ListsOk(LDo(ls, a).value.lists, ls.sys.mem)
  {
    hide SysInv, Describes, ListOk, Keeps, L.Has, L.AddList, U.RemoveList;
    if LDo(ls, a).value != ls {
      var vm, g, n, m := a.vm, a.g, a.n, ls.sys.mem;
      forall w | w in ls.lists ensures Keeps(m, m, w) {
        KeepsSelf(m, w);
      }
      if a.AddMmio? {
        MmioAdded(ls.lists[vm], m, vm, g, n);
      } else {
        MmioDropped(ls.lists[vm], m, vm, g, n);
      }
      OneListOk(ls.lists, m, m, vm, LDo(ls, a).value.lists[vm]);
    }
  }

  lemma MmioAdded(l: List, m: Mem, vm: OwnerId, g: nat, n: nat)
    requires ListOk(l) && Describes(l, m, vm) && L.AddList(l, g, g + n, L.Mmio).Ok?
    ensures var t := L.AddList(l, g, g + n, L.Mmio).value; ListOk(t) && Describes(t, m, vm)
  {
    hide L.Has, L.Sorted, L.AddList;
    L.AddMeans(l, g, g + n, L.Mmio);
  }

  lemma MmioDropped(l: List, m: Mem, vm: OwnerId, g: nat, n: nat)
    requires ListOk(l) && Describes(l, m, vm) && U.RemoveList(l, g, g + n, L.Mmio).Ok?
    ensures var t := U.RemoveList(l, g, g + n, L.Mmio).value; ListOk(t) && Describes(t, m, vm)
  {
    hide L.Has, L.Sorted;
    U.RemoveMeans(l, g, g + n, L.Mmio);
    L.HeldHave(l, g, g + n, L.Mmio);
    var t := U.RemoveList(l, g, g + n, L.Mmio).value;
    forall a: nat, k | OfMemory(k) ensures L.Has(t, a, k) <==> IsAt(m, vm, a, k) {
      if g <= a < g + n && L.Has(l, a, k) { L.OneKind(l, a, k, L.Mmio); }
    }
  }

  /* ---------------- Shootdowns ---------------- */

  lemma SweptDescribes(l: List, m: Mem, o: Mem, vm: OwnerId, min: nat)
    requires ListOk(l) && Describes(l, m, vm) && Completed(m, o, Due(m, vm, min))
    ensures ListOk(Swept(l, min)) && Describes(Swept(l, min), o, vm)
  {
    hide L.Has, L.Sorted, U.Sweep, Completed;
    U.SweepKeeps(l, 0, U.Completion(min, r => true));
    forall g: nat, k | OfMemory(k) ensures L.Has(Swept(l, min), g, k) <==> IsAt(o, vm, g, k) {
      SweptAt(l, m, o, vm, min, g, k);
    }
  }

  lemma SweptAt(l: List, m: Mem, o: Mem, vm: OwnerId, min: nat, g: nat, k: L.Kind)
    requires ListOk(l) && Describes(l, m, vm) && Completed(m, o, Due(m, vm, min)) && OfMemory(k)
    ensures L.Has(Swept(l, min), g, k) <==> IsAt(o, vm, g, k)
  {
    hide L.Has, L.Sorted, U.Sweep;
    U.CompletionMeans(l, min, g, k);
    CompletedAt(m, o, vm, min, g, k);
    assert L.Has(l, g, k) <==> IsAt(m, vm, g, k);
    forall v: nat ensures (L.Has(l, g, L.Sharing(v)) <==> IsAt(m, vm, g, L.Sharing(v)))
                          && (L.Has(l, g, L.Unsharing(v)) <==> IsAt(m, vm, g, L.Unsharing(v))) {
    }
  }

  lemma CompletedAt(m: Mem, o: Mem, vm: OwnerId, min: nat, g: nat, k: L.Kind)
    requires Completed(m, o, Due(m, vm, min)) && OfMemory(k)
    ensures IsAt(o, vm, g, k) <==>
            || (IsAt(m, vm, g, k) && !((k.Sharing? || k.Unsharing?) && k.version < min))
            || (k == L.Shared && exists v | 0 <= v < min :: IsAt(m, vm, g, L.Sharing(v)))
            || (k == L.Confidential && exists v | 0 <= v < min :: IsAt(m, vm, g, L.Unsharing(v)))
  {
    var key := Key(vm, g);
    if key in m.regions {
      assert key in Due(m, vm, min) <==> Overdue(m, key, min);
      if m.regions[key].Sharing? { assert IsAt(m, vm, g, L.Sharing(m.regions[key].version)); }
      if m.regions[key].Unsharing? { assert IsAt(m, vm, g, L.Unsharing(m.regions[key].version)); }
    }
  }

  /** The memory after a step that may end a shootdown. */
  lemma EndsMem(s: Sys, step: Step)
    requires SysInv(s) && Do(s, step).Some? && (step.ComeOut? || step.Shootdown?)
    ensures match Ends(s, step)
            case None => Do(s, step).value.mem == s.mem
            case Some(vm) =>
              && vm in s.mem.vms && vm in Do(s, step).value.trackers
              && Completed(s.mem, Do(s, step).value.mem, Due(s.mem, vm, Tlb.MinVersion(Do(s, step).value.trackers[vm])))
  {
    hide MemInv, Unlocked, TrackersOk, VcpusOk, OneAtATime, VmidsOk, TlbOk, Tlb.MinVersion, Complete, Completed, Good;
    if Ends(s, step).Some? {
      var vm := Ends(s, step).value;
      var now := Do(s, step).value.trackers;
      CompleteRestores(s.mem, vm, Windows(s.trackers), Windows(now));
    }
  }

  lemma EndsListsOk(ls: Listed, step: Step)
    requires LInv(ls) && Do(ls.sys, step).Some? && (step.ComeOut? || step.Shootdown?)
    ensures var t := Do(ls.sys, step).value; ListsOk(NewLists(ls, step, t), t.mem)
  {
    hide SysInv, Do, Ends, Describes, ListOk, Completed, Keeps, Swept;
    var t := Do(ls.sys, step).value;
    EndsMem(ls.sys, step);
    match Ends(ls.sys, step)
    case None =>
    case Some(vm) =>
      var min := Tlb.MinVersion(t.trackers[vm]);
      SweptDescribes(ls.lists[vm], ls.sys.mem, t.mem, vm, min);
      forall w | w in ls.lists && w != vm ensures Keeps(ls.sys.mem, t.mem, w) {
        CompletedKeeps(ls.sys.mem, t.mem, vm, min, w);
      }
      CompletedVms(ls.sys.mem, t.mem, vm, min);
      OneListOk(ls.lists, ls.sys.mem, t.mem, vm, Swept(ls.lists[vm], min));
  }

  lemma CompletedKeeps(m: Mem, o: Mem, vm: OwnerId, min: nat, w: OwnerId)
    requires Completed(m, o, Due(m, vm, min)) && w != vm
    ensures Keeps(m, o, w)
  {
    forall g: nat ensures Get(o.regions, Key(w, g)) == Get(m.regions, Key(w, g)) {
      assert Key(w, g) !in Due(m, vm, min);
    }
  }

  lemma CompletedVms(m: Mem, o: Mem, vm: OwnerId, min: nat)
    requires Completed(m, o, Due(m, vm, min))
    ensures o.vms == m.vms
  {
  }

  /* ---------------- Every step, every run ---------------- */

  /** Steps that leave lists and regions alone. */
  predicate Quiet(step: Step) {
    && !step.NewVm? && !step.DropVm? && !step.ShareMem? && !step.UnshareMem? && !step.ComeOut? && !step.Shootdown?
    && !(step.Ask? && step.request.AskRegion?)
  }

  lemma QuietListsOk(ls: Listed, step: Step)
    requires LInv(ls) && Do(ls.sys, step).Some? && Quiet(step)
    ensures var t := Do(ls.sys, step).value; NewLists(ls, step, t) == ls.lists && ListsOk(ls.lists, t.mem)
  {
    hide SysInv, Answer, ListsOk, PickVmid, FlushVmid;
    var s := ls.sys;
    SameSelf(s.mem);
    if step.Ask? && HOST in s.trackers { AnswerRegions(s.mem, Vers(s), step.request); }
    SameListsOk(ls.lists, s.mem, Do(s, step).value.mem);
  }

  lemma ToldListsOk(ls: Listed, step: Step)
    requires LInv(ls) && Do(ls.sys, Told(ls, step)).Some?
    ensures var t := Do(ls.sys, Told(ls, step)).value; ListsOk(NewLists(ls, Told(ls, step), t), t.mem)
  {
    hide SysInv, ListsOk, AddGuest, DestroyVm, ChangeSharing, ShareLists, AddRegion, Ends, Finds, Updates, Adds, Swept;
    match step
    case NewVm(guest) => GuestListsOk(ls, guest);
    case DropVm(guest) => DropListsOk(ls, guest);
    case ShareMem(x, g, n, _) => ShareListsOk(ls, x, g, n, Told(ls, step).room, false);
    case UnshareMem(x, g, n, _) => ShareListsOk(ls, x, g, n, Told(ls, step).room, true);
    case ComeOut(x) => EndsListsOk(ls, step);
    case Shootdown(vm) => EndsListsOk(ls, step);
    case Ask(AskRegion(vm, g, n, shared, _)) => RegionListsOk(ls, vm, g, n, shared);
    case _ => QuietListsOk(ls, Told(ls, step));
  }

  /** A step panics exactly if it would without the lists. Otherwise the lists of all VMs are sorted, not too long, and
      say what the regions say, as before. */
  lemma LDoKeeps(ls: Listed, a: Act)
    requires LInv(ls)
    ensures LDo(ls, a).None? <==> a.Plain? && a.step.Ask? && Fatal(ls.sys.mem, Vers(ls.sys), a.step.request)
    ensures LDo(ls, a).Some? ==> LInv(LDo(ls, a).value)
  {
    hide SysInv, ListsOk, Do, NewLists, Finds, Updates, Adds, LocksTwice, AllLockable;
    if a.Plain? {
      DoKeeps(ls.sys, Told(ls, a.step));
      if Do(ls.sys, Told(ls, a.step)).Some? { ToldListsOk(ls, a.step); }
    } else {
      MmioListsOk(ls, a);
    }
  }

  /** The steps of the machine that a run with lists makes. */
  ghost function Steps(ls: Listed, acts: seq<Act>): (r: seq<Step>)
    decreases |acts|
  {
    if acts == [] then []
    else
      (if acts[0].Plain? then [Told(ls, acts[0].step)] else [])
      + (match LDo(ls, acts[0]) case None => [] case Some(l1) => Steps(l1, acts[1..]))
  }

  lemma {:induction false} LRunKeeps(ls: Listed, acts: seq<Act>)
    requires LInv(ls)
    ensures LRun(ls, acts).Some? ==> LInv(LRun(ls, acts).value)
    decreases |acts|
  {
    hide LInv, LDo;
    if acts != [] {
      LDoKeeps(ls, acts[0]);
      if LDo(ls, acts[0]).Some? { LRunKeeps(LDo(ls, acts[0]).value, acts[1..]); }
    }
  }

  /** A run with lists is a run of the machine. */
  lemma {:induction false} LRunIsRun(ls: Listed, acts: seq<Act>)
    ensures match LRun(ls, acts)
            case None => Run(ls.sys, Steps(ls, acts)) == None
            case Some(lt) => Run(ls.sys, Steps(ls, acts)) == Some(lt.sys)
    decreases |acts|
  {
    hide Do, Told, NewLists;
    if acts != [] {
      var rest := match LDo(ls, acts[0]) case None => [] case Some(l1) => Steps(l1, acts[1..]);
      if LDo(ls, acts[0]).Some? { LRunIsRun(LDo(ls, acts[0]).value, acts[1..]); }
      if acts[0].Plain? {
        var step := Told(ls, acts[0].step);
        assert ([step] + rest)[0] == step && ([step] + rest)[1..] == rest;
      } else {
        assert [] + rest == rest;
        MmioSys(ls, acts[0]);
      }
    }
  }

  lemma MmioSys(ls: Listed, a: Act)
    requires !a.Plain?
    ensures LDo(ls, a).Some? && LDo(ls, a).value.sys == ls.sys
  {
  }
}
