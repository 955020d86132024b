/** What the region lists do in every run: they mean the regions; as long as no call names an empty range they are
    canonical, and then a call succeeds exactly if every page of the range allows it; and what one call on an empty
    range spoils. */
module ListedTheorems {
  import opened Basics
  import opened PageInfos
  import opened Memory
  import opened MemorySteps
  import opened MemoryRanges
  import opened Hypercalls
  import opened Conversions
  import opened Lifecycle
  import opened System
  import opened Theorems
  import opened ListedSystem
  import L = RegionLists
  import U = RegionUpdates
  import Tlb = TlbTrackers

  /** The host's list at boot: its memory is confidential, and nothing else in it is for memory. */
  ghost predicate SensibleList(g: Given, l: List) {
    && Sensible(g) && ListOk(l) && L.Canonical(l)
    && forall a: nat, k | OfMemory(k) :: L.Has(l, a, k) <==> a in g.layout && k == L.Confidential
  }

  ghost function LStart(g: Given, l: List): (ls: Listed) {
    Listed(Start(g), map[HOST := l])
  }

  ghost predicate LReached(g: Given, l: List, acts: seq<Act>, ls: Listed) {
    SensibleList(g, l) && LRun(LStart(g, l), acts) == Some(ls)
  }

  lemma LStartInv(g: Given, l: List)
    requires SensibleList(g, l)
    ensures LInv(LStart(g, l))
  {
    hide SysInv, L.Has, Sensible, ListOk;
    StartInv(g);
    var m := Start(g).mem;
    forall a: nat, k | OfMemory(k) ensures L.Has(l, a, k) <==> IsAt(m, HOST, a, k) {
      BootAt(g, a, k);
    }
  }

  lemma BootAt(g: Given, a: nat, k: L.Kind)
    ensures IsAt(Start(g).mem, HOST, a, k) <==> a in g.layout && k == L.Confidential
  {
    assert Key(HOST, a) in HostKeys(g.layout) <==> a in g.layout;
  }

  lemma LReachedInv(g: Given, l: List, acts: seq<Act>, ls: Listed)
    requires LReached(g, l, acts, ls)
    ensures LInv(ls)
  {
    hide LInv, SensibleList;
    LStartInv(g, l);
    LRunKeeps(LStart(g, l), acts);
  }

  /** Every state that is reached with lists is reached by the machine without. */
  lemma ReachedWithout(g: Given, l: List, acts: seq<Act>, ls: Listed)
    requires LReached(g, l, acts, ls)
    ensures Reached(g, Steps(LStart(g, l), acts), ls.sys)
  {
    hide LInv, Sensible;
    LRunIsRun(LStart(g, l), acts);
  }

  /** In every run, the list of every VM is sorted, has room for at most 128 regions, and gives each page the type that
      the memory model has for it. */
  lemma ListsMean(g: Given, l: List, acts: seq<Act>, ls: Listed, vm: OwnerId, a: nat)
    requires LReached(g, l, acts, ls)
    ensures vm in ls.lists <==> vm in ls.sys.mem.vms
    ensures vm in ls.lists ==>
              && L.Sorted(ls.lists[vm]) && |ls.lists[vm]| <= L.MAX_MEM_REGIONS
              && (forall r | Get(ls.sys.mem.regions, Key(vm, a)) == Some(r) :: L.Has(ls.lists[vm], a, KindOf(r)))
              && (Key(vm, a) !in ls.sys.mem.regions ==> forall k | OfMemory(k) :: !L.Has(ls.lists[vm], a, k))
  {
    hide LReached, L.Has, L.Sorted, SysInv;
    LReachedInv(g, l, acts, ls);
    if vm in ls.lists {
      assert Describes(ls.lists[vm], ls.sys.mem, vm);
      if Key(vm, a) in ls.sys.mem.regions { assert IsAt(ls.sys.mem, vm, a, KindOf(ls.sys.mem.regions[Key(vm, a)])); }
    }
  }

  /* ---------------- Canonical lists ---------------- */

  /** The act names no empty range. */
  predicate Solid(a: Act) {
    match a
    case AddMmio(_, _, n) => n > 0
    case DropMmio(_, _, n) => n > 0
    case Plain(step) =>
      match step
      case ShareMem(_, _, n, _) => n > 0
      case UnshareMem(_, _, n, _) => n > 0
      case Ask(AskRegion(_, _, n, _, _)) => n > 0
      case _ => true
  }

  /** Sorted and merged, and, if so wished, without empty regions. */
  predicate Tidy(l: List, strict: bool) {
    L.Sorted(l) && L.Coalesced(l) && (strict ==> L.NonEmpty(l))
  }

  predicate AllTidy(lists: map<OwnerId, List>, strict: bool) {
    forall vm | vm in lists :: Tidy(lists[vm], strict)
  }

  predicate AllCanonical(lists: map<OwnerId, List>) {
    forall vm | vm in lists :: L.Canonical(lists[vm])
  }

  /** The act removes no empty range, or, if so wished, names none at all. */
  predicate Careful(a: Act, strict: bool) {
    if strict then Solid(a) else a.DropMmio? ==> a.n > 0
  }

  lemma UpdatedTidy(l: List, g: nat, n: nat, was: L.Kind, now: Option<L.Kind>, strict: bool)
    requires Tidy(l, strict) && (strict ==> n > 0)
    ensures Tidy(Updated(l, g, n, was, now), strict)
  {
    hide L.Sorted, L.NonEmpty, L.Coalesced, U.ResolveList, U.UpdateList;
    if U.UpdateList(l, g, g + n, was).Ok? {
      U.UpdateMeans(l, g, g + n, was, if now.Some? then now.value else was);
    }
  }

  lemma AddedTidy(l: List, g: nat, n: nat, kind: L.Kind, strict: bool)
    requires Tidy(l, strict) && (strict ==> n > 0) && L.AddList(l, g, g + n, kind).Ok?
    ensures Tidy(L.AddList(l, g, g + n, kind).value, strict)
  {
    hide L.Sorted, L.NonEmpty, L.Coalesced, L.AddList;
    L.AddMeans(l, g, g + n, kind);
    if strict { L.AddKeepsCanonicalIff(l, g, g + n, kind); }
  }

  lemma RemovedTidy(l: List, g: nat, n: nat, kind: L.Kind, strict: bool)
    requires Tidy(l, strict) && n > 0 && U.RemoveList(l, g, g + n, kind).Ok?
    ensures Tidy(U.RemoveList(l, g, g + n, kind).value, strict)
  {
    hide L.Sorted, L.NonEmpty, L.Coalesced, U.RemoveList, L.Holder;
    U.RemoveMeans(l, g, g + n, kind);
    U.RemoveKeepsCoalesced(l, g, g + n, kind);
    if strict { U.RemoveKeepsCanonicalIff(l, g, g + n, kind); }
  }

  lemma SweptTidy(l: List, min: nat, strict: bool)
    requires Tidy(l, strict)
    ensures Tidy(Swept(l, min), strict)
  {
    U.SweepKeeps(l, 0, U.Completion(min, r => true));
  }

  lemma NewListsTidy(ls: Listed, step: Step, t: Sys, strict: bool)
    requires AllTidy(ls.lists, strict) && Careful(Plain(step), strict)
    ensures AllTidy(NewLists(ls, step, t), strict)
  {
    hide Tidy, Updated, Swept, Ends, ShareBegin, UnshareBegin, AddRegion, Populated, L.AddList, L.Has;
    NoneTidy(strict);
    match step
    case NewVm(guest) =>
    case DropVm(guest) =>
    case ShareMem(x, g, n, room) => ShareListsTidy(ls, x, g, n, room, false, strict);
    case UnshareMem(x, g, n, room) => ShareListsTidy(ls, x, g, n, room, true, strict);
    case Ask(AskRegion(vm, g, n, shared, room)) =>
      if Adds(ls.lists, vm, g, n, TypeOf(shared)) { AddedTidy(ls.lists[vm], g, n, TypeOf(shared), strict); }
    case _ =>
      if Ends(ls.sys, step).Some? && Ends(ls.sys, step).value in ls.lists && Ends(ls.sys, step).value in t.trackers {
        var vm := Ends(ls.sys, step).value;
        SweptTidy(ls.lists[vm], Tlb.MinVersion(t.trackers[vm]), strict);
      }
  }

  lemma NoneTidy(strict: bool)
    ensures Tidy([], strict)
  {
  }

  lemma ShareListsTidy(ls: Listed, x: nat, g: nat, n: nat, room: bool, back: bool, strict: bool)
    requires AllTidy(ls.lists, strict) && (strict ==> n > 0)
    ensures AllTidy(ShareLists(ls, x, g, n, room, back), strict)
  {
    hide Tidy, Updated, ShareBegin, UnshareBegin, Populated;
    if x in ls.sys.vcpus && ls.sys.vcpus[x].vm in ls.lists {
      var l := ls.lists[ls.sys.vcpus[x].vm];
      forall was, now ensures Tidy(Updated(l, g, n, was, now), strict) {
        UpdatedTidy(l, g, n, was, now, strict);
      }
    }
  }

  lemma LDoTidy(ls: Listed, a: Act, strict: bool)
    requires AllTidy(ls.lists, strict) && Careful(a, strict) && LDo(ls, a).Some?
    ensures AllTidy(LDo(ls, a).value.lists, strict)
  {
    hide Tidy, Do, NewLists, L.AddList, U.RemoveList, L.Holder, Finds, Updates;
    match a
    case Plain(step) =>
      var told := Told(ls, step);
      if Do(ls.sys, told).Some? { NewListsTidy(ls, told, Do(ls.sys, told).value, strict); }
    case AddMmio(vm, g, n) =>
      if Adds(ls.lists, vm, g, n, L.Mmio) { AddedTidy(ls.lists[vm], g, n, L.Mmio, strict); }
    case DropMmio(vm, g, n) =>
      if vm in ls.lists && U.RemoveList(ls.lists[vm], g, g + n, L.Mmio).Ok? {
        RemovedTidy(ls.lists[vm], g, n, L.Mmio, strict);
      }
  }

  lemma {:induction false} LRunTidy(ls: Listed, acts: seq<Act>, strict: bool)
    requires AllTidy(ls.lists, strict) && LRun(ls, acts).Some?
    requires forall i | 0 <= i < |acts| :: Careful(acts[i], strict)
    ensures AllTidy(LRun(ls, acts).value.lists, strict)
    decreases |acts|
  {
    hide AllTidy, LDo, Careful;
    if acts != [] {
      LDoTidy(ls, acts[0], strict);
      LRunTidy(LDo(ls, acts[0]).value, acts[1..], strict);
    }
  }

  lemma StartTidy(g: Given, l: List, strict: bool)
    requires SensibleList(g, l)
    ensures AllTidy(LStart(g, l).lists, strict)
  {
    hide Sensible, L.Sorted, L.Coalesced, L.NonEmpty, L.Has;
  }

  lemma TidyCanonical(lists: map<OwnerId, List>)
    ensures AllTidy(lists, true) <==> AllCanonical(lists)
  {
    hide L.Sorted, L.Coalesced, L.NonEmpty;
  }

  /** As long as no VM names an empty range, all lists are canonical. */
  lemma SolidRunsStayCanonical(g: Given, l: List, acts: seq<Act>, ls: Listed)
    requires LReached(g, l, acts, ls) && forall i | 0 <= i < |acts| :: Solid(acts[i])
    ensures AllCanonical(ls.lists)
  {
    hide LDo, Solid, AllTidy, AllCanonical, SensibleList;
    StartTidy(g, l, true);
    LRunTidy(LStart(g, l), acts, true);
    TidyCanonical(ls.lists);
  }

  /* ---------------- Calls that fail ---------------- */

  function ShareStep(x: nat, g: nat, n: nat, r: bool, back: bool): (s: Step) {
    if back then UnshareMem(x, g, n, r) else ShareMem(x, g, n, r)
  }

  /** The call of the vCPU to share memory, or to take it back, is refused. */
  ghost predicate Refused(ls: Listed, x: nat, g: nat, n: nat, back: bool) {
    && x in ls.sys.vcpus && ls.sys.vcpus[x].active && ls.sys.vcpus[x].vm in ls.sys.trackers
    && var vm := ls.sys.vcpus[x].vm;
       var cur, room := ls.sys.trackers[vm].current.version, Updates(ls.lists, vm, g, n, TypeOf(back));
       if back then UnshareBegin(ls.sys.mem, vm, g, n, cur, room).Failed?
       else ShareBegin(ls.sys.mem, vm, g, n, cur, room).Failed?
  }

  /** The list finds the range, and regions could be merged at an end of it. */
  predicate Merges(ls: Listed, x: nat, g: nat, n: nat, back: bool)
    requires x in ls.sys.vcpus
  {
    var vm := ls.sys.vcpus[x].vm;
    vm != HOST && Updates(ls.lists, vm, g, n, TypeOf(back)) && U.SticksOut(ls.lists[vm], g, g + n, TypeOf(back))
  }

  lemma DroppedIff(l: List, g: nat, n: nat, was: L.Kind)
    ensures Updated(l, g, n, was, None) == l <==>
            !(U.UpdateList(l, g, g + n, was).Ok? && U.SticksOut(l, g, g + n, was))
  {
    if U.UpdateList(l, g, g + n, was).Ok? { U.DropRestoresIff(l, g, g + n, was); }
  }

  /** Only the list of the VM can change. */
  lemma RefusedDoes(ls: Listed, x: nat, g: nat, n: nat, r: bool, back: bool)
    requires LInv(ls) && Refused(ls, x, g, n, back)
    ensures var vm := ls.sys.vcpus[x].vm;
            && vm in ls.lists
            && LDo(ls, Plain(ShareStep(x, g, n, r, back))) ==
               Some(ls.(lists := ls.lists[vm := if vm == HOST then ls.lists[vm]
                                                else Updated(ls.lists[vm], g, n, TypeOf(back), None)]))
  {
    hide SysInv, ListsOk, U.UpdateList, Updated, Populated;
    var s, vm := ls.sys, ls.sys.vcpus[x].vm;
    var room := Updates(ls.lists, vm, g, n, TypeOf(back));
    BeginSets(s.mem, vm, g, n, s.trackers[vm].current.version, room, back);
    hide ShareBegin, UnshareBegin;
    NoListNoCall(ls, x);
    assert s.(mem := s.mem) == s;
  }

  /** A call to share memory that is refused leaves the whole machine and all lists exactly as they were, if and only if
      no regions could be merged at an end of the range. */
  lemma RefusedLeavesIff(ls: Listed, x: nat, g: nat, n: nat, r: bool, back: bool)
    requires LInv(ls) && Refused(ls, x, g, n, back)
    ensures LDo(ls, Plain(ShareStep(x, g, n, r, back))) == Some(ls) <==> !Merges(ls, x, g, n, back)
  {
    hide LInv, LDo, U.UpdateList, U.SticksOut, Updated;
    RefusedDoes(ls, x, g, n, r, back);
    var vm := ls.sys.vcpus[x].vm;
    DroppedIff(ls.lists[vm], g, n, TypeOf(back));
    var t := if vm == HOST then ls.lists[vm] else Updated(ls.lists[vm], g, n, TypeOf(back), None);
    assert ls.lists[vm := t][vm] == t;
    if t == ls.lists[vm] { assert ls.lists[vm := t] == ls.lists; }
  }

  /** In every run in which no empty range is removed, such a call leaves everything as it was. */
  lemma RefusedLeavesAll(b: Given, l: List, acts: seq<Act>, ls: Listed, x: nat, g: nat, n: nat, r: bool, back: bool)
    requires LReached(b, l, acts, ls) && Refused(ls, x, g, n, back)
    requires forall i | 0 <= i < |acts| :: acts[i].DropMmio? ==> acts[i].n > 0
    ensures LDo(ls, Plain(ShareStep(x, g, n, r, back))) == Some(ls)
  {
    hide LDo, LInv, SensibleList, Refused, U.UpdateList, U.SticksOut, Tidy;
    LReachedInv(b, l, acts, ls);
    StartTidy(b, l, false);
    forall i | 0 <= i < |acts| ensures Careful(acts[i], false) {
    }
    LRunTidy(LStart(b, l), acts, false);
    RefusedVm(ls, x, g, n, back);
    RefusedLeavesIff(ls, x, g, n, r, back);
    if Merges(ls, x, g, n, back) { TidyMergesNot(ls.lists[ls.sys.vcpus[x].vm], g, n, TypeOf(back)); }
  }

  lemma RefusedVm(ls: Listed, x: nat, g: nat, n: nat, back: bool)
    requires Refused(ls, x, g, n, back)
    ensures x in ls.sys.vcpus
  {
  }

  lemma TidyMergesNot(l: List, g: nat, n: nat, k: L.Kind)
    requires Tidy(l, false) && U.UpdateList(l, g, g + n, k).Ok?
    ensures !U.SticksOut(l, g, g + n, k)
  {
    U.CoalescedIsOf(l, k);
    U.DropRestoresIff(l, g, g + n, k);
  }

  /* ---------------- Finding a range ---------------- */

  predicate AllAre(m: Mem, vm: OwnerId, g: nat, n: nat, r: RegionType) {
    forall i | g <= i < g + n :: Get(m.regions, Key(vm, i)) == Some(r)
  }

  lemma HaveAre(l: List, m: Mem, vm: OwnerId, g: nat, n: nat, r: RegionType)
    requires Describes(l, m, vm)
    ensures L.AllHave(l, g, g + n, KindOf(r)) <==> AllAre(m, vm, g, n, r)
  {
    hide L.Has;
    forall i: nat | g <= i < g + n ensures L.Has(l, i, KindOf(r)) <==> Get(m.regions, Key(vm, i)) == Some(r) {
      assert L.Has(l, i, KindOf(r)) <==> IsAt(m, vm, i, KindOf(r));
    }
    if AllAre(m, vm, g, n, r) {
      forall a | g <= a < g + n ensures L.Has(l, a, KindOf(r)) {
        assert Get(m.regions, Key(vm, a)) == Some(r);
      }
    }
  }

  /** A range that a list finds has the type throughout; and, if the list is canonical, it finds every range that is not
      empty and does. */
  lemma FindsIff(ls: Listed, vm: OwnerId, g: nat, n: nat, r: RegionType)
    requires LInv(ls) && vm in ls.lists
    ensures Finds(ls.lists, vm, g, n, KindOf(r)) ==> AllAre(ls.sys.mem, vm, g, n, r)
    ensures L.Canonical(ls.lists[vm]) && n > 0 ==>
            (Finds(ls.lists, vm, g, n, KindOf(r)) <==> AllAre(ls.sys.mem, vm, g, n, r))
  {
    hide SysInv, L.Has, L.Canonical, AllAre, L.AllHave;
    assert Describes(ls.lists[vm], ls.sys.mem, vm);
    HaveAre(ls.lists[vm], ls.sys.mem, vm, g, n, r);
    if L.ContainsList(ls.lists[vm], g, g + n, KindOf(r)) { L.HeldHave(ls.lists[vm], g, g + n, KindOf(r)); }
    if L.Canonical(ls.lists[vm]) && n > 0 { L.ContainsExact(ls.lists[vm], g, g + n, KindOf(r)); }
  }

  /** The call that gives pages to a guest, made where the lists decide. */
  ghost function AddCall(ls: Listed, guest: OwnerId, from: nat, to: nat, n: nat, tables: bool, copied: nat): (c: Call)
    requires HOST in Vers(ls.sys)
  {
    AddPages(ls.sys.mem, guest, from, to, n, tables && Finds(ls.lists, guest, to, n, L.Confidential), copied,
             Vers(ls.sys)[HOST].min)
  }

  /** Every page of the request can be given away, and every place it is to go to is free. */
  ghost predicate CanAdd(s: Sys, guest: OwnerId, from: nat, to: nat, n: nat)
    requires HOST in Vers(s)
  {
    && n > 0 && from + n < PAGE_LIMIT && guest != HOST
    && (forall i | from <= i < from + n :: Lockable(s.mem, At(HOST, i), Vers(s)[HOST].min))
    && (forall i | to <= i < to + n :: Mappable(s.mem, Key(guest, i), Confidential))
  }

  /** Pages are given to the guest exactly if all that is possible page by page, there are tables and contents for all
      of them, and the list finds the range. After a run without empty ranges, it always does. */
  lemma AddSucceedsIff(g: Given, l: List, acts: seq<Act>, ls: Listed, guest: OwnerId, from: nat, to: nat, n: nat,
                       tables: bool, copied: nat)
    requires LReached(g, l, acts, ls)
    ensures HOST in Vers(ls.sys)
    ensures AddCall(ls, guest, from, to, n, tables, copied).Done? <==>
            CanAdd(ls.sys, guest, from, to, n) && tables && copied >= n && Finds(ls.lists, guest, to, n, L.Confidential)
    ensures (forall i | 0 <= i < |acts| :: Solid(acts[i])) ==>
              (AddCall(ls, guest, from, to, n, tables, copied).Done? <==>
               CanAdd(ls.sys, guest, from, to, n) && tables && copied >= n)
  {
    hide LReached, SysInv, MemInv, Unlocked, Fresh, AddPages, Lockable, Mappable, At, L.Canonical, Finds, Solid, AllAre;
    LReachedInv(g, l, acts, ls);
    InvMem(ls.sys);
    HostThere(ls.sys);
    AddPagesDoneIff(ls.sys.mem, guest, from, to, n, tables && Finds(ls.lists, guest, to, n, L.Confidential), copied,
                    Vers(ls.sys));
    if (forall i | 0 <= i < |acts| :: Solid(acts[i])) && CanAdd(ls.sys, guest, from, to, n) {
      SolidRunsStayCanonical(g, l, acts, ls);
      MappableAre(ls, guest, to, n);
      FindsIff(ls, guest, to, n, Confidential);
    }
  }

  lemma HostThere(s: Sys)
    requires SysInv(s)
    ensures HOST in Vers(s)
  {
    hide MemInv, Unlocked, TrackersOk, VcpusOk, OneAtATime, VmidsOk, TlbOk;
  }

  lemma MappableAre(ls: Listed, vm: OwnerId, g: nat, n: nat)
    requires LInv(ls) && n > 0 && forall i | g <= i < g + n :: Mappable(ls.sys.mem, Key(vm, i), Confidential)
    ensures vm in ls.lists && AllAre(ls.sys.mem, vm, g, n, Confidential)
  {
    hide MemInv, SysInv, Describes, ListOk;
    assert Mappable(ls.sys.mem, Key(vm, g), Confidential);
    InvMem(ls.sys);
    RegionKeys(ls.sys.mem);
    forall i | g <= i < g + n ensures Get(ls.sys.mem.regions, Key(vm, i)) == Some(Confidential) {
      assert Mappable(ls.sys.mem, Key(vm, i), Confidential);
    }
  }

  /* ---------------- New regions ---------------- */

  lemma ClearRange(l: List, m: Mem, vm: OwnerId, a: nat, n: nat)
    requires Describes(l, m, vm) && forall j | 0 <= j < |l| :: !L.Overlaps(l[j], a, a + n)
    ensures NoRegion(m, vm, a, n)
  {
    forall i | a <= i < a + n ensures Key(vm, i) !in m.regions {
      if Key(vm, i) in m.regions { assert IsAt(m, vm, i, KindOf(m.regions[Key(vm, i)])); }
    }
  }

  /** In every run, a region is given to a guest exactly if there is such a guest, the region lies below what its table
      translates, and its list has room for it and no region there, of memory or of a device. */
  lemma RegionAddedIff(g: Given, l: List, acts: seq<Act>, ls: Listed, vm: OwnerId, a: nat, n: nat, shared: bool)
    requires LReached(g, l, acts, ls)
    ensures var room := vm != HOST && Adds(ls.lists, vm, a, n, TypeOf(shared));
            AddRegion(ls.sys.mem, vm, a, n, shared, room).Done? <==>
              && vm != HOST && vm in ls.lists && a + n <= LIMIT && |ls.lists[vm]| < L.MAX_MEM_REGIONS
              && forall j | 0 <= j < |ls.lists[vm]| :: !L.Overlaps(ls.lists[vm][j], a, a + n)
  {
    hide LReached, SysInv, L.Sorted, Describes, L.AddList, L.Overlaps, NoRegion;
    LReachedInv(g, l, acts, ls);
    if vm in ls.lists {
      L.AddOutcomes(ls.lists[vm], a, a + n, TypeOf(shared));
      if forall j | 0 <= j < |ls.lists[vm]| :: !L.Overlaps(ls.lists[vm][j], a, a + n) {
        ClearRange(ls.lists[vm], ls.sys.mem, vm, a, n);
      }
    }
  }

  /* ---------------- The host ---------------- */

  lemma {:induction false} SweepNothing(l: List, i: nat, f: U.Change)
    requires i <= |l| && forall j | i <= j < |l| :: f(l[j]) == None
    ensures U.Sweep(l, i, f) == l
    decreases |l| - i
  {
    if i < |l| { SweepNothing(l, i + 1, f); }
  }

  /** No region of the list is on its way to another type. */
  predicate Settled(l: List) {
    forall i | 0 <= i < |l| :: !l[i].kind.Sharing? && !l[i].kind.Unsharing?
  }

  lemma SettledStays(l: List, min: nat)
    requires Settled(l)
    ensures Swept(l, min) == l
  {
    SweepNothing(l, 0, U.Completion(min, r => true));
  }

  lemma HostListStep(ls: Listed, a: Act)
    requires LInv(ls) && Settled(ls.lists[HOST]) && LDo(ls, a).Some?
    ensures HOST in LDo(ls, a).value.lists && LDo(ls, a).value.lists[HOST] == ls.lists[HOST]
  {
    hide SysInv, ListsOk, Do, Settled, Swept, Ends, ShareBegin, UnshareBegin, AddRegion, Updated, L.AddList,
         U.RemoveList;
    hide Finds, Updates;
    LDoKeeps(ls, a);
    HostListed(ls);
    forall min ensures Swept(ls.lists[HOST], min) == ls.lists[HOST] {
      SettledStays(ls.lists[HOST], min);
    }
    if a.Plain? {
      HostNewLists(ls, a.step, Do(ls.sys, Told(ls, a.step)).value);
    }
  }

  lemma HostListed(ls: Listed)
    requires LInv(ls)
    ensures HOST in ls.lists && HOST in ls.sys.mem.vms
  {
    hide Unlocked, TrackersOk, VcpusOk, OneAtATime, VmidsOk, TlbOk, EntriesOk, NamedOnce, NamedAtAll, Counted,
         Describes, ListOk;
  }

  lemma HostNewLists(ls: Listed, step: Step, t: Sys)
    requires HOST in ls.lists && HOST in ls.sys.mem.vms && Do(ls.sys, Told(ls, step)) == Some(t)
    requires LInv(Listed(t, NewLists(ls, Told(ls, step), t)))
    requires forall min :: Swept(ls.lists[HOST], min) == ls.lists[HOST]
    ensures HOST in NewLists(ls, Told(ls, step), t) && NewLists(ls, Told(ls, step), t)[HOST] == ls.lists[HOST]
  {
    hide SysInv, ListsOk, Do, Swept, Ends, ShareBegin, UnshareBegin, NoRegion, Updated, L.AddList, Finds, Updates,
         Populated;
    HostListed(Listed(t, NewLists(ls, Told(ls, step), t)));
  }

  lemma {:induction false} HostListStays(ls: Listed, acts: seq<Act>)
    requires LInv(ls) && HOST in ls.lists && Settled(ls.lists[HOST]) && LRun(ls, acts).Some?
    ensures HOST in LRun(ls, acts).value.lists && LRun(ls, acts).value.lists[HOST] == ls.lists[HOST]
    decreases |acts|
  {
    hide LInv, LDo, Settled;
    if acts != [] {
      HostListed(ls);
      LDoKeeps(ls, acts[0]);
      HostListStep(ls, acts[0]);
      HostListStays(LDo(ls, acts[0]).value, acts[1..]);
    }
  }

  lemma BootSettled(g: Given, l: List)
    requires SensibleList(g, l)
    ensures Settled(l)
  {
    hide Sensible, L.Sorted, L.Coalesced;
    forall i | 0 <= i < |l| ensures !l[i].kind.Sharing? && !l[i].kind.Unsharing? {
      assert L.InRegion(l[i], l[i].start);
      assert L.Has(l, l[i].start, l[i].kind);
    }
  }

  /** The host's own list never changes and is canonical, so that it finds exactly the ranges all pages of which are its
      memory; reclaiming pages relies on that. */
  lemma HostListExact(g: Given, l: List, acts: seq<Act>, ls: Listed, a: nat, n: nat)
    requires LReached(g, l, acts, ls) && n > 0
    ensures HOST in ls.lists && ls.lists[HOST] == l
    ensures Finds(ls.lists, HOST, a, n, L.Confidential) <==> AllAre(ls.sys.mem, HOST, a, n, Confidential)
  {
    hide LInv, LDo, Settled, L.Canonical, Finds, AllAre, Sensible, L.Has;
    LStartInv(g, l);
    BootSettled(g, l);
    HostListStays(LStart(g, l), acts);
    LReachedInv(g, l, acts, ls);
    FindsIff(ls, HOST, a, n, Confidential);
  }

  /* ---------------- A call on an empty range ---------------- */

  /** A guest that shares no memory at all, at an address inside its one region, is told that it has; memory is as it
      was; and from then on no range across that address is found, so that no pages can be given to it there. */
  lemma ShareNothingSpoils(ls: Listed, x: nat, a: nat, at: nat, b: nat, r: bool, from: nat, to: nat, n: nat,
                           tables: bool, copied: nat)
    requires LInv(ls) && x in ls.sys.vcpus && ls.sys.vcpus[x].active && ls.sys.vcpus[x].vm != HOST
    requires ls.sys.vcpus[x].vm in ls.lists && ls.lists[ls.sys.vcpus[x].vm] == [L.Region(a, b, L.Confidential)]
    requires a < at < b && to < at < to + n
    ensures LDo(ls, Plain(ShareMem(x, at, 0, r))).Some?
    ensures var lt := LDo(ls, Plain(ShareMem(x, at, 0, r))).value;
            && lt.sys.mem == ls.sys.mem && !Finds(lt.lists, ls.sys.vcpus[x].vm, to, n, L.Confidential)
            && HOST in Vers(lt.sys) && !AddCall(lt, ls.sys.vcpus[x].vm, from, to, n, tables, copied).Done?
  {
    hide SysInv, MemInv, Unlocked, Fresh, AddPages, Lockable, Mappable, At, L.Canonical, U.UpdateList, U.ResolveList;
    var s, vm := ls.sys, ls.sys.vcpus[x].vm;
    LDoKeeps(ls, Plain(ShareMem(x, at, 0, r)));
    U.EmptyUpdateSpoilsContains(a, at, b);
    ActiveTracked(s, x);
    NothingShared(s.mem, vm, at, s.trackers[vm].current.version);
    var lt := LDo(ls, Plain(ShareMem(x, at, 0, r))).value;
    InvMem(lt.sys);
    HostThere(lt.sys);
    NotAcross(a, at, b, to, n);
    AddPagesDoneIff(lt.sys.mem, vm, from, to, n, tables && Finds(lt.lists, vm, to, n, L.Confidential), copied,
                    Vers(lt.sys));
  }

  lemma ActiveTracked(s: Sys, x: nat)
    requires SysInv(s) && x in s.vcpus
    ensures s.vcpus[x].vm in s.trackers
  {
    hide MemOk, TrackersOk, OneAtATime, VmidsOk, TlbOk;
    assert VcpuOk(s.vcpus[x], s.trackers, s.cpus);
  }

  lemma NothingShared(m: Mem, vm: OwnerId, at: nat, cur: nat)
    requires vm != HOST
    ensures ShareBegin(m, vm, at, 0, cur, true) == Done(m) && !Populated(m, vm, at, 0)
  {
  }

  lemma NotAcross(a: nat, at: nat, b: nat, to: nat, n: nat)
    requires a < at < b && to < at < to + n
    ensures !L.ContainsList([L.Region(a, at, L.Confidential), L.Region(at, at, L.Shared),
                             L.Region(at, b, L.Confidential)],
                            to, to + n, L.Confidential)
  {
  }
}
