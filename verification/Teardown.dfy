/** Destroying a guest: its vCPUs let go of the pages they pinned, its page table releases every page it
    refers to, and the pages that held its state are released. Every page comes back to the host exactly
    once, and no step on the way can fail. */
module Teardown {
  import opened Basics
  import opened PageInfos
  import opened Memory
  import opened MemorySteps
  import opened MemoryRanges
  import opened Conversions
  import opened Lifecycle

  predicate Borrowed(i: Info, guest: OwnerId) {
    i.owners == [HOST, guest]
  }

  /** What may have happened to a page while `guest` is taken down. */
  predicate Progress(i: Info, j: Info, guest: OwnerId) {
    || j == i
    || (Borrowed(i, guest) && j == Info(Ram, Converted, [HOST]))
    || (Borrowed(i, guest) && Borrowed(j, guest) && i.state.Shared?)
    || (i.owners == [HOST] && j.owners == [HOST] && i.state.Shared? && (j.state.Shared? || j.state.Mapped?))
  }

  ghost predicate Onward(m: Mem, n: Mem, guest: OwnerId) {
    && n.pages.Keys == m.pages.Keys && n.vms == m.vms && n.regions == m.regions
    && (forall p | p in m.pages :: Progress(m.pages[p], n.pages[p], guest))
    && (Unlocked(m) ==> Unlocked(n))
  }

  lemma OnwardTrans(m: Mem, n: Mem, o: Mem, guest: OwnerId)
    requires Onward(m, n, guest) && Onward(n, o, guest)
    ensures Onward(m, o, guest)
  {
  }

  /* ---------------- pins ---------------- */

  ghost function PinnedOf(m: Mem, guest: OwnerId): (s: set<nat>) {
    set p | p in m.pins && p in m.pages && Owner(m.pages[p]) == Some(guest)
  }

  /** A page that a guest owns can only be pinned by a vCPU of that guest. */
  ghost function DropPins(m: Mem, guest: OwnerId): (r: Option<Mem>)
    decreases |m.pins|
  {
    if PinnedOf(m, guest) == {} then Some(m)
    else
      var p :| p in PinnedOf(m, guest);
      match UnpinOne(m, p, guest)
      case None => None
      case Some(n) => if |n.pins| < |m.pins| then DropPins(n, guest) else None
  }

  /** The pins on pages of other owners are kept. */
  ghost predicate PinsDropped(m: Mem, n: Mem, guest: OwnerId) {
    && n.ptes == m.ptes
    && (forall p | p in m.pages && Owner(m.pages[p]) != Some(guest) ::
        n.pins[p] == m.pins[p] && Get(n.pages, p) == Some(m.pages[p]))
  }

  lemma UnpinOneDoes(m: Mem, p: nat, guest: OwnerId)
    requires MemInv(m) && p in m.pins && p in m.pages && Owner(m.pages[p]) == Some(guest) && guest != HOST
    ensures UnpinOne(m, p, guest).Some?
    ensures var n := UnpinOne(m, p, guest).value;
            Onward(m, n, guest) && PinsDropped(m, n, guest) && |n.pins| < |m.pins|
              && PinnedOf(n, guest) <= PinnedOf(m, guest)
            && Owner(n.pages[p]) == Some(guest)
  {
    hide MemInv;
    var k := PinnedPage(m, p);
    EntryAt(m, k);
    var n := UnpinOne(m, p, guest).value;
    assert Borrowed(m.pages[p], guest);
    assert n.pins[p] == m.pins[p] - 1;
    assert m.pins == n.pins + multiset{p};
  }

  lemma {:induction false} DropPinsKeeps(m: Mem, guest: OwnerId, vers: Versions)
    requires MemInv(m) && Fresh(m, vers) && guest != HOST
    ensures DropPins(m, guest).Some?
    ensures var n := DropPins(m, guest).value;
            Good(m, n, vers) && Onward(m, n, guest) && PinsDropped(m, n, guest) && PinnedOf(n, guest) == {}
    decreases |m.pins|
  {
    hide MemInv, Good, Onward;
    if PinnedOf(m, guest) == {} {
      Nothing(m, vers);
      OnwardSelf(m, guest);
    } else {
      var p :| p in PinnedOf(m, guest) && DropPins(m, guest) ==
        match UnpinOne(m, p, guest)
        case None => None
        case Some(n) => if |n.pins| < |m.pins| then DropPins(n, guest) else None;
      UnpinOneGood(m, p, guest, vers);
      UnpinOneDoes(m, p, guest);
      var n := UnpinOne(m, p, guest).value;
      GoodIs(m, n, vers);
      DropPinsKeeps(n, guest, vers);
      var o := DropPins(n, guest).value;
      GoodTrans(m, n, o, vers);
      OnwardTrans(m, n, o, guest);
    }
  }

  lemma OnwardSelf(m: Mem, guest: OwnerId)
    ensures Onward(m, m, guest)
  {
  }

  /* ---------------- the page table ---------------- */

  /** release_pages on one entry: a page the guest owns goes back to the host, and a reference to a page of
      the host is dropped. */
  function DropOne(m: Mem, k: Key): (r: Option<Mem>) {
    if k !in m.ptes || k !in m.regions || m.ptes[k].page !in m.pages then None
    else match ReleaseBy(m.pages[m.ptes[k].page], k.vm)
      case Err(_) => None
      case Ok(i) => Some(Set(m, Keep(m, k, i).(entry := None)))
  }

  ghost predicate NoneShared(m: Mem, guest: OwnerId) {
    forall p | p in m.pages && Borrowed(m.pages[p], guest) :: !m.pages[p].state.Shared?
  }

  /** With the pins gone, the guest has no shared page of its own. */
  lemma UnpinnedNotShared(m: Mem, guest: OwnerId)
    requires MemInv(m) && PinnedOf(m, guest) == {} && guest != HOST
    ensures NoneShared(m, guest)
  {
    forall p | p in m.pages && Borrowed(m.pages[p], guest) ensures !m.pages[p].state.Shared? {
      CountAt(m, p);
      assert p !in PinnedOf(m, guest);
      forall k | k in ChildRefs(m, p) ensures false {
        EntryAt(m, k);
      }
      assert ChildRefs(m, p) == {};
    }
  }

  lemma DropOneKeeps(m: Mem, k: Key, vers: Versions)
    requires MemInv(m) && k in m.ptes && k.vm != HOST && k.vm !in vers && NoneShared(m, k.vm)
    ensures DropOne(m, k).Some?
    ensures var n := DropOne(m, k).value;
            MemInv(n) && Stable(m, n, vers) && NoneShared(n, k.vm) && Onward(m, n, k.vm)
            && n.ptes == m.ptes - {k} && n.pins == m.pins
  {
    hide MemInv, Stable;
    EntryAt(m, k);
    var p := m.ptes[k].page;
    if Owner(m.pages[p]) == Some(k.vm) {
      assert Borrowed(m.pages[p], k.vm);
      TakenBack(m, k, m.regions[k], vers);
    } else {
      RefDropped(m, k, m.regions[k], vers);
    }
    assert m.pins[p := m.pins[p]] == m.pins;
    assert m.regions[k := m.regions[k]] == m.regions;
  }

  ghost function DropThese(m: Mem, todo: set<Key>): (r: Option<Mem>)
    decreases |todo|
  {
    if todo == {} then Some(m)
    else
      var k :| k in todo;
      match DropOne(m, k)
      case None => None
      case Some(n) => DropThese(n, todo - {k})
  }

  ghost function Entries(m: Mem, vm: OwnerId): (s: set<Key>) {
    set k | k in m.ptes && k.vm == vm
  }

  lemma {:induction false} DropTheseKeeps(m: Mem, guest: OwnerId, todo: set<Key>, vers: Versions)
    requires MemInv(m) && guest != HOST && guest !in vers && NoneShared(m, guest) && todo <= Entries(m, guest)
    ensures DropThese(m, todo).Some?
    ensures var n := DropThese(m, todo).value;
            MemInv(n) && Stable(m, n, vers) && Onward(m, n, guest) && n.ptes == m.ptes - todo && n.pins == m.pins
    decreases |todo|
  {
    hide MemInv, Stable, Onward, NoneShared, DropOne;
    if todo == {} {
      StableSelf(m, vers);
      OnwardSelf(m, guest);
      assert m.ptes - todo == m.ptes;
    } else {
      var k :| k in todo && DropThese(m, todo) ==
        match DropOne(m, k) case None => None case Some(n) => DropThese(n, todo - {k});
      assert k in Entries(m, guest);
      DropOneKeeps(m, k, vers);
      var n := DropOne(m, k).value;
      assert todo - {k} <= Entries(n, guest);
      DropTheseKeeps(n, guest, todo - {k}, vers);
      var o := DropThese(n, todo - {k}).value;
      StableTrans(m, n, o, vers);
      OnwardTrans(m, n, o, guest);
      assert m.ptes - {k} - (todo - {k}) == m.ptes - todo;
    }
  }

  /* ---------------- pages that held the guest's state ---------------- */

  ghost function StatePages(m: Mem, guest: OwnerId): (s: set<nat>) {
    set p | p in m.pages && Owner(m.pages[p]) == Some(guest) && m.pages[p].state.VmState?
  }

  /** Releases a page-table page, a page left in the pool, a vCPU's page or the VM's own. */
  function ReleaseState(m: Mem, p: nat, guest: OwnerId): (r: Option<Mem>) {
    if p !in m.pages then None
    else match ReleaseBy(m.pages[p], guest)
      case Err(_) => None
      case Ok(i) => Some(m.(pages := m.pages[p := i]))
  }

  /** Only the host's invalid entry names a page that holds a guest's state. */
  lemma StateNamedByHost(m: Mem, p: nat, guest: OwnerId) returns (k: Key)
    requires MemInv(m) && guest != HOST && p in StatePages(m, guest)
    ensures m.pages[p] == Info(Ram, VmState, [HOST, guest])
    ensures k in m.ptes && k.vm == HOST && m.ptes[k] == Invalidated(p)
    ensures forall l :: !Other(m, k, p, l)
  {
    hide MemInv;
    PageAt(m, p);
    k := HostName(m, p);
    EntryAt(m, k);
    forall l ensures !Other(m, k, p, l) {
      if l in m.ptes && m.ptes[l].page == p {
        EntryAt(m, l);
        OneName(m, k, l);
      }
    }
  }

  lemma HostName(m: Mem, p: nat) returns (k: Key)
    requires MemInv(m) && p in m.pages && MustName(m.pages[p], HOST)
    ensures k in m.ptes && k.vm == HOST && m.ptes[k].page == p
  {
    assert Names(m, HOST, p);
    var g :| Key(HOST, g) in m.ptes && m.ptes[Key(HOST, g)].page == p;
    k := Key(HOST, g);
  }

  lemma OneName(m: Mem, k: Key, l: Key)
    requires MemInv(m) && k in m.ptes && l in m.ptes && k.vm == l.vm == HOST && m.ptes[k].page == m.ptes[l].page
    ensures k == l
  {
  }

  lemma ReleaseStateKeeps(m: Mem, p: nat, guest: OwnerId, vers: Versions)
    requires MemInv(m) && guest != HOST && p in StatePages(m, guest)
    ensures ReleaseState(m, p, guest).Some?
    ensures var n := ReleaseState(m, p, guest).value;
            MemInv(n) && Stable(m, n, vers) && Onward(m, n, guest)
            && n.ptes == m.ptes && n.pins == m.pins && StatePages(n, guest) == StatePages(m, guest) - {p}
  {
    hide MemInv, Stable;
    var k := StateNamedByHost(m, p, guest);
    EntryAt(m, k);
    UnsharedHasNoRefs(m, p);
    var c := Keep(m, k, Info(Ram, Converted, [HOST]));
    NoRefs(m, c);
    ChangeKeeps(m, c, vers);
    KeepIsPageUpdate(m, k, c.info);
    assert m.pages[p].owners[..1] == [HOST];
  }

  ghost function ReleaseThese(m: Mem, todo: set<nat>, guest: OwnerId): (r: Option<Mem>)
    decreases |todo|
  {
    if todo == {} then Some(m)
    else
      var p :| p in todo;
      match ReleaseState(m, p, guest)
      case None => None
      case Some(n) => ReleaseThese(n, todo - {p}, guest)
  }

  lemma {:induction false} ReleaseTheseKeeps(m: Mem, todo: set<nat>, guest: OwnerId, vers: Versions)
    requires MemInv(m) && guest != HOST && todo == StatePages(m, guest)
    ensures ReleaseThese(m, todo, guest).Some?
    ensures var n := ReleaseThese(m, todo, guest).value;
            MemInv(n) && Stable(m, n, vers) && Onward(m, n, guest)
            && n.ptes == m.ptes && n.pins == m.pins && StatePages(n, guest) == {}
    decreases |todo|
  {
    hide MemInv, Stable, Onward, ReleaseState;
    if todo == {} {
      StableSelf(m, vers);
      OnwardSelf(m, guest);
    } else {
      var p :| p in todo && ReleaseThese(m, todo, guest) ==
        match ReleaseState(m, p, guest) case None => None case Some(n) => ReleaseThese(n, todo - {p}, guest);
      ReleaseStateKeeps(m, p, guest, vers);
      var n := ReleaseState(m, p, guest).value;
      ReleaseTheseKeeps(n, todo - {p}, guest, vers);
      StableTrans(m, n, ReleaseThese(n, todo - {p}, guest).value, vers);
      OnwardTrans(m, n, ReleaseThese(n, todo - {p}, guest).value, guest);
    }
  }

  /* ---------------- the whole VM ---------------- */

  function RemoveVm(m: Mem, guest: OwnerId): (n: Mem) {
    m.(vms := m.vms - {guest}, regions := map k | k in m.regions && k.vm != guest :: m.regions[k])
  }

  ghost function Destroy(m: Mem, guest: OwnerId): (r: Option<Mem>) {
    match DropPins(m, guest)
    case None => None
    case Some(m1) =>
      match DropThese(m1, Entries(m1, guest))
      case None => None
      case Some(m2) =>
        match ReleaseThese(m2, StatePages(m2, guest), guest)
        case None => None
        case Some(m3) => Some(RemoveVm(m3, guest))
  }

  /** The references to page `p` that `guest` holds. */
  ghost function RefsOf(m: Mem, guest: OwnerId, p: nat): (s: set<Key>) {
    set k | k in m.ptes && k.vm == guest && m.ptes[k].page == p
  }

  /** A page that `guest` did not own has lost exactly the references that `guest` held. */
  ghost predicate PageBack(m: Mem, n: Mem, guest: OwnerId, p: nat)
    requires p in m.pages && p in n.pages
  {
    && n.pages[p].owners == m.pages[p].owners
    && n.pins[p] == m.pins[p]
    && RefCount(n.pages[p].state) == RefCount(m.pages[p].state) - |RefsOf(m, guest, p)|
    && (RefsOf(m, guest, p) == {} ==> n.pages[p] == m.pages[p])
    && (RefCount(m.pages[p].state) == |RefsOf(m, guest, p)| > 0 ==> n.pages[p].state == Mapped)
  }

  /** Everything the guest had is the host's again, and nothing else has changed: a page it owned, for
      its memory or for its state, is Converted and owned by the host; each reference it held to a page
      of the host is dropped once; its entries and regions are gone. */
  ghost predicate Destroyed(m: Mem, n: Mem, guest: OwnerId) {
    && n.vms == m.vms - {guest}
    && n.pages.Keys == m.pages.Keys
    && n.ptes == m.ptes - Entries(m, guest)
    && (forall k :: Get(n.regions, k) == if k.vm == guest then None else Get(m.regions, k))
    && (forall p | p in m.pages ::
          if Borrowed(m.pages[p], guest) then n.pages[p] == Info(Ram, Converted, [HOST]) && n.pins[p] == 0
          else PageBack(m, n, guest, p))
  }

  function VersionsWithout(vers: Versions, guest: OwnerId): (v: Versions) {
    vers - {guest}
  }

  lemma StableWithout(m: Mem, n: Mem, vers: Versions, guest: OwnerId)
    requires Stable(m, n, vers)
    ensures Stable(m, n, VersionsWithout(vers, guest))
  {
  }

  /** After the table is dropped and the state pages are released, the guest owns no page. */
  lemma NothingOwned(m: Mem, guest: OwnerId)
    requires MemInv(m) && guest != HOST && Entries(m, guest) == {} && StatePages(m, guest) == {}
    ensures forall p | p in m.pages :: !(|m.pages[p].owners| == 2 && m.pages[p].owners[1] == guest)
    ensures forall p | p in m.pages :: InfoOk(m.pages[p], m.vms - {guest})
  {
    forall p | p in m.pages && |m.pages[p].owners| == 2 ensures m.pages[p].owners[1] != guest {
      OwnedIsHeld(m, guest, p);
    }
  }

  lemma OwnedIsHeld(m: Mem, guest: OwnerId, p: nat)
    requires MemInv(m) && guest != HOST && p in m.pages && |m.pages[p].owners| == 2
    ensures m.pages[p].owners[1] == guest ==> p in StatePages(m, guest) || Entries(m, guest) != {}
  {
    if m.pages[p].owners[1] == guest && !m.pages[p].state.VmState? {
      assert MustName(m.pages[p], guest) && Names(m, guest, p);
      var g :| Key(guest, g) in m.ptes && m.ptes[Key(guest, g)].page == p;
      assert Key(guest, g) in Entries(m, guest);
    }
  }

  lemma RemoveVmKeeps(m: Mem, guest: OwnerId, vers: Versions)
    requires MemInv(m) && guest != HOST && Entries(m, guest) == {} && StatePages(m, guest) == {}
    ensures MemInv(RemoveVm(m, guest)) && Stable(m, RemoveVm(m, guest), vers)
  {
    hide MemInv, Stable;
    NothingOwned(m, guest);
    RegionKeys(m);
    forall k | k in m.ptes ensures k.vm != guest {
      assert k !in Entries(m, guest);
    }
    Extend(m, RemoveVm(m, guest), vers);
  }

  /** Destroying a guest cannot fail, keeps the memory invariant, and takes nothing away from the other VMs. */
  lemma DestroyKeeps(m: Mem, guest: OwnerId, vers: Versions)
    requires MemInv(m) && Fresh(m, vers) && Unlocked(m) && guest != HOST && guest in m.vms
    ensures Destroy(m, guest).Some?
    ensures var n := Destroy(m, guest).value;
            && Good(m, n, VersionsWithout(vers, guest)) && Unlocked(n)
            && Destroyed(m, n, guest)
  {
    hide MemInv, Stable, Onward, NoneShared, Destroyed;
    var v := VersionsWithout(vers, guest);
    RegionKeys(m);
    DropPinsKeeps(m, guest, vers);
    var m1 := DropPins(m, guest).value;
    StableWithout(m, m1, vers, guest);
    UnpinnedNotShared(m1, guest);
    DropTheseKeeps(m1, guest, Entries(m1, guest), v);
    var m2 := DropThese(m1, Entries(m1, guest)).value;
    ReleaseTheseKeeps(m2, StatePages(m2, guest), guest, v);
    var m3 := ReleaseThese(m2, StatePages(m2, guest), guest).value;
    assert Entries(m3, guest) == {};
    RemoveVmKeeps(m3, guest, v);
    var n := RemoveVm(m3, guest);
    StableTrans(m, m1, m2, v);
    StableTrans(m, m2, m3, v);
    StableTrans(m, m3, n, v);
    OnwardTrans(m, m1, m2, guest);
    OnwardTrans(m, m2, m3, guest);
    NothingOwned(m3, guest);
    TornDown(m, m1, m3, guest, vers);
  }

  lemma OwnedIsBorrowed(i: Info, vms: set<OwnerId>, guest: OwnerId)
    requires InfoOk(i, vms) && guest != HOST && guest != HYPERVISOR
    ensures Owner(i) == Some(guest) ==> Borrowed(i, guest)
  {
    if Owner(i) == Some(guest) {
      assert i.owners == [HOST, guest];
    }
  }

  lemma TornDown(m: Mem, m1: Mem, m3: Mem, guest: OwnerId, vers: Versions)
    requires MemInv(m) && MemInv(m3) && Fresh(m, vers) && guest != HOST && guest != HYPERVISOR && Unlocked(m)
    requires PinsDropped(m, m1, guest) && m3.pins == m1.pins && m3.ptes == m1.ptes - Entries(m1, guest)
    requires Onward(m, m3, guest)
    requires forall p | p in m3.pages :: !(|m3.pages[p].owners| == 2 && m3.pages[p].owners[1] == guest)
    ensures var n := RemoveVm(m3, guest);
            Unlocked(n) && Fresh(n, VersionsWithout(vers, guest)) && Destroyed(m, n, guest)
  {
    hide MemInv;
    var n := RemoveVm(m3, guest);
    forall p | p in m.pages && Borrowed(m.pages[p], guest)
      ensures n.pages[p] == Info(Ram, Converted, [HOST]) && n.pins[p] == 0
    {
      CountAt(m3, p);
    }
    forall p | p in m.pages && !Borrowed(m.pages[p], guest)
      ensures PageBack(m, n, guest, p)
    {
      PageAt(m, p);
      OwnedIsBorrowed(m.pages[p], m.vms, guest);
      PageComesBack(m, m3, guest, p);
    }
  }

  lemma PageComesBack(m: Mem, n: Mem, guest: OwnerId, p: nat)
    requires MemInv(m) && MemInv(n) && guest != HOST && p in m.pages && !Borrowed(m.pages[p], guest)
    requires Onward(m, n, guest) && n.ptes == m.ptes - Entries(m, guest) && n.pins[p] == m.pins[p]
    ensures PageBack(m, n, guest, p)
  {
    hide MemInv;
    CountAt(m, p);
    CountAt(n, p);
    PageAt(m, p);
    PageAt(n, p);
    assert Progress(m.pages[p], n.pages[p], guest);
    RefsSplit(m, n, guest, p);
  }

  lemma RefsSplit(m: Mem, n: Mem, guest: OwnerId, p: nat)
    requires p in m.pages && p in n.pages && n.pages[p].owners == m.pages[p].owners && guest !in m.pages[p].owners
    requires n.ptes == m.ptes - Entries(m, guest)
    ensures |ChildRefs(m, p)| == |ChildRefs(n, p)| + |RefsOf(m, guest, p)|
  {
    var a, b := ChildRefs(n, p), RefsOf(m, guest, p);
    forall k ensures k in ChildRefs(m, p) <==> k in a + b {
      assert k in m.ptes && k.vm == guest <==> k in Entries(m, guest);
    }
    assert a !! b by {
      forall k | k in a ensures k !in b {
        assert k !in Entries(m, guest);
      }
    }
    assert ChildRefs(m, p) == a + b;
  }
}
