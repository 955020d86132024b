/** The calls on memory, one guest page at a time: what each does to the page and to the entry, and that
    it keeps the memory invariant and every translation a running vCPU may have cached. */
module MemorySteps {
  import opened Basics
  import opened PageInfos
  import opened Memory

  /* `None` stands for a panic: an `unwrap` in the source that meets an error. */

  /** The change that puts `i` on the page named at `k`, and leaves the rest. */
  function Keep(m: Mem, k: Key, i: Info): (c: Change)
    requires k in m.ptes && k in m.regions
  {
    Change(k, Some(m.ptes[k]), m.regions[k], m.ptes[k].page, i, m.pins[m.ptes[k].page])
  }

  lemma ChangeKeeps(m: Mem, c: Change, vers: Versions)
    requires MemInv(m) && About(m, c)
    requires SelfOk(m, c) && NamersOk(m, c) && SelfStays(m, c, vers)
    requires forall l | Other(m, c.k, c.p, l) :: OtherOk(m, c, l) && OtherStays(m, c, l, vers)
    requires RefCount(c.info.state) == |ChildRefs(Set(m, c), c.p)| + c.pins
    ensures MemInv(Set(m, c)) && Stable(m, Set(m, c), vers)
  {
    SetInv(m, c);
    SetStable(m, c, vers);
  }

  lemma ChangeGood(m: Mem, c: Change, vers: Versions)
    requires MemInv(m) && Fresh(m, vers) && About(m, c)
    requires SelfOk(m, c) && NamersOk(m, c) && SelfStays(m, c, vers)
    requires forall l | Other(m, c.k, c.p, l) :: OtherOk(m, c, l) && OtherStays(m, c, l, vers)
    requires RefCount(c.info.state) == |ChildRefs(Set(m, c), c.p)| + c.pins
    requires c.region.Sharing? || c.region.Unsharing? ==> c.k.vm in vers && vers[c.k.vm].min <= c.region.version
    ensures Good(m, Set(m, c), vers)
  {
    ChangeKeeps(m, c, vers);
    SetFresh(m, c, vers);
  }

  /** What the invariant says about one entry. */
  lemma EntryAt(m: Mem, k: Key)
    requires MemInv(m) && k in m.ptes
    ensures k in m.regions && k.vm in m.vms && m.ptes[k].page in m.pages
    ensures InfoOk(m.pages[m.ptes[k].page], m.vms)
    ensures EntryOk(m.ptes[k], k, m.pages[m.ptes[k].page], m.regions[k])
  {
  }

  lemma PageAt(m: Mem, p: nat)
    requires MemInv(m) && p in m.pages
    ensures InfoOk(m.pages[p], m.vms)
  {
  }

  /** A page that its only owner has not shared is named nowhere else. */
  lemma Alone(m: Mem, k: Key)
    requires MemInv(m) && k in m.ptes
    requires m.pages[m.ptes[k].page].owners == [k.vm] && !m.pages[m.ptes[k].page].state.Shared?
    ensures forall l :: !Other(m, k, m.ptes[k].page, l)
  {
  }

  /** Besides the owner's entry at `k`, a borrowed page that is not shared is named only by the invalid
      entry of the VM it was borrowed from. */
  lemma OnlyLender(m: Mem, k: Key)
    requires MemInv(m) && k in m.ptes
    requires Owner(m.pages[m.ptes[k].page]) == Some(k.vm) && !m.pages[m.ptes[k].page].state.Shared?
    ensures forall l | Other(m, k, m.ptes[k].page, l) ::
              l.vm == HOST && m.ptes[l].Invalidated? && l in m.regions && m.regions[l] == Confidential
  {
  }

  /* The references to the page after a change. */

  lemma SameRefs(m: Mem, c: Change)
    requires About(m, c) && c.info.owners == m.pages[c.p].owners
    requires c.k in m.ptes && c.entry.Some?
    ensures ChildRefs(Set(m, c), c.p) == ChildRefs(m, c.p)
  {
  }

  lemma RefAdded(m: Mem, c: Change)
    requires About(m, c) && c.info.owners == m.pages[c.p].owners
    requires c.k !in m.ptes && c.entry.Some? && c.k.vm !in c.info.owners
    ensures |ChildRefs(Set(m, c), c.p)| == |ChildRefs(m, c.p)| + 1
  {
    var n := Set(m, c);
    assert c.k in ChildRefs(n, c.p);
    forall l ensures l in ChildRefs(n, c.p) <==> l in ChildRefs(m, c.p) + {c.k} {
    }
    assert ChildRefs(n, c.p) == ChildRefs(m, c.p) + {c.k};
  }

  lemma RefRemoved(m: Mem, c: Change)
    requires About(m, c) && c.info.owners == m.pages[c.p].owners
    requires c.k in m.ptes && c.entry.None? && c.k.vm !in c.info.owners
    ensures |ChildRefs(Set(m, c), c.p)| == |ChildRefs(m, c.p)| - 1
  {
    assert ChildRefs(m, c.p) == ChildRefs(Set(m, c), c.p) + {c.k};
  }

  lemma NoRefs(m: Mem, c: Change)
    requires About(m, c)
    requires forall l | Other(m, c.k, c.p, l) :: l.vm in c.info.owners
    requires c.entry.Some? ==> c.k.vm in c.info.owners
    ensures ChildRefs(Set(m, c), c.p) == {}
  {
    var n := Set(m, c);
    forall l | l in ChildRefs(n, c.p) ensures false {
      if l != c.k { assert Other(m, c.k, c.p, l); }
    }
  }

  lemma UnsharedHasNoRefs(m: Mem, p: nat)
    requires MemInv(m) && p in m.pages && !m.pages[p].state.Shared?
    ensures ChildRefs(m, p) == {} && m.pins[p] == 0
  {
  }

  /* ---------------- convert ---------------- */

  predicate Convertible(m: Mem, k: Key) {
    k in m.ptes && m.ptes[k].Leaf? && m.ptes[k].page in m.pages && IsMappedPage(m.pages[m.ptes[k].page], k.vm)
  }

  /** Invalidates the entry and begins the conversion of the page. */
  function ConvertOne(m: Mem, k: Key, version: nat): (r: Option<Mem>) {
    if k !in m.ptes || !m.ptes[k].Leaf? then Some(m)
    else if m.ptes[k].page !in m.pages || k !in m.regions then None
    else match BeginConversion(m.pages[m.ptes[k].page], version)
      case Ok(i) => Some(Set(m, Keep(m, k, i).(entry := Some(Invalidated(m.ptes[k].page)))))
      case Err(_) => None
  }

  lemma ConvertOneGood(m: Mem, k: Key, vers: Versions)
    requires MemInv(m) && Fresh(m, vers) && k.vm == HOST && Convertible(m, k)
    ensures ConvertOne(m, k, vers[HOST].cur).Some?
    ensures Good(m, ConvertOne(m, k, vers[HOST].cur).value, vers)
  {
    hide MemInv, Good;
    EntryAt(m, k);
    Alone(m, k);
    UnsharedHasNoRefs(m, m.ptes[k].page);
    var i := BeginConversion(m.pages[m.ptes[k].page], vers[HOST].cur).value;
    var c := Keep(m, k, i).(entry := Some(Invalidated(m.ptes[k].page)));
    SameRefs(m, c);
    ChangeGood(m, c, vers);
  }

  /* ---------------- converted pages: lock, unlock, reclaim, assign ---------------- */

  predicate Lockable(m: Mem, k: Key, version: nat) {
    k in m.ptes && m.ptes[k].Invalidated? && m.ptes[k].page in m.pages
      && IsConvertedPage(m.pages[m.ptes[k].page], k.vm, version)
  }

  /** Completes the conversion if it has not been, and takes the exclusive lock on the page. */
  function LockOne(m: Mem, k: Key, version: nat): (r: Option<Mem>) {
    if k !in m.ptes || !m.ptes[k].Invalidated? || m.ptes[k].page !in m.pages then None
    else match GetConverted(m.pages[m.ptes[k].page], k.vm, version)
      case Ok(i) => Some(m.(pages := m.pages[m.ptes[k].page := i]))
      case Err(_) => None
  }

  lemma KeepIsPageUpdate(m: Mem, k: Key, i: Info)
    requires k in m.ptes && k in m.regions
    ensures Set(m, Keep(m, k, i)) == m.(pages := m.pages[m.ptes[k].page := i])
  {
    assert m.ptes[k := m.ptes[k]] == m.ptes;
    assert m.regions[k := m.regions[k]] == m.regions;
    assert m.pins[m.ptes[k].page := m.pins[m.ptes[k].page]] == m.pins;
  }

  lemma LockOneGood(m: Mem, k: Key, vers: Versions)
    requires MemInv(m) && Fresh(m, vers) && k.vm in vers && Lockable(m, k, vers[k.vm].min)
    ensures k.vm == HOST && m.pages[m.ptes[k].page].owners == [HOST]
    ensures LockOne(m, k, vers[k.vm].min).Some?
    ensures Good(m, LockOne(m, k, vers[k.vm].min).value, vers)
    ensures LockOne(m, k, vers[k.vm].min).value ==
            m.(pages := m.pages[m.ptes[k].page := Info(Ram, ConvertedLocked, [HOST])])
  {
    hide MemInv, Good;
    EntryAt(m, k);
    Alone(m, k);
    UnsharedHasNoRefs(m, m.ptes[k].page);
    var c := Keep(m, k, Info(Ram, ConvertedLocked, [HOST]));
    SameRefs(m, c);
    ChangeGood(m, c, vers);
    KeepIsPageUpdate(m, k, c.info);
  }

  predicate Locked(m: Mem, k: Key) {
    k.vm == HOST && k in m.ptes && m.ptes[k].Invalidated? && m.ptes[k].page in m.pages
    && m.pages[m.ptes[k].page] == Info(Ram, ConvertedLocked, [HOST])
  }

  function UnlockOne(m: Mem, p: nat): (r: Option<Mem>) {
    if p !in m.pages then None
    else match PageInfos.Unlock(m.pages[p])
      case Ok(i) => Some(m.(pages := m.pages[p := i]))
      case Err(_) => None
  }

  lemma UnlockOneGood(m: Mem, k: Key, vers: Versions)
    requires MemInv(m) && Fresh(m, vers) && Locked(m, k)
    ensures UnlockOne(m, m.ptes[k].page).Some?
    ensures Good(m, UnlockOne(m, m.ptes[k].page).value, vers)
    ensures UnlockOne(m, m.ptes[k].page).value == m.(pages := m.pages[m.ptes[k].page := Info(Ram, Converted, [HOST])])
  {
    hide MemInv, Good;
    EntryAt(m, k);
    Alone(m, k);
    UnsharedHasNoRefs(m, m.ptes[k].page);
    var c := Keep(m, k, Info(Ram, Converted, [HOST]));
    SameRefs(m, c);
    ChangeGood(m, c, vers);
    KeepIsPageUpdate(m, k, c.info);
  }

  /** An entry that can be locked for mapping in a region of the given type. */
  predicate Mappable(m: Mem, k: Key, r: RegionType) {
    k in m.regions && m.regions[k] == r && (k in m.ptes ==> !m.ptes[k].Leaf?)
  }

  /** Maps page `p`, whose new state is given, at `k`; the entry there was locked for mapping. */
  function MapPage(m: Mem, k: Key, p: nat, i: Info): (r: Option<Mem>) {
    if k !in m.regions || (k in m.ptes && m.ptes[k].Leaf?) then None
    else Some(Set(m, Change(k, Some(Leaf(p)), m.regions[k], p, i, m.pins[p])))
  }

  /** Gives a converted page back to the host that converted it. */
  function ReclaimOne(m: Mem, p: nat, k: Key): (r: Option<Mem>) {
    if p !in m.pages then None
    else match PageInfos.Reclaim(m.pages[p])
      case Ok(i) => MapPage(m, k, p, i)
      case Err(_) => None
  }

  lemma ReclaimOneGood(m: Mem, k: Key, vers: Versions)
    requires MemInv(m) && Fresh(m, vers) && Locked(m, k)
    ensures ReclaimOne(m, m.ptes[k].page, k).Some?
    ensures Good(m, ReclaimOne(m, m.ptes[k].page, k).value, vers)
  {
    hide MemInv, Good;
    EntryAt(m, k);
    Alone(m, k);
    UnsharedHasNoRefs(m, m.ptes[k].page);
    var c := Keep(m, k, Info(Ram, Mapped, [HOST])).(entry := Some(Leaf(m.ptes[k].page)));
    SameRefs(m, c);
    ChangeGood(m, c, vers);
  }

  /** Assigns a locked page to the guest of `to` and maps it there. */
  function AssignOne(m: Mem, p: nat, to: Key): (r: Option<Mem>) {
    if p !in m.pages then None
    else match Assign(m.pages[p], to.vm, Mapped)
      case Ok(i) => MapPage(m, to, p, i)
      case Err(_) => None
  }

  lemma NothingMapped(m: Mem, k: Key, r: RegionType)
    requires MemInv(m) && k.vm != HOST && Mappable(m, k, r) && (r == Confidential || r == SharedRegion)
    ensures k !in m.ptes && k.vm in m.vms
  {
  }

  lemma NotNamedBy(m: Mem, from: Key, to: Key)
    requires MemInv(m) && from in m.ptes && to !in m.ptes
    requires m.pages[m.ptes[from].page].owners == [HOST] && from.vm == HOST && !m.pages[m.ptes[from].page].state.Shared?
    ensures forall l | Other(m, to, m.ptes[from].page, l) :: l == from
  {
  }

  lemma AssignOneGood(m: Mem, from: Key, to: Key, vers: Versions)
    requires MemInv(m) && Fresh(m, vers) && Locked(m, from)
    requires to.vm != HOST && Mappable(m, to, Confidential)
    ensures AssignOne(m, m.ptes[from].page, to).Some?
    ensures Good(m, AssignOne(m, m.ptes[from].page, to).value, vers)
  {
    hide MemInv, Good;
    var p := m.ptes[from].page;
    EntryAt(m, from);
    NothingMapped(m, to, Confidential);
    NotNamedBy(m, from, to);
    UnsharedHasNoRefs(m, p);
    var c := Change(to, Some(Leaf(p)), Confidential, p, Info(Ram, Mapped, [HOST, to.vm]), m.pins[p]);
    NoRefs(m, c);
    ChangeGood(m, c, vers);
    assert [HOST] + [to.vm] == [HOST, to.vm];
  }

  /** Assigns a locked page to `vm` for internal state: a page-table page, a vCPU, the VM itself. */
  function AssignInternalOne(m: Mem, p: nat, vm: OwnerId): (r: Option<Mem>) {
    if p !in m.pages then None
    else match Assign(m.pages[p], vm, VmState)
      case Ok(i) => Some(m.(pages := m.pages[p := i]))
      case Err(_) => None
  }

  lemma AssignInternalOneGood(m: Mem, from: Key, vm: OwnerId, vers: Versions)
    requires MemInv(m) && Fresh(m, vers) && Locked(m, from) && vm != HOST && vm in m.vms
    ensures AssignInternalOne(m, m.ptes[from].page, vm).Some?
    ensures Good(m, AssignInternalOne(m, m.ptes[from].page, vm).value, vers)
  {
    hide MemInv, Good;
    EntryAt(m, from);
    Alone(m, from);
    UnsharedHasNoRefs(m, m.ptes[from].page);
    var c := Keep(m, from, Info(Ram, VmState, [HOST, vm]));
    NoRefs(m, c);
    ChangeGood(m, c, vers);
    KeepIsPageUpdate(m, from, c.info);
    assert [HOST] + [vm] == [HOST, vm];
  }

  /* ---------------- pages shared by the host, and pins ---------------- */

  predicate Shareable(m: Mem, k: Key) {
    k in m.ptes && m.ptes[k].Leaf? && m.ptes[k].page in m.pages && IsShareablePage(m.pages[m.ptes[k].page], k.vm)
  }

  /** Takes a reference to a page of the host for the guest of `to`, and maps it there. */
  function ShareOne(m: Mem, p: nat, to: Key): (r: Option<Mem>) {
    if p !in m.pages then None
    else match SharePage(m.pages[p], HOST)
      case Ok(i) => MapPage(m, to, p, i)
      case Err(_) => None
  }

  /** Besides whatever is at `k`, a page that the host has mapped or shared is named by the host's valid entry and by
      entries of guests in shared regions, or regions that are about to be unshared. */
  lemma Sharers(m: Mem, k: Key, p: nat)
    requires MemInv(m) && p in m.pages && m.pages[p].owners == [HOST]
    requires m.pages[p].state.Mapped? || m.pages[p].state.Shared?
    ensures forall l | Other(m, k, p, l) ::
              l in m.regions && EntryOk(m.ptes[l], l, m.pages[p], m.regions[l])
              && (if l.vm == HOST then m.ptes[l].Leaf? else m.pages[p].state.Shared?)
  {
  }

  lemma ShareOneGood(m: Mem, from: Key, to: Key, vers: Versions)
    requires MemInv(m) && Fresh(m, vers) && from.vm == HOST && Shareable(m, from)
    requires to.vm != HOST && Mappable(m, to, SharedRegion)
    ensures ShareOne(m, m.ptes[from].page, to).Some?
    ensures Good(m, ShareOne(m, m.ptes[from].page, to).value, vers)
  {
    hide MemInv, Good;
    var p := m.ptes[from].page;
    EntryAt(m, from);
    NothingMapped(m, to, SharedRegion);
    Sharers(m, to, p);
    var i := SharePage(m.pages[p], HOST).value;
    var c := Change(to, Some(Leaf(p)), SharedRegion, p, i, m.pins[p]);
    RefAdded(m, c);
    CountAt(m, p);
    ChangeGood(m, c, vers);
  }

  lemma CountAt(m: Mem, p: nat)
    requires MemInv(m) && p in m.pages
    ensures RefCount(m.pages[p].state) == |ChildRefs(m, p)| + m.pins[p]
  {
  }

  /** Pins a page of the VM of `k` for the hypervisor. */
  function PinOne(m: Mem, k: Key): (r: Option<Mem>) {
    if k !in m.ptes || m.ptes[k].page !in m.pages then None
    else match SharePage(m.pages[m.ptes[k].page], k.vm)
      case Ok(i) => Some(m.(pages := m.pages[m.ptes[k].page := i], pins := m.pins + multiset{m.ptes[k].page}))
      case Err(_) => None
  }

  lemma OthersOfOwned(m: Mem, k: Key)
    requires MemInv(m) && k in m.ptes && m.ptes[k].Leaf?
    requires Owner(m.pages[m.ptes[k].page]) == Some(k.vm)
    ensures forall l | Other(m, k, m.ptes[k].page, l) ::
              l in m.regions && EntryOk(m.ptes[l], l, m.pages[m.ptes[k].page], m.regions[l])
              && (if l.vm == HOST then m.ptes[l].Invalidated? && k.vm != HOST && m.regions[l] == Confidential
                  else m.pages[m.ptes[k].page].state.Shared? && k.vm == HOST)
  {
  }

  lemma PinOneGood(m: Mem, k: Key, vers: Versions)
    requires MemInv(m) && Fresh(m, vers) && Shareable(m, k)
    ensures PinOne(m, k).Some?
    ensures Good(m, PinOne(m, k).value, vers)
  {
    hide MemInv, Good;
    var p := m.ptes[k].page;
    EntryAt(m, k);
    OthersOfOwned(m, k);
    CountAt(m, p);
    var i := SharePage(m.pages[p], k.vm).value;
    var c := Keep(m, k, i).(pins := m.pins[p] + 1);
    SameRefs(m, c);
    ChangeGood(m, c, vers);
    assert m.ptes[k := m.ptes[k]] == m.ptes && m.regions[k := m.regions[k]] == m.regions;
    assert m.pins[p := m.pins[p] + 1] == m.pins + multiset{p};
  }

  /** Drops a pin on page `p`, which belongs to `owner`. */
  function UnpinOne(m: Mem, p: nat, owner: OwnerId): (r: Option<Mem>) {
    if p !in m.pages then None
    else match ReleaseBy(m.pages[p], owner)
      case Ok(i) => Some(m.(pages := m.pages[p := i], pins := m.pins - multiset{p}))
      case Err(_) => None
  }

  /** A pinned page is shared, and its owner has it mapped. */
  lemma PinnedPage(m: Mem, p: nat) returns (k: Key)
    requires MemInv(m) && p in m.pins
    ensures p in m.pages && m.pages[p].state.Shared?
    ensures k in m.ptes && m.ptes[k] == Leaf(p) && Owner(m.pages[p]) == Some(k.vm)
  {
    CountAt(m, p);
    var vm := m.pages[p].owners[|m.pages[p].owners| - 1];
    assert MustName(m.pages[p], vm) && Names(m, vm, p);
    var g :| Key(vm, g) in m.ptes && m.ptes[Key(vm, g)].page == p;
    k := Key(vm, g);
    EntryAt(m, k);
  }

  lemma UnpinOneGood(m: Mem, p: nat, owner: OwnerId, vers: Versions)
    requires MemInv(m) && Fresh(m, vers) && p in m.pins
    ensures UnpinOne(m, p, owner).Some?
    ensures Good(m, UnpinOne(m, p, owner).value, vers)
  {
    hide MemInv, Good;
    var k := PinnedPage(m, p);
    EntryAt(m, k);
    OthersOfOwned(m, k);
    CountAt(m, p);
    var i := ReleaseBy(m.pages[p], owner).value;
    var c := Keep(m, k, i).(pins := m.pins[p] - 1);
    SameRefs(m, c);
    if m.pages[p].state == Shared(1) { LastRef(m, k); }
    ChangeGood(m, c, vers);
    assert m.ptes[k := m.ptes[k]] == m.ptes && m.regions[k := m.regions[k]] == m.regions;
    assert m.pins[p := m.pins[p] - 1] == m.pins - multiset{p};
  }

  /** If a pinned page has only one reference left, then that is the pin, and no other VM names the page. */
  lemma LastRef(m: Mem, k: Key)
    requires MemInv(m) && k in m.ptes && m.ptes[k].Leaf? && m.ptes[k].page in m.pins
    requires Owner(m.pages[m.ptes[k].page]) == Some(k.vm)
    requires m.pages[m.ptes[k].page].state == Shared(1)
    ensures forall l | Other(m, k, m.ptes[k].page, l) :: l.vm == HOST
  {
    var p := m.ptes[k].page;
    CountAt(m, p);
    assert ChildRefs(m, p) == {};
    forall l | Other(m, k, p, l) ensures l.vm == HOST {
      assert l !in ChildRefs(m, p);
    }
  }

  /* ---------------- the guest's own conversions between confidential and shared ---------------- */

  function Retype(m: Mem, k: Key, r: RegionType): (n: Mem) {
    m.(regions := m.regions[k := r])
  }

  lemma RetypeKeeps(m: Mem, k: Key, r: RegionType, vers: Versions)
    requires MemInv(m) && k in m.regions && k !in m.ptes
    ensures MemInv(Retype(m, k, r)) && Stable(m, Retype(m, k, r), vers)
  {
    var n := Retype(m, k, r);
    forall p, vm | p in n.pages && MustName(n.pages[p], vm) ensures Names(n, vm, p) {
      assert Names(m, vm, p);
    }
    forall p | p in n.pages ensures ChildRefs(n, p) == ChildRefs(m, p) {
    }
  }

  lemma RetypeGood(m: Mem, k: Key, r: RegionType, vers: Versions)
    requires MemInv(m) && Fresh(m, vers) && k in m.regions && k !in m.ptes
    requires r.Sharing? || r.Unsharing? ==> k.vm in vers && vers[k.vm].min <= r.version
    ensures Good(m, Retype(m, k, r), vers)
  {
    RetypeKeeps(m, k, r, vers);
  }

  /** A guest page from which a confidential page can be withdrawn, or which holds none. */
  predicate Withdrawable(m: Mem, k: Key) {
    k in m.regions && m.regions[k] == Confidential && (k in m.ptes ==> Convertible(m, k))
  }

  /** share: invalidates the entry and begins to take the page away from the guest. */
  function WithdrawOne(m: Mem, k: Key, version: nat, r: RegionType): (n: Option<Mem>) {
    if k !in m.ptes || !m.ptes[k].Leaf? then Some(Retype(m, k, r))
    else if m.ptes[k].page !in m.pages || k !in m.regions then None
    else match BeginUnassignment(m.pages[m.ptes[k].page], version)
      case Ok(i) => Some(Set(m, Keep(m, k, i).(entry := Some(Invalidated(m.ptes[k].page)), region := r)))
      case Err(_) => None
  }

  lemma WithdrawOneGood(m: Mem, k: Key, r: RegionType, vers: Versions)
    requires MemInv(m) && Fresh(m, vers) && k.vm != HOST && k.vm in vers && Withdrawable(m, k)
    requires vers[k.vm].min <= vers[k.vm].cur
    requires r == Sharing(vers[k.vm].cur) || (r == SharedRegion && k !in m.ptes)
    ensures WithdrawOne(m, k, vers[k.vm].cur, r).Some?
    ensures Good(m, WithdrawOne(m, k, vers[k.vm].cur, r).value, vers)
  {
    hide MemInv, Good;
    if k in m.ptes {
      EntryAt(m, k);
      OnlyLender(m, k);
      UnsharedHasNoRefs(m, m.ptes[k].page);
      var i := BeginUnassignment(m.pages[m.ptes[k].page], vers[k.vm].cur).value;
      var c := Keep(m, k, i).(entry := Some(Invalidated(m.ptes[k].page)), region := r);
      SameRefs(m, c);
      ChangeGood(m, c, vers);
    } else {
      RetypeGood(m, k, r, vers);
    }
  }

  /** A guest page from which a shared page can be withdrawn, or which holds none. */
  predicate Returnable(m: Mem, k: Key) {
    && k in m.regions && m.regions[k] == SharedRegion
    && (k in m.ptes ==>
          && m.ptes[k].Leaf? && m.ptes[k].page in m.pages
          && m.pages[m.ptes[k].page].memType == Ram && m.pages[m.ptes[k].page].state.Shared?
          && Owner(m.pages[m.ptes[k].page]) != Some(k.vm))
  }

  /** unshare: invalidates the entry; the reference is kept until no vCPU can have it cached. */
  function ReturnOne(m: Mem, k: Key, r: RegionType): (n: Mem) {
    if k in m.ptes && m.ptes[k].Leaf? && k in m.regions && m.ptes[k].page in m.pages then
      Set(m, Keep(m, k, m.pages[m.ptes[k].page]).(entry := Some(Invalidated(m.ptes[k].page)), region := r))
    else Retype(m, k, r)
  }

  lemma ReturnOneGood(m: Mem, k: Key, r: RegionType, vers: Versions)
    requires MemInv(m) && Fresh(m, vers) && k.vm != HOST && k.vm in vers && Returnable(m, k)
    requires vers[k.vm].min <= vers[k.vm].cur
    requires r == Unsharing(vers[k.vm].cur) || (r == Confidential && k !in m.ptes)
    ensures Good(m, ReturnOne(m, k, r), vers)
  {
    hide MemInv, Good;
    if k in m.ptes {
      EntryAt(m, k);
      Sharers(m, k, m.ptes[k].page);
      CountAt(m, m.ptes[k].page);
      var c := Keep(m, k, m.pages[m.ptes[k].page]).(entry := Some(Invalidated(m.ptes[k].page)), region := r);
      SameRefs(m, c);
      ChangeGood(m, c, vers);
    } else {
      RetypeGood(m, k, r, vers);
    }
  }

  /** A guest page whose conversion began before version `min`. */
  predicate Overdue(m: Mem, k: Key, min: nat) {
    k in m.regions && (m.regions[k].Sharing? || m.regions[k].Unsharing?) && m.regions[k].version < min
  }

  /** The checks made by the end operations before they change anything: every entry is unused, or
      invalidated with a page that can be taken away, respectively whose reference can be dropped. */
  predicate CanComplete(m: Mem, k: Key, min: nat)
    requires Overdue(m, k, min)
  {
    k in m.ptes ==>
      && m.ptes[k].Invalidated?
      && m.ptes[k].page in m.pages
      && (if m.regions[k].Sharing? then IsUnassignablePage(m.pages[m.ptes[k].page], k.vm, min)
          else m.pages[m.ptes[k].page].memType == Ram && m.pages[m.ptes[k].page].state.Shared?
               && Owner(m.pages[m.ptes[k].page]) != Some(k.vm))
  }

  lemma CompletionCheckPasses(m: Mem, k: Key, min: nat)
    requires MemInv(m) && Overdue(m, k, min)
    ensures CanComplete(m, k, min)
  {
  }

  /** Completes the conversion of one guest page: the page goes back to the host, or the reference to it
      is dropped, and the region takes its new type. */
  function CompleteOne(m: Mem, k: Key, min: nat): (r: Option<Mem>)
    requires Overdue(m, k, min)
  {
    var region := if m.regions[k].Sharing? then SharedRegion else Confidential;
    if k !in m.ptes then Some(Retype(m, k, region))
    else if m.ptes[k].page !in m.pages then None
    else
      var i := m.pages[m.ptes[k].page];
      match if m.regions[k].Sharing? then CompleteUnassignment(i, min) else ReleaseBy(i, k.vm)
      case Ok(j) => Some(Set(m, Keep(m, k, j).(entry := None, region := region)))
      case Err(_) => None
  }

  lemma CompleteOneKeeps(m: Mem, k: Key, vers: Versions)
    requires MemInv(m) && k.vm in vers && Overdue(m, k, vers[k.vm].min)
    ensures CompleteOne(m, k, vers[k.vm].min).Some?
    ensures var n := CompleteOne(m, k, vers[k.vm].min).value; MemInv(n) && Stable(m, n, vers)
  {
    hide MemInv, Stable;
    var region := if m.regions[k].Sharing? then SharedRegion else Confidential;
    if k !in m.ptes {
      RetypeKeeps(m, k, region, vers);
    } else {
      EntryAt(m, k);
      CompletionCheckPasses(m, k, vers[k.vm].min);
      var p := m.ptes[k].page;
      if m.regions[k].Sharing? {
        TakenBack(m, k, region, vers);
      } else {
        RefDropped(m, k, region, vers);
      }
    }
  }

  /** The guest's page goes back to the host as a Converted page. */
  lemma TakenBack(m: Mem, k: Key, r: RegionType, vers: Versions)
    requires MemInv(m) && k in m.ptes && k in m.regions && k.vm != HOST
    requires Owner(m.pages[m.ptes[k].page]) == Some(k.vm)
    requires m.pages[m.ptes[k].page].state.Mapped? || m.pages[m.ptes[k].page].state.Unassigning?
    requires k.vm in vers ==> m.pages[m.ptes[k].page].state.Unassigning?
                              && m.pages[m.ptes[k].page].state.version < vers[k.vm].min
    ensures |m.pages[m.ptes[k].page].owners| == 2
    ensures PopOwner(m.pages[m.ptes[k].page]) == Ok(Info(Ram, Converted, [HOST]))
    ensures var n := Set(m, Keep(m, k, Info(Ram, Converted, [HOST])).(entry := None, region := r));
            MemInv(n) && Stable(m, n, vers)
  {
    hide MemInv, Stable;
    EntryAt(m, k);
    OnlyLender(m, k);
    UnsharedHasNoRefs(m, m.ptes[k].page);
    var c := Keep(m, k, Info(Ram, Converted, [HOST])).(entry := None, region := r);
    NoRefs(m, c);
    assert m.pages[m.ptes[k].page].owners[..1] == [HOST];
    ChangeKeeps(m, c, vers);
  }

  /** The guest's reference to a page of the host is dropped. */
  lemma RefDropped(m: Mem, k: Key, r: RegionType, vers: Versions)
    requires MemInv(m) && k in m.ptes && k in m.regions && k.vm != HOST
    requires m.pages[m.ptes[k].page].owners == [HOST] && m.pages[m.ptes[k].page].state.Shared?
    requires k.vm in vers ==> m.ptes[k].Invalidated? && m.regions[k].Unsharing? && m.regions[k].version < vers[k.vm].min
    ensures ReleaseBy(m.pages[m.ptes[k].page], k.vm).Ok?
    ensures var n := Set(m, Keep(m, k, ReleaseBy(m.pages[m.ptes[k].page], k.vm).value).(entry := None, region := r));
            MemInv(n) && Stable(m, n, vers)
  {
    hide MemInv, Stable;
    var p := m.ptes[k].page;
    EntryAt(m, k);
    Sharers(m, k, p);
    CountAt(m, p);
    var c := Keep(m, k, ReleaseBy(m.pages[p], k.vm).value).(entry := None, region := r);
    RefRemoved(m, c);
    if m.pages[p].state == Shared(1) { LastChild(m, k); }
    ChangeKeeps(m, c, vers);
  }

  lemma LastChild(m: Mem, k: Key)
    requires MemInv(m) && k in m.ptes && k.vm != HOST
    requires m.pages[m.ptes[k].page].owners == [HOST] && m.pages[m.ptes[k].page].state == Shared(1)
    ensures forall l | Other(m, k, m.ptes[k].page, l) :: l.vm == HOST
  {
    var p := m.ptes[k].page;
    CountAt(m, p);
    assert k in ChildRefs(m, p);
    forall l | Other(m, k, p, l) && l.vm != HOST ensures false {
      assert {k, l} <= ChildRefs(m, p);
      SubsetSize({k, l}, ChildRefs(m, p));
    }
  }

  lemma {:induction false} SubsetSize<T>(a: set<T>, b: set<T>)
    requires a <= b
    ensures |a| <= |b|
  {
    assert b == a + (b - a);
  }
}
