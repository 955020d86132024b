/** How VMs come and go: the memory at boot, new guests and their regions, and the release of everything a
    guest held when it is destroyed. */
module Lifecycle {
  import opened Basics
  import opened PageInfos
  import opened Memory
  import opened MemoryRanges
  import opened Hypercalls

  /* ---------------- boot ---------------- */

  /** The host alone, with its RAM mapped as `layout` says and the other pages kept by the hypervisor. */
  ghost function Boot(layout: map<nat, nat>, kept: map<nat, Info>): (m: Mem) {
    Mem({HOST},
        (map p | p in kept :: kept[p]) + (map p | p in layout.Values :: Info(Ram, Mapped, [HOST])),
        map k: Key | k.gpn in layout && k.vm == HOST && k in HostKeys(layout) :: Leaf(layout[k.gpn]),
        map k: Key | k in HostKeys(layout) :: Confidential,
        multiset{})
  }

  ghost function HostKeys(layout: map<nat, nat>): (s: set<Key>) {
    set g | g in layout :: Key(HOST, g)
  }

  /** The pages that are not the host's memory: firmware, the hypervisor's own, the pages that hold the state of the
      host VM itself (its root table, table pages, vCPUs), and pages skipped for alignment, locked but unowned. */
  predicate KeptAtBoot(i: Info) {
    && i.memType == Ram
    && if i.state.VmState? then i.owners == [HOST]
       else i.owners == [] && (i.state.Reserved? || i.state.HypState? || i.state.Free? || i.state.ConvertedLocked?)
  }

  lemma BootInv(layout: map<nat, nat>, kept: map<nat, Info>, vers: Versions)
    requires forall g | g in layout :: g < LIMIT
    requires forall g, h | g in layout && h in layout && layout[g] == layout[h] :: g == h
    requires forall p | p in kept :: KeptAtBoot(kept[p])
    requires vers.Keys == {HOST}
    ensures MemInv(Boot(layout, kept)) && Fresh(Boot(layout, kept), vers) && Unlocked(Boot(layout, kept))
  {
    hide MemInv, PagesOk, EntriesOk, NamedOnce, NamedAtAll, Counted;
    BootPages(layout, kept);
    BootEntries(layout, kept);
    BootNames(layout, kept);
    Combine(Boot(layout, kept));
  }

  lemma BootPages(layout: map<nat, nat>, kept: map<nat, Info>)
    requires forall p | p in kept :: KeptAtBoot(kept[p])
    ensures PagesOk(Boot(layout, kept)) && Unlocked(Boot(layout, kept)) && Counted(Boot(layout, kept))
  {
    var m := Boot(layout, kept);
    forall p | p in m.pages ensures InfoOk(m.pages[p], m.vms) && RefCount(m.pages[p].state) == 0 {
    }
    forall p, k | p in m.pages && k in m.ptes && m.ptes[k].page == p ensures k.vm in m.pages[p].owners {
      assert k.vm == HOST && layout[k.gpn] == p && p in layout.Values;
    }
    forall p | p in m.pages ensures ChildRefs(m, p) == {} {
    }
  }

  lemma Combine(m: Mem)
    requires PagesOk(m) && EntriesOk(m) && NamedOnce(m) && NamedAtAll(m) && Counted(m)
    ensures MemInv(m)
  {
  }

  lemma BootEntries(layout: map<nat, nat>, kept: map<nat, Info>)
    requires forall g | g in layout :: g < LIMIT
    requires forall g, h | g in layout && h in layout && layout[g] == layout[h] :: g == h
    ensures var m := Boot(layout, kept); EntriesOk(m) && NamedOnce(m)
    ensures var m := Boot(layout, kept); forall k | k in m.ptes ::
              k.vm == HOST && m.pages[m.ptes[k].page].owners == [HOST]
  {
    var m := Boot(layout, kept);
    forall k | k in m.ptes ensures k.vm == HOST && k.gpn in layout && m.ptes[k] == Leaf(layout[k.gpn])
                                   && m.pages[m.ptes[k].page] == Info(Ram, Mapped, [HOST])
    {
    }
  }

  lemma BootNames(layout: map<nat, nat>, kept: map<nat, Info>)
    requires forall p | p in kept :: KeptAtBoot(kept[p])
    ensures NamedAtAll(Boot(layout, kept))
  {
    var m := Boot(layout, kept);
    forall p, vm | p in m.pages && MustName(m.pages[p], vm) ensures Names(m, vm, p) {
      assert p in layout.Values;
      var g :| g in layout && layout[g] == p;
      assert Key(HOST, g) in HostKeys(layout);
      assert Key(HOST, g) in m.ptes;
    }
  }

  /* ---------------- new VMs and regions ---------------- */

  /** A new guest, with an owner ID that no VM has. */
  function AddVm(m: Mem, guest: OwnerId): (c: Call) {
    if guest == HYPERVISOR || guest in m.vms then Failed(m) else Done(m.(vms := m.vms + {guest}))
  }

  lemma AddVmSound(m: Mem, guest: OwnerId, vers: Versions, win: Window)
    requires MemInv(m) && Fresh(m, vers) && Unlocked(m)
    ensures var c := AddVm(m, guest);
            !c.Panic? && Unlocked(c.mem) && MemInv(c.mem) && Stable(m, c.mem, vers)
            && (if c.Done? then Fresh(c.mem, vers[guest := win]) else c.mem == m)
    ensures var c := AddVm(m, guest); c.Done? ==> forall k: Key, p, w | k.vm == guest :: !Covers(c.mem, k, p, w)
  {
    hide MemInv, Stable;
    FreshVm(m, guest);
    RegionKeys(m);
    Extend(m, AddVm(m, guest).mem, vers);
  }

  lemma FreshVm(m: Mem, guest: OwnerId)
    requires MemInv(m)
    ensures guest !in m.vms ==> forall k: Key | k.vm == guest :: k !in m.ptes && k !in m.regions
  {
  }

  lemma RegionKeys(m: Mem)
    requires MemInv(m)
    ensures HOST in m.vms && HYPERVISOR !in m.vms
    ensures forall k | k in m.regions :: k.vm in m.vms && k.gpn < LIMIT
    ensures forall k | k in m.ptes :: k in m.regions
    ensures forall p | p in m.pages :: InfoOk(m.pages[p], m.vms)
  {
  }

  /** Pages and entries stay as they are, and so does every region with an entry. */
  lemma Extend(m: Mem, n: Mem, vers: Versions)
    requires MemInv(m) && n.pages == m.pages && n.ptes == m.ptes && n.pins == m.pins
    requires HOST in n.vms && HYPERVISOR !in n.vms
    requires forall p | p in n.pages :: InfoOk(n.pages[p], n.vms)
    requires forall k | k in n.regions :: k.vm in n.vms && k.gpn < LIMIT
    requires forall k | k in m.ptes :: k in n.regions && k in m.regions && n.regions[k] == m.regions[k]
    ensures MemInv(n) && Stable(m, n, vers)
  {
    forall p, vm | p in n.pages && MustName(n.pages[p], vm) ensures Names(n, vm, p) {
      assert Names(m, vm, p);
    }
    forall p | p in n.pages ensures ChildRefs(n, p) == ChildRefs(m, p) {
    }
  }

  predicate NoRegion(m: Mem, vm: OwnerId, g: nat, n: nat) {
    forall i | g <= i < g + n :: Key(vm, i) !in m.regions
  }

  ghost function RangeKeys(vm: OwnerId, g: nat, n: nat): (s: set<Key>) {
    set i | g <= i < g + n :: Key(vm, i)
  }

  /** A new region, confidential or shared, at addresses that no region covers. It lies below the limit of what the
      guest's table translates. */
  ghost function AddRegion(m: Mem, vm: OwnerId, g: nat, n: nat, shared: bool, room: bool): (c: Call) {
    if vm !in m.vms || !room || g + n > LIMIT || !NoRegion(m, vm, g, n) then Failed(m)
    else Done(m.(regions := m.regions + map k | k in RangeKeys(vm, g, n) ::
                 if shared then SharedRegion else Confidential))
  }

  /** Exactly the guest pages of the range get the type, and they had none. */
  lemma AddRegionDoes(m: Mem, vm: OwnerId, g: nat, n: nat, shared: bool, room: bool, k: Key)
    requires AddRegion(m, vm, g, n, shared, room).Done?
    ensures var o := AddRegion(m, vm, g, n, shared, room).mem;
            && o == m.(regions := o.regions)
            && (if k.vm == vm && g <= k.gpn < g + n
                then Get(m.regions, k) == None
                  && Get(o.regions, k) == Some(if shared then SharedRegion else Confidential)
                else Get(o.regions, k) == Get(m.regions, k))
  {
    assert k in RangeKeys(vm, g, n) <==> k.vm == vm && g <= k.gpn < g + n by {
      assert k == Key(k.vm, k.gpn);
    }
  }

  lemma AddRegionSound(m: Mem, vm: OwnerId, g: nat, n: nat, shared: bool, room: bool, vers: Versions)
    requires MemInv(m) && Fresh(m, vers) && Unlocked(m)
    ensures Sound(m, AddRegion(m, vm, g, n, shared, room), vers)
  {
    hide MemInv, Stable;
    RegionKeys(m);
    Extend(m, AddRegion(m, vm, g, n, shared, room).mem, vers);
  }
}
