/** Exactly when the memory calls succeed, in terms of what the tables, the regions and the references to pages are. */
module CallOutcomes {
  import opened Basics
  import opened PageInfos
  import opened Memory
  import opened MemorySteps
  import opened MemoryRanges
  import opened Hypercalls
  import opened Conversions

  /** How often guests refer to a page and the hypervisor has it pinned. */
  ghost function Refs(m: Mem, p: nat): (n: nat)
    requires p in m.pages
  {
    |ChildRefs(m, p)| + m.pins[p]
  }

  /** The entry is a leaf for memory of the VM's own, and fewer than `limit` references to its page are held. */
  ghost predicate OwnLeaf(m: Mem, k: Key, limit: nat) {
    && k in m.ptes && m.ptes[k].Leaf? && k in m.regions && m.regions[k] == Confidential
    && m.ptes[k].page in m.pages && Refs(m, m.ptes[k].page) < limit
  }

  lemma OwnPage(m: Mem, k: Key)
    requires MemInv(m) && k in m.ptes && m.ptes[k].Leaf?
    ensures k in m.regions && m.ptes[k].page in m.pages
    ensures var i := m.pages[m.ptes[k].page];
            && i.memType == Ram && RefCount(i.state) == Refs(m, m.ptes[k].page)
            && (m.regions[k] == Confidential <==> Owner(i) == Some(k.vm))
            && (i.state.Mapped? <==> Refs(m, m.ptes[k].page) == 0)
            && (m.regions[k] == Confidential ==> i.state.Mapped? || i.state.Shared?)
  {
    EntryAt(m, k);
    PageAt(m, m.ptes[k].page);
    CountAt(m, m.ptes[k].page);
  }

  /** A page can be converted or withdrawn exactly if nothing else refers to it. */
  lemma ConvertibleIff(m: Mem, k: Key)
    requires MemInv(m)
    ensures Convertible(m, k) <==> OwnLeaf(m, k, 1)
  {
    hide MemInv, Refs;
    if k in m.ptes && m.ptes[k].Leaf? { OwnPage(m, k); }
  }

  /** A further reference can be taken exactly if the counter has room for it. */
  lemma ShareableIff(m: Mem, k: Key)
    requires MemInv(m)
    ensures Shareable(m, k) <==> OwnLeaf(m, k, REF_COUNT_MAX)
  {
    hide MemInv, Refs;
    if k in m.ptes && m.ptes[k].Leaf? {
      OwnPage(m, k);
      PageAt(m, m.ptes[k].page);
    }
  }

  /** The host can convert pages exactly if it has them mapped and nothing refers to any of them. */
  lemma ConvertPagesDoneIff(m: Mem, vm: OwnerId, g: nat, n: nat, vers: Versions)
    requires MemInv(m) && Fresh(m, vers) && Unlocked(m)
    ensures ConvertPages(m, vm, g, n, vers[HOST].cur).Done? <==>
            vm == HOST && n > 0 && InSpace(g, n) && forall i | g <= i < g + Wrapped(n) :: OwnLeaf(m, At(HOST, i), 1)
  {
    hide MemInv, Good, Range, Wrapped, Convertible, OwnLeaf, At;
    ConvertPagesSound(m, vm, g, n, vers);
    forall i ensures Convertible(m, At(HOST, i)) <==> OwnLeaf(m, At(HOST, i), 1) { ConvertibleIff(m, At(HOST, i)); }
  }

  /** A guest can be lent pages exactly if the host has them mapped and can count one more reference, and the places
      they are to go to are empty and shared. */
  lemma AddSharedPagesDoneIff(m: Mem, guest: OwnerId, from: nat, to: nat, n: nat, tables: bool, vers: Versions)
    requires MemInv(m) && Fresh(m, vers) && Unlocked(m)
    ensures AddSharedPages(m, guest, from, to, n, tables).Done? <==>
            && n > 0 && guest != HOST && tables && from + n < PAGE_LIMIT
            && (forall i | from <= i < from + n :: OwnLeaf(m, At(HOST, i), REF_COUNT_MAX))
            && (forall i | to <= i < to + n :: Get(m.regions, Key(guest, i)) == Some(SharedRegion)
                                               && Key(guest, i) !in m.ptes)
  {
    hide MemInv, Good, Range, Shareable, OwnLeaf, At, Mappable;
    AddSharedPagesSound(m, guest, from, to, n, tables, vers);
    forall i ensures Shareable(m, At(HOST, i)) <==> OwnLeaf(m, At(HOST, i), REF_COUNT_MAX) {
      ShareableIff(m, At(HOST, i));
    }
    forall i ensures Mappable(m, Key(guest, i), SharedRegion) <==>
                     Get(m.regions, Key(guest, i)) == Some(SharedRegion) && Key(guest, i) !in m.ptes {
      EmptyIff(m, Key(guest, i));
    }
    if n > 0 && AllMappable(m, guest, to, n, SharedRegion) { MappableBelow(m, guest, to, n, SharedRegion); }
  }

  lemma EmptyIff(m: Mem, k: Key)
    requires MemInv(m)
    ensures Mappable(m, k, SharedRegion) <==> Get(m.regions, k) == Some(SharedRegion) && k !in m.ptes
  {
    hide MemInv;
    if k in m.ptes { EntryAt(m, k); }
  }

  /** The hypervisor can pin pages of a VM exactly if they are the VM's own, can be counted once more, and lie in a
      row. */
  lemma PinPagesDoneIff(m: Mem, vm: OwnerId, g: nat, n: nat, vers: Versions)
    requires MemInv(m) && Fresh(m, vers) && Unlocked(m)
    ensures PinPages(m, vm, g, n).Done? <==>
            && 0 < Wrapped(n) && InSpace(g, n)
            && (forall i | g <= i < g + Wrapped(n) :: OwnLeaf(m, At(vm, i), REF_COUNT_MAX))
            && (forall i | g <= i < g + Wrapped(n) :: m.ptes[At(vm, i)].page == m.ptes[At(vm, g)].page + (i - g))
  {
    hide MemInv, Good, Range, Shareable, At, Refs, Contiguous;
    PinPagesSound(m, vm, g, n, vers);
    var k := Wrapped(n);
    forall i ensures Shareable(m, At(vm, i)) <==> OwnLeaf(m, At(vm, i), REF_COUNT_MAX) { ShareableIff(m, At(vm, i)); }
    if AllShareable(m, vm, g, k) { RowIff(m, vm, g, k); }
  }

  lemma RowIff(m: Mem, vm: OwnerId, g: nat, n: nat)
    requires AllShareable(m, vm, g, n)
    ensures forall i | g <= i < g + n :: At(vm, i) in m.ptes
    ensures Contiguous(m, vm, g, n) <==>
            forall i | g <= i < g + n :: m.ptes[At(vm, i)].page == m.ptes[At(vm, g)].page + (i - g)
  {
    hide At;
    forall i | g <= i < g + n ensures At(vm, i) in m.ptes { assert Shareable(m, At(vm, i)); }
    if Contiguous(m, vm, g, n) {
      forall i | g <= i < g + n ensures m.ptes[At(vm, i)].page == m.ptes[At(vm, g)].page + (i - g) {
        CountsUp(m, vm, g, n, i - g);
        assert g + (i - g) == i;
      }
    } else {
      var i :| g <= i < g + n - 1 && !PageAfter(m, vm, i);
      assert At(vm, i) in m.ptes && At(vm, i + 1) in m.ptes;
    }
  }

  /** The page of the entry has been converted by the host, or is due to be. */
  predicate ConvertedBefore(m: Mem, k: Key, min: nat) {
    && k in m.ptes && m.ptes[k].Invalidated? && m.ptes[k].page in m.pages
    && var i := m.pages[m.ptes[k].page];
       i.owners == [HOST] && (i.state.Converted? || (i.state.Converting? && i.state.version < min))
  }

  lemma LockableIff(m: Mem, k: Key, min: nat)
    requires MemInv(m) && k.vm == HOST
    ensures Lockable(m, k, min) <==> ConvertedBefore(m, k, min)
  {
    hide MemInv;
    if k in m.ptes {
      EntryAt(m, k);
      PageAt(m, m.ptes[k].page);
    }
  }

  /** A guest can be given pages for its state exactly if there is such a guest, and the host has converted them. */
  lemma AddInternalPagesDoneIff(m: Mem, guest: OwnerId, from: nat, n: nat, accepted: bool, vers: Versions)
    requires MemInv(m) && Fresh(m, vers) && Unlocked(m)
    ensures AddInternalPages(m, guest, from, n, accepted, vers[HOST].min).Done? <==>
            && n > 0 && InSpace(from, n) && Wrapped(n) <= LIMIT && guest != HOST && guest in m.vms && accepted
            && (forall i | from <= i < from + Wrapped(n) :: ConvertedBefore(m, At(HOST, i), vers[HOST].min))
  {
    hide MemInv, Good, Range, At, GiveUp, Locked, Lockable, ConvertedBefore, Wrapped;
    AddInternalPagesSound(m, guest, from, n, accepted, vers);
    GetConvertedPagesGood(m, HOST, from, n, vers);
    var min := vers[HOST].min;
    forall i ensures Lockable(m, At(HOST, i), min) <==> ConvertedBefore(m, At(HOST, i), min) {
      AtVm(HOST, i);
      LockableIff(m, At(HOST, i), min);
    }
    var c := GetConvertedPages(m, HOST, from, n, min);
    if c.Done? { NoSuccess(c.mem, from, Wrapped(n)); }
  }

  lemma AtVm(vm: OwnerId, i: nat)
    ensures At(vm, i).vm == vm
  {
  }

  /** A guest can share a range exactly if it is all confidential and no page of it is pinned. */
  lemma ShareBeginDoneIff(m: Mem, vm: OwnerId, g: nat, n: nat, room: bool, vers: Versions)
    requires MemInv(m) && Fresh(m, vers) && Unlocked(m) && vm in vers && vers[vm].min <= vers[vm].cur
    ensures ShareBegin(m, vm, g, n, vers[vm].cur, room).Done? <==>
            && vm != HOST && room
            && (forall i | g <= i < g + n ::
                  && Get(m.regions, Key(vm, i)) == Some(Confidential)
                  && (Key(vm, i) in m.ptes ==> OwnLeaf(m, Key(vm, i), 1)))
  {
    hide MemInv, Good, Range, OwnLeaf, Populated;
    ShareBeginSound(m, vm, g, n, room, vers);
    forall i ensures Withdrawable(m, Key(vm, i)) <==>
                     && Get(m.regions, Key(vm, i)) == Some(Confidential)
                     && (Key(vm, i) in m.ptes ==> OwnLeaf(m, Key(vm, i), 1)) {
      ConvertibleIff(m, Key(vm, i));
    }
    hide Withdrawable;
  }

  /** It can take a range back exactly if it is all shared. */
  lemma UnshareBeginDoneIff(m: Mem, vm: OwnerId, g: nat, n: nat, room: bool, vers: Versions)
    requires MemInv(m) && Fresh(m, vers) && Unlocked(m) && vm in vers && vers[vm].min <= vers[vm].cur
    ensures UnshareBegin(m, vm, g, n, vers[vm].cur, room).Done? <==>
            vm != HOST && room && forall i | g <= i < g + n :: Get(m.regions, Key(vm, i)) == Some(SharedRegion)
  {
    hide MemInv, Good, Range, Populated, Returnable;
    UnshareBeginSound(m, vm, g, n, room, vers);
    forall i ensures vm != HOST ==>
                       (Returnable(m, Key(vm, i)) <==> Get(m.regions, Key(vm, i)) == Some(SharedRegion)) {
      ReturnableIff(m, Key(vm, i));
    }
  }

  lemma ReturnableIff(m: Mem, k: Key)
    requires MemInv(m)
    ensures k.vm != HOST ==> (Returnable(m, k) <==> Get(m.regions, k) == Some(SharedRegion))
  {
    hide MemInv;
    if k in m.ptes {
      EntryAt(m, k);
      PageAt(m, m.ptes[k].page);
    }
  }
}
