/** Physical pages, guest page tables and memory regions of all VMs, as one value, with the invariant
    that ties them together: who may reach which page, and how often each shared page is referenced.

    Guest page tables are flat here: a map from (VM, guest page number) to what the entry holds between
    calls (entries are locked only while a call is running). Regions are pointwise: a type for each guest page.
    Only RAM pages are modelled. */
module Memory {
  import opened Basics
  import opened PageInfos

  datatype Key = Key(vm: OwnerId, gpn: nat)

  /** Guest page tables translate addresses of 50 bits. */
  const LIMIT: nat := 0x40_0000_0000

  /** The table entry that is used for page `i` of a VM's address space: higher bits are not looked at. */
  function At(vm: OwnerId, i: nat): (k: Key)
    ensures k.vm == vm && k.gpn < LIMIT && (i < LIMIT ==> k == Key(vm, i))
  {
    Key(vm, i % LIMIT)
  }

  lemma AtRepeats(vm: OwnerId, i: nat)
    ensures At(vm, i + LIMIT) == At(vm, i)
  {
  }

  /** Fewer than LIMIT pages apart, pages have different entries. */
  lemma AtDiffers(vm: OwnerId, i: nat, j: nat)
    requires i < j < i + LIMIT
    ensures At(vm, i) != At(vm, j)
  {
  }

  datatype Entry = Leaf(page: nat) | Invalidated(page: nat)

  datatype RegionType =
    | Confidential
    | SharedRegion
    | Sharing(version: nat)
    | Unsharing(version: nat)

  datatype Mem = Mem(
    vms: set<OwnerId>,
    pages: map<nat, Info>,
    ptes: map<Key, Entry>,
    regions: map<Key, RegionType>,
    pins: multiset<nat>)

  /** The TLB versions of a VM's address space that a vCPU may hold. */
  datatype Window = Window(min: nat, cur: nat)

  type Versions = map<OwnerId, Window>

  /* ---------------- Invariant ---------------- */

  predicate InfoOk(i: Info, vms: set<OwnerId>) {
    && i.memType == Ram
    && (i.state.Shared? ==> 0 < i.state.refs <= REF_COUNT_MAX)
    && match |i.owners|
       case 0 => i.state.Reserved? || i.state.Free? || i.state.HypState? || i.state.Converted?
                 || i.state.ConvertedLocked?
       case 1 =>
         && i.owners[0] == HOST
         && !(i.state.Reserved? || i.state.Free? || i.state.HypState? || i.state.Unassigning?)
       case 2 =>
         && i.owners[0] == HOST && i.owners[1] != HOST && i.owners[1] in vms
         && (i.state.Mapped? || i.state.Shared? || i.state.VmState? || i.state.Unassigning?)
       case _ => false
  }

  /** What an entry for guest page `k` may hold, given the page's state and the region at `k`. */
  predicate EntryOk(e: Entry, k: Key, i: Info, r: RegionType) {
    match e
    case Leaf(_) =>
      || (Owner(i) == Some(k.vm) && (i.state.Mapped? || i.state.Shared?) && r == Confidential)
      || (k.vm != HOST && i.owners == [HOST] && i.state.Shared? && r == SharedRegion)
    case Invalidated(_) =>
      if k.vm == HOST then
        && r == Confidential
        && |i.owners| > 0
        && (|i.owners| == 2 || i.state.Converting? || i.state.Converted? || i.state.ConvertedLocked?)
      else
        || (|i.owners| == 2 && i.owners[1] == k.vm && i.state.Unassigning? && r == Sharing(i.state.version))
        || (i.owners == [HOST] && i.state.Shared? && r.Unsharing?)
  }

  /** The VM `vm` has the page on its ownership stack and must name it in its own table. */
  predicate MustName(i: Info, vm: OwnerId) {
    if vm == HOST then |i.owners| == 2 || (|i.owners| == 1 && !i.state.VmState?)
    else |i.owners| == 2 && i.owners[1] == vm && !i.state.VmState?
  }

  ghost predicate Names(m: Mem, vm: OwnerId, p: nat) {
    exists g :: Key(vm, g) in m.ptes && m.ptes[Key(vm, g)].page == p
  }

  /** The entries of VMs that do not own page `p` and yet refer to it. */
  ghost function ChildRefs(m: Mem, p: nat): set<Key>
    requires p in m.pages
  {
    set k | k in m.ptes && m.ptes[k].page == p && k.vm !in m.pages[p].owners
  }

  function RefCount(s: PageState): nat {
    if s.Shared? then s.refs else 0
  }

  ghost predicate PagesOk(m: Mem) {
    && HOST in m.vms && HYPERVISOR !in m.vms
    && (forall p | p in m.pages :: InfoOk(m.pages[p], m.vms))
    && (forall p | p in m.pins :: p in m.pages)
  }

  ghost predicate EntriesOk(m: Mem) {
    && (forall k | k in m.regions :: k.vm in m.vms && k.gpn < LIMIT)
    && (forall k | k in m.ptes ::
          && k in m.regions
          && m.ptes[k].page in m.pages
          && EntryOk(m.ptes[k], k, m.pages[m.ptes[k].page], m.regions[k]))
  }

  ghost predicate NamedOnce(m: Mem)
    requires EntriesOk(m)
  {
    forall k, l | k in m.ptes && l in m.ptes && k.vm == l.vm && m.ptes[k].page == m.ptes[l].page
                  && k.vm in m.pages[m.ptes[k].page].owners :: k == l
  }

  ghost predicate NamedAtAll(m: Mem) {
    forall p, vm | p in m.pages && MustName(m.pages[p], vm) :: Names(m, vm, p)
  }

  ghost predicate Counted(m: Mem) {
    forall p | p in m.pages :: RefCount(m.pages[p].state) == |ChildRefs(m, p)| + m.pins[p]
  }

  ghost predicate MemInv(m: Mem) {
    PagesOk(m) && EntriesOk(m) && NamedOnce(m) && NamedAtAll(m) && Counted(m)
  }

  /** No pending region is older than the oldest TLB version still in use. */
  ghost predicate Fresh(m: Mem, vers: Versions) {
    && vers.Keys == m.vms && HOST in vers
    && forall k | k in m.regions && k.vm in vers && (m.regions[k].Sharing? || m.regions[k].Unsharing?) ::
         vers[k.vm].min <= m.regions[k].version
  }

  /** No page of the host is locked for assignment; true between calls. */
  ghost predicate Unlocked(m: Mem) {
    forall p | p in m.pages :: |m.pages[p].owners| > 0 ==> !m.pages[p].state.ConvertedLocked?
  }

  /* ---------------- What a TLB may remember ---------------- */

  /** How long a translation read from an entry may stay in a TLB: as long as the entry is valid, or until
      no vCPU runs at the version at which the removal of the page began. */
  datatype Limit = Never | UpTo(version: nat) | Always

  predicate Allows(l: Limit, w: nat) {
    l.Always? || (l.UpTo? && w <= l.version)
  }

  function EntryLimit(e: Entry, k: Key, i: Info, r: RegionType): (l: Limit) {
    if e.Leaf? then Always
    else if Owner(i) == Some(k.vm) && (i.state.Converting? || i.state.Unassigning?) then UpTo(i.state.version)
    else if i.state.Shared? && r.Unsharing? then UpTo(r.version)
    else Never
  }

  /** A translation of `k` to page `p` cached by a vCPU that entered at version `w` is accounted for: it
      is the present translation, or one whose removal is still pending at version `w` or later. */
  predicate Covers(m: Mem, k: Key, p: nat, w: nat) {
    && k in m.ptes && k in m.regions && p in m.pages
    && m.ptes[k].page == p
    && Allows(EntryLimit(m.ptes[k], k, m.pages[p], m.regions[k]), w)
  }

  /** Nothing that a vCPU inside the version window may have cached stops being accounted for. */
  ghost predicate Stable(m: Mem, n: Mem, vers: Versions) {
    forall k: Key, p: nat, w: nat | k.vm in vers && vers[k.vm].min <= w <= vers[k.vm].cur && Covers(m, k, p, w) ::
           Covers(n, k, p, w)
  }

  /** Only the VM that owns a page, or a VM it is shared with, can be covered for it. */
  lemma CoveredPage(m: Mem, k: Key, p: nat, w: nat)
    requires MemInv(m) && Covers(m, k, p, w)
    ensures p in m.pages
    ensures
      || (Owner(m.pages[p]) == Some(k.vm)
          && (m.pages[p].state.Mapped? || m.pages[p].state.Shared?
              || m.pages[p].state.Converting? || m.pages[p].state.Unassigning?))
      || (k.vm != HOST && m.pages[p].owners == [HOST] && m.pages[p].state.Shared?)
  {
  }

  /* ---------------- Changes around one page and one guest page ---------------- */

  /** What a step records about one guest page and one physical page. */
  datatype Change = Change(k: Key, entry: Option<Entry>, region: RegionType, p: nat, info: Info, pins: nat)

  function Set(m: Mem, c: Change): (n: Mem) {
    m.(pages := m.pages[c.p := c.info],
       ptes := if c.entry.Some? then m.ptes[c.k := c.entry.value] else m.ptes - {c.k},
       regions := m.regions[c.k := c.region],
       pins := m.pins[c.p := c.pins])
  }

  /** The entries of `m` other than the one at `k` that refer to page `p`. */
  predicate Other(m: Mem, k: Key, p: nat, l: Key) {
    l != k && l in m.ptes && m.ptes[l].page == p
  }

  /** The change is about a known page and guest page, which the entry at `k` ties together. */
  predicate About(m: Mem, c: Change) {
    && c.p in m.pages && c.k in m.regions
    && (c.k in m.ptes ==> m.ptes[c.k].page == c.p)
    && (c.entry.Some? ==> c.entry.value.page == c.p)
  }

  predicate SelfOk(m: Mem, c: Change) {
    && InfoOk(c.info, m.vms)
    && (c.entry.Some? ==> EntryOk(c.entry.value, c.k, c.info, c.region))
  }

  /** An entry elsewhere that refers to the changed page stays proper, and its VM does not become an
      owner by the change. */
  predicate OtherOk(m: Mem, c: Change, l: Key)
    requires l in m.ptes && l in m.regions && c.p in m.pages
  {
    && EntryOk(m.ptes[l], l, c.info, m.regions[l])
    && (l.vm in c.info.owners ==> l.vm in m.pages[c.p].owners && (c.entry.Some? ==> l.vm != c.k.vm))
  }

  ghost predicate OthersOk(m: Mem, c: Change)
    requires EntriesOk(m) && About(m, c)
  {
    forall l | Other(m, c.k, c.p, l) :: OtherOk(m, c, l)
  }

  /** Whoever must name the page after the change does so at `k`, or already had to elsewhere. */
  ghost predicate NamersOk(m: Mem, c: Change)
    requires About(m, c)
  {
    forall vm | MustName(c.info, vm) :: if vm == c.k.vm then c.entry.Some? else MustName(m.pages[c.p], vm)
  }

  lemma SetEntries(m: Mem, c: Change)
    requires PagesOk(m) && EntriesOk(m) && About(m, c) && SelfOk(m, c) && OthersOk(m, c)
    ensures PagesOk(Set(m, c)) && EntriesOk(Set(m, c))
  {
    var n := Set(m, c);
    forall l | l in n.ptes
      ensures l in n.regions && n.ptes[l].page in n.pages
              && EntryOk(n.ptes[l], l, n.pages[n.ptes[l].page], n.regions[l])
    {
      if l != c.k && m.ptes[l].page == c.p {
        assert Other(m, c.k, c.p, l);
      }
    }
  }

  lemma SetNamedOnce(m: Mem, c: Change)
    requires EntriesOk(m) && NamedOnce(m) && About(m, c) && OthersOk(m, c) && EntriesOk(Set(m, c))
    ensures NamedOnce(Set(m, c))
  {
    var n := Set(m, c);
    forall j, l | j in n.ptes && l in n.ptes && j.vm == l.vm && n.ptes[j].page == n.ptes[l].page
                  && j.vm in n.pages[n.ptes[j].page].owners
      ensures j == l
    {
      if n.ptes[j].page == c.p {
        if j != c.k { assert Other(m, c.k, c.p, j); }
        if l != c.k { assert Other(m, c.k, c.p, l); }
      }
    }
  }

  lemma SetNamedAtAll(m: Mem, c: Change)
    requires NamedAtAll(m) && About(m, c) && NamersOk(m, c)
    ensures NamedAtAll(Set(m, c))
  {
    var n := Set(m, c);
    forall q, vm | q in n.pages && MustName(n.pages[q], vm) ensures Names(n, vm, q) {
      if q == c.p && vm == c.k.vm {
        assert Key(vm, c.k.gpn) == c.k;
      } else {
        assert Names(m, vm, q);
        var g :| Key(vm, g) in m.ptes && m.ptes[Key(vm, g)].page == q;
        assert Key(vm, g) in n.ptes;
      }
    }
  }

  lemma SetCounted(m: Mem, c: Change)
    requires Counted(m) && About(m, c)
    requires RefCount(c.info.state) == |ChildRefs(Set(m, c), c.p)| + c.pins
    ensures Counted(Set(m, c))
  {
    var n := Set(m, c);
    forall q | q in n.pages && q != c.p ensures ChildRefs(n, q) == ChildRefs(m, q) {
    }
  }

  lemma SetInv(m: Mem, c: Change)
    requires MemInv(m) && About(m, c) && SelfOk(m, c) && OthersOk(m, c) && NamersOk(m, c)
    requires RefCount(c.info.state) == |ChildRefs(Set(m, c), c.p)| + c.pins
    ensures MemInv(Set(m, c))
  {
    SetEntries(m, c);
    SetNamedOnce(m, c);
    SetNamedAtAll(m, c);
    SetCounted(m, c);
  }

  /** The new limit allows every version of the window that the old one allowed. */
  predicate Outlasts(was: Limit, now: Limit, win: Window) {
    || was.Never? || now.Always?
    || (was.UpTo? && was.version < win.min)
    || (now.UpTo? && (if was.UpTo? then was.version <= now.version else win.cur <= now.version))
  }

  predicate SelfStays(m: Mem, c: Change, vers: Versions)
    requires About(m, c)
  {
    c.k in m.ptes && c.k.vm in vers ==>
      Outlasts(EntryLimit(m.ptes[c.k], c.k, m.pages[c.p], m.regions[c.k]),
               if c.entry.Some? then EntryLimit(c.entry.value, c.k, c.info, c.region) else Never,
               vers[c.k.vm])
  }

  predicate OtherStays(m: Mem, c: Change, l: Key, vers: Versions)
    requires l in m.ptes && l in m.regions && c.p in m.pages
  {
    l.vm in vers ==>
      Outlasts(EntryLimit(m.ptes[l], l, m.pages[c.p], m.regions[l]), EntryLimit(m.ptes[l], l, c.info, m.regions[l]),
               vers[l.vm])
  }

  lemma SetStable(m: Mem, c: Change, vers: Versions)
    requires EntriesOk(m) && About(m, c) && SelfStays(m, c, vers)
    requires forall l | Other(m, c.k, c.p, l) :: OtherStays(m, c, l, vers)
    ensures Stable(m, Set(m, c), vers)
  {
    var n := Set(m, c);
    forall l: Key, q: nat, w: nat | l.vm in vers && vers[l.vm].min <= w <= vers[l.vm].cur && Covers(m, l, q, w)
      ensures Covers(n, l, q, w)
    {
      if q == c.p && l != c.k {
        assert Other(m, c.k, c.p, l);
      }
    }
  }

  lemma SetFresh(m: Mem, c: Change, vers: Versions)
    requires Fresh(m, vers) && About(m, c)
    requires c.k.vm in vers
    requires c.region.Sharing? || c.region.Unsharing? ==> vers[c.k.vm].min <= c.region.version
    ensures Fresh(Set(m, c), vers)
  {
  }

  /** A step from `m` to `n` that keeps everything a step has to keep while the versions are fixed. */
  ghost predicate Good(m: Mem, n: Mem, vers: Versions) {
    MemInv(n) && Fresh(n, vers) && Stable(m, n, vers)
  }

  lemma GoodTrans(m: Mem, n: Mem, o: Mem, vers: Versions)
    requires Good(m, n, vers) && Good(n, o, vers)
    ensures Good(m, o, vers)
  {
  }
}
