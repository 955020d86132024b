/** Work on ranges of guest pages. A call checks the whole range it is given and then works through it page
    by page. The results here hold for every kind of work: on a memory that satisfies the invariant and
    a range that passed the check, no page of the range can meet an error (so no `unwrap` fails), the
    invariant is kept, and each page ends up exactly as if it had been the only one. */
module MemoryRanges {
  import opened Basics
  import opened PageInfos
  import opened Memory
  import opened MemorySteps

  /** The page-by-page part of a call; `vm` is the VM whose guest pages the range is about. */
  datatype Work =
    | Convert(version: nat)
    | Lock(vm: OwnerId, version: nat)
    | Unlock
    | Reclaim
    | AssignTo(guest: OwnerId, from: nat, to: nat)
    | AssignInternal(guest: OwnerId)
    | ShareTo(guest: OwnerId, from: nat, to: nat)
    | Withdraw(vm: OwnerId, version: nat, region: RegionType)
    | Return(vm: OwnerId, region: RegionType)
    | Pin(vm: OwnerId)

  /** The guest page the range names. */
  function Src(w: Work, i: nat): (k: Key) {
    match w
    case Lock(vm, _) => At(vm, i)
    case Withdraw(vm, _, _) => Key(vm, i)
    case Return(vm, _) => Key(vm, i)
    case Pin(vm) => At(vm, i)
    case _ => At(HOST, i)
  }

  lemma SrcDiffers(w: Work, i: nat, j: nat)
    requires i < j < i + LIMIT
    ensures Src(w, i) != Src(w, j)
  {
    hide At;
    match w
    case Lock(vm, _) => AtDiffers(vm, i, j);
    case Withdraw(vm, _, _) =>
    case Return(vm, _) =>
    case Pin(vm) => AtDiffers(vm, i, j);
    case _ => AtDiffers(HOST, i, j);
  }

  /** The guest page whose entry the work sets: that of a guest, if the page is given to one. */
  function Dst(w: Work, i: nat): (k: Key) {
    match w
    case AssignTo(guest, from, to) => Key(guest, if i >= from then to + (i - from) else 0)
    case ShareTo(guest, from, to) => Key(guest, if i >= from then to + (i - from) else 0)
    case _ => Src(w, i)
  }

  function One(m: Mem, w: Work, i: nat): (r: Option<Mem>) {
    var k := Src(w, i);
    match w
    case Convert(version) => ConvertOne(m, k, version)
    case Lock(_, version) => LockOne(m, k, version)
    case Unlock => if k in m.ptes then UnlockOne(m, m.ptes[k].page) else None
    case Reclaim => if k in m.ptes then ReclaimOne(m, m.ptes[k].page, k) else None
    case AssignTo(_, _, _) => if k in m.ptes then AssignOne(m, m.ptes[k].page, Dst(w, i)) else None
    case AssignInternal(guest) => if k in m.ptes then AssignInternalOne(m, m.ptes[k].page, guest) else None
    case ShareTo(_, _, _) => if k in m.ptes then ShareOne(m, m.ptes[k].page, Dst(w, i)) else None
    case Withdraw(_, version, region) => WithdrawOne(m, k, version, region)
    case Return(_, region) => Some(ReturnOne(m, k, region))
    case Pin(_) => PinOne(m, k)
  }

  /** What the call has checked about each page of the range before it starts. */
  predicate Ready(m: Mem, w: Work, i: nat, vers: Versions) {
    var k := Src(w, i);
    match w
    case Convert(version) => Convertible(m, k) && HOST in vers && version == vers[HOST].cur
    case Lock(vm, version) => Lockable(m, k, version) && vm in vers && version == vers[vm].min
    case Unlock => Locked(m, k)
    case Reclaim => Locked(m, k)
    case AssignTo(guest, from, _) => Locked(m, k) && guest != HOST && from <= i && Mappable(m, Dst(w, i), Confidential)
    case AssignInternal(guest) => Locked(m, k) && guest != HOST && guest in m.vms
    case ShareTo(guest, from, _) => Shareable(m, k) && guest != HOST && from <= i
        && Mappable(m, Dst(w, i), SharedRegion)
    case Withdraw(vm, version, region) =>
      && Withdrawable(m, k) && vm != HOST && vm in vers && version == vers[vm].cur >= vers[vm].min
      && (region == Sharing(version) || (region == SharedRegion && k !in m.ptes))
    case Return(vm, region) =>
      && Returnable(m, k) && vm != HOST && vm in vers && vers[vm].cur >= vers[vm].min
      && (region == Unsharing(vers[vm].cur) || (region == Confidential && k !in m.ptes))
    case Pin(vm) => Shareable(m, k)
  }

  /** Each kind of work keeps what has to be kept. */
  lemma OneGood(m: Mem, w: Work, i: nat, vers: Versions)
    requires MemInv(m) && Fresh(m, vers) && Ready(m, w, i, vers)
    ensures One(m, w, i).Some?
    ensures Good(m, One(m, w, i).value, vers)
  {
    hide MemInv, Good;
    var k := Src(w, i);
    match w
    case Convert(_) => ConvertOneGood(m, k, vers);
    case Lock(_, _) => LockOneGood(m, k, vers);
    case Unlock => UnlockOneGood(m, k, vers);
    case Reclaim => ReclaimOneGood(m, k, vers);
    case AssignTo(_, _, _) => AssignOneGood(m, k, Dst(w, i), vers);
    case AssignInternal(guest) => AssignInternalOneGood(m, k, guest, vers);
    case ShareTo(_, _, _) => ShareOneGood(m, k, Dst(w, i), vers);
    case Withdraw(_, _, region) => WithdrawOneGood(m, k, region, vers);
    case Return(_, region) => ReturnOneGood(m, k, region, vers);
    case Pin(_) => PinOneGood(m, k, vers);
  }

  /* ---------------- Independence of the pages of a range ---------------- */

  /** The page that work on guest page `i` changes, if it changes one. */
  function PageOf(m: Mem, w: Work, i: nat): (p: Option<nat>) {
    if w.Return? || Src(w, i) !in m.ptes then None else Some(m.ptes[Src(w, i)].page)
  }

  /** Work on `i` leaves alone what work on `j` depends on. */
  ghost predicate Apart(m: Mem, w: Work, i: nat, j: nat) {
    PageOf(m, w, i).Some? && PageOf(m, w, j).Some? ==> PageOf(m, w, i) != PageOf(m, w, j)
  }

  /** Different guest pages of a range that passed the check name different pages. */
  lemma ReadyApart(m: Mem, w: Work, i: nat, j: nat, vers: Versions)
    requires MemInv(m) && Ready(m, w, i, vers) && Ready(m, w, j, vers) && Src(w, i) != Src(w, j)
    ensures Apart(m, w, i, j)
  {
    hide At;
  }

  /** Outside the guest page and the page it is about, work changes nothing. */
  lemma OneFrame(m: Mem, w: Work, i: nat, vers: Versions)
    requires Ready(m, w, i, vers) && One(m, w, i).Some?
    ensures var n := One(m, w, i).value;
            && n.vms == m.vms
            && (forall k | k != Dst(w, i) :: k in n.ptes <==> k in m.ptes)
            && (forall k | k != Dst(w, i) && k in m.ptes :: n.ptes[k] == m.ptes[k])
            && (forall k :: k in n.regions <==> k in m.regions)
            && (forall k | k != Dst(w, i) && k in m.regions :: n.regions[k] == m.regions[k])
            && (forall p :: p in n.pages <==> p in m.pages)
            && (forall p | p in m.pages && Some(p) != PageOf(m, w, i) :: n.pages[p] == m.pages[p])
  {
  }

  /** What a memory says at guest page `j`: all that work there reads or writes. */
  datatype Slot = Slot(src: Option<Entry>, dst: Option<Entry>, region: Option<RegionType>, page: Option<Info>)

  function Get<K, V>(m: map<K, V>, k: K): (r: Option<V>) {
    if k in m then Some(m[k]) else None
  }

  function SlotAt(m: Mem, w: Work, j: nat): (s: Slot) {
    Slot(Get(m.ptes, Src(w, j)), Get(m.ptes, Dst(w, j)), Get(m.regions, Dst(w, j)),
         if Src(w, j) in m.ptes then Get(m.pages, m.ptes[Src(w, j)].page) else None)
  }

  lemma SlotKept(m: Mem, w: Work, i: nat, j: nat, vers: Versions)
    requires MemInv(m) && Ready(m, w, i, vers) && Ready(m, w, j, vers) && Src(w, i) != Src(w, j) && One(m, w, i).Some?
    ensures SlotAt(One(m, w, i).value, w, j) == SlotAt(m, w, j)
  {
    hide MemInv;
    ReadyApart(m, w, i, j, vers);
    OneFrame(m, w, i, vers);
    ReturnKeepsPages(m, w, i);
  }

  lemma ReturnKeepsPages(m: Mem, w: Work, i: nat)
    ensures w.Return? ==> One(m, w, i).Some? && One(m, w, i).value.pages == m.pages
  {
    if w.Return? {
      var k := Src(w, i);
      if k in m.ptes && m.ptes[k].page in m.pages {
        assert m.pages[m.ptes[k].page := m.pages[m.ptes[k].page]] == m.pages;
      }
    }
  }

  /** Whether the work can be done, and what it leaves, depends on the slot only. */
  lemma SlotDecides(m: Mem, n: Mem, w: Work, j: nat, vers: Versions)
    requires SlotAt(m, w, j) == SlotAt(n, w, j) && m.vms == n.vms && Ready(m, w, j, vers)
    ensures Ready(n, w, j, vers)
    ensures One(m, w, j).Some? && One(n, w, j).Some? ==>
            SlotAt(One(m, w, j).value, w, j) == SlotAt(One(n, w, j).value, w, j)
  {
  }

  /* ---------------- The whole range ---------------- */

  function Range(m: Mem, w: Work, g: nat, n: nat): (r: Option<Mem>)
    decreases n
  {
    if n == 0 then Some(m)
    else match One(m, w, g)
      case None => None
      case Some(m') => Range(m', w, g + 1, n - 1)
  }

  /** Work on a range is work on its first part and then on the rest. */
  lemma {:induction false} RangeParts(m: Mem, w: Work, g: nat, a: nat, b: nat)
    ensures Range(m, w, g, a + b) == match Range(m, w, g, a) case None => None case Some(m1) => Range(m1, w, g + a, b)
    decreases a
  {
    hide One;
    if a > 0 && One(m, w, g).Some? {
      RangeParts(One(m, w, g).value, w, g + 1, a - 1, b);
    }
  }

  ghost predicate AllReady(m: Mem, w: Work, g: nat, n: nat, vers: Versions) {
    n <= LIMIT && forall i | g <= i < g + n :: Ready(m, w, i, vers)
  }

  lemma RestReady(m: Mem, w: Work, g: nat, n: nat, vers: Versions)
    requires MemInv(m) && n > 0 && AllReady(m, w, g, n, vers) && One(m, w, g).Some?
    ensures AllReady(One(m, w, g).value, w, g + 1, n - 1, vers)
    ensures One(m, w, g).value.vms == m.vms
  {
    hide MemInv, Ready, One;
    assert Ready(m, w, g, vers);
    OneFrame(m, w, g, vers);
    forall i | g + 1 <= i < g + n ensures Ready(One(m, w, g).value, w, i, vers) {
      SrcDiffers(w, g, i);
      SlotKept(m, w, g, i, vers);
      SlotDecides(m, One(m, w, g).value, w, i, vers);
    }
  }

  lemma Nothing(m: Mem, vers: Versions)
    requires MemInv(m) && Fresh(m, vers)
    ensures Good(m, m, vers)
  {
  }

  lemma GoodIs(m: Mem, n: Mem, vers: Versions)
    requires Good(m, n, vers)
    ensures MemInv(n) && Fresh(n, vers)
  {
  }

  /** A range that passed the check is worked through without an error, and the invariant is kept. */
  lemma {:induction false} RangeGood(m: Mem, w: Work, g: nat, n: nat, vers: Versions)
    requires MemInv(m) && Fresh(m, vers) && AllReady(m, w, g, n, vers)
    ensures Range(m, w, g, n).Some?
    ensures Good(m, Range(m, w, g, n).value, vers)
    ensures Range(m, w, g, n).value.vms == m.vms
    decreases n
  {
    hide MemInv, Good, Ready, One;
    if n == 0 {
      Nothing(m, vers);
    } else {
      assert Ready(m, w, g, vers);
      OneGood(m, w, g, vers);
      var m' := One(m, w, g).value;
      RestReady(m, w, g, n, vers);
      GoodIs(m, m', vers);
      RangeGood(m', w, g + 1, n - 1, vers);
      GoodTrans(m, m', Range(m', w, g + 1, n - 1).value, vers);
    }
  }

  /** Guest page `j` is named by the work and lies outside the range, whose pages are other than its own. */
  ghost predicate Outside(m: Mem, w: Work, g: nat, n: nat, j: nat) {
    && (w.AssignTo? || w.ShareTo? ==> w.guest != HOST && w.from <= j && w.from <= g)
    && AllApart(m, w, g, n, j)
  }

  ghost predicate AllApart(m: Mem, w: Work, g: nat, n: nat, j: nat) {
    forall i: nat | g <= i < g + n :: Src(w, i) != Src(w, j) && Apart(m, w, i, j)
  }

  lemma OneLeaves(m: Mem, w: Work, g: nat, n: nat, vers: Versions, j: nat)
    requires n > 0 && Ready(m, w, g, vers) && One(m, w, g).Some? && Outside(m, w, g, n, j)
    ensures SlotAt(One(m, w, g).value, w, j) == SlotAt(m, w, j)
  {
    hide One;
    assert Apart(m, w, g, j);
    OneFrame(m, w, g, vers);
    ReturnKeepsPages(m, w, g);
  }

  lemma StaysOutside(m: Mem, w: Work, g: nat, n: nat, vers: Versions, j: nat)
    requires MemInv(m) && n > 0 && AllReady(m, w, g, n, vers) && One(m, w, g).Some? && Outside(m, w, g, n, j)
    requires SlotAt(One(m, w, g).value, w, j) == SlotAt(m, w, j)
    ensures Outside(One(m, w, g).value, w, g + 1, n - 1, j)
  {
    hide MemInv, Ready, One, Apart, SlotAt;
    var m' := One(m, w, g).value;
    forall i: nat | g + 1 <= i < g + 1 + (n - 1) ensures Src(w, i) != Src(w, j) && Apart(m', w, i, j) {
      assert Ready(m, w, g, vers) && Ready(m, w, i, vers) && Apart(m, w, i, j);
      SrcDiffers(w, g, i);
      SlotKept(m, w, g, i, vers);
      ApartKept(m, m', w, i, j);
    }
  }

  lemma ApartKept(m: Mem, n: Mem, w: Work, i: nat, j: nat)
    requires Apart(m, w, i, j) && SlotAt(m, w, i) == SlotAt(n, w, i) && SlotAt(m, w, j) == SlotAt(n, w, j)
    ensures Apart(n, w, i, j)
  {
    hide SlotAt;
    SamePageOf(m, n, w, i);
    SamePageOf(m, n, w, j);
  }

  lemma SamePageOf(m: Mem, n: Mem, w: Work, i: nat)
    requires SlotAt(m, w, i) == SlotAt(n, w, i)
    ensures PageOf(m, w, i) == PageOf(n, w, i)
  {
    assert SlotAt(m, w, i).src == SlotAt(n, w, i).src;
  }

  lemma {:induction false} RangeLeaves(m: Mem, w: Work, g: nat, n: nat, vers: Versions, j: nat)
    requires MemInv(m) && Fresh(m, vers) && AllReady(m, w, g, n, vers) && Outside(m, w, g, n, j)
    ensures Range(m, w, g, n).Some?
    ensures SlotAt(Range(m, w, g, n).value, w, j) == SlotAt(m, w, j)
    decreases n
  {
    hide MemInv, Good, Ready, One, SlotAt, Outside;
    if n > 0 {
      assert Ready(m, w, g, vers);
      OneGood(m, w, g, vers);
      GoodIs(m, One(m, w, g).value, vers);
      RestReady(m, w, g, n, vers);
      OneLeaves(m, w, g, n, vers, j);
      StaysOutside(m, w, g, n, vers, j);
      RangeLeaves(One(m, w, g).value, w, g + 1, n - 1, vers, j);
    }
  }

  lemma PageOfKept(m: Mem, w: Work, i: nat, vers: Versions)
    requires Ready(m, w, i, vers) && One(m, w, i).Some?
    ensures PageOf(One(m, w, i).value, w, i) == PageOf(m, w, i)
  {
  }

  lemma DoneIsOutside(m: Mem, w: Work, g: nat, n: nat, vers: Versions)
    requires MemInv(m) && n > 0 && AllReady(m, w, g, n, vers) && One(m, w, g).Some?
    ensures Outside(One(m, w, g).value, w, g + 1, n - 1, g)
  {
    hide MemInv, One;
    assert Ready(m, w, g, vers);
    PageOfKept(m, w, g, vers);
    var m' := One(m, w, g).value;
    forall i | g + 1 <= i < g + n ensures Src(w, i) != Src(w, g) && Apart(m', w, i, g) {
      SrcDiffers(w, g, i);
      SlotKept(m, w, g, i, vers);
      assert SlotAt(m', w, i).src == SlotAt(m, w, i).src;
      ReadyApart(m, w, i, g, vers);
    }
  }

  /** Each guest page of the range ends up as if the work had been done there alone. */
  lemma {:induction false} RangeAt(m: Mem, w: Work, g: nat, n: nat, vers: Versions, j: nat)
    requires MemInv(m) && Fresh(m, vers) && AllReady(m, w, g, n, vers) && g <= j < g + n
    ensures Range(m, w, g, n).Some? && One(m, w, j).Some?
    ensures SlotAt(Range(m, w, g, n).value, w, j) == SlotAt(One(m, w, j).value, w, j)
    decreases n
  {
    hide MemInv, Good, Ready, One, SlotAt, Outside;
    assert Ready(m, w, g, vers) && Ready(m, w, j, vers);
    OneGood(m, w, g, vers);
    OneGood(m, w, j, vers);
    var m' := One(m, w, g).value;
    RestReady(m, w, g, n, vers);
    GoodIs(m, m', vers);
    if j == g {
      DoneIsOutside(m, w, g, n, vers);
      RangeLeaves(m', w, g + 1, n - 1, vers, g);
    } else {
      SrcDiffers(w, g, j);
      SlotKept(m, w, g, j, vers);
      SlotDecides(m, m', w, j, vers);
      RangeAt(m', w, g + 1, n - 1, vers, j);
    }
  }

  /** Guest pages that the range does not set, and pages that it does not name, stay as they are. */
  lemma {:induction false} RangeElse(m: Mem, w: Work, g: nat, n: nat, vers: Versions, k: Key, p: nat)
    requires MemInv(m) && Fresh(m, vers) && AllReady(m, w, g, n, vers)
    requires forall i | g <= i < g + n :: Dst(w, i) != k && PageOf(m, w, i) != Some(p)
    ensures Range(m, w, g, n).Some?
    ensures var o := Range(m, w, g, n).value;
            Get(o.ptes, k) == Get(m.ptes, k) && Get(o.regions, k) == Get(m.regions, k)
              && Get(o.pages, p) == Get(m.pages, p)
    decreases n
  {
    hide MemInv, Good, Ready, One;
    if n > 0 {
      assert Ready(m, w, g, vers);
      OneGood(m, w, g, vers);
      var m' := One(m, w, g).value;
      GoodIs(m, m', vers);
      RestReady(m, w, g, n, vers);
      OneFrame(m, w, g, vers);
      forall i | g + 1 <= i < g + n ensures PageOf(m', w, i) != Some(p) {
        assert Ready(m, w, i, vers);
        SrcDiffers(w, g, i);
        SlotKept(m, w, g, i, vers);
        SamePageOf(m, m', w, i);
      }
      RangeElse(m', w, g + 1, n - 1, vers, k, p);
    }
  }

  /* ---------------- Locks ---------------- */

  /** Page `p` is named by the host somewhere in the range. */
  ghost predicate NamedIn(m: Mem, g: nat, n: nat, p: nat) {
    exists i | g <= i < g + n :: At(HOST, i) in m.ptes && m.ptes[At(HOST, i)].page == p
  }

  /** The only locked pages of the host are those of the range. */
  ghost predicate LockedWithin(m: Mem, g: nat, n: nat) {
    forall p | p in m.pages && |m.pages[p].owners| > 0 && m.pages[p].state.ConvertedLocked? :: NamedIn(m, g, n, p)
  }

  predicate Unlocks(w: Work) {
    w.Unlock? || w.Reclaim? || w.AssignTo? || w.AssignInternal?
  }

  lemma OneLocks(m: Mem, w: Work, i: nat, vers: Versions)
    requires Ready(m, w, i, vers) && One(m, w, i).Some?
    ensures forall p | p in One(m, w, i).value.pages && One(m, w, i).value.pages[p].state.ConvertedLocked?
                       && |One(m, w, i).value.pages[p].owners| > 0 ::
              if Some(p) == PageOf(m, w, i) then w.Lock?
              else p in m.pages && m.pages[p] == One(m, w, i).value.pages[p]
  {
  }

  lemma OneNames(m: Mem, w: Work, i: nat, vers: Versions, k: Key)
    requires Ready(m, w, i, vers) && One(m, w, i).Some? && k.vm == HOST
    ensures k in One(m, w, i).value.ptes <==> k in m.ptes
    ensures k in m.ptes ==> One(m, w, i).value.ptes[k].page == m.ptes[k].page
  {
  }

  lemma NextUnlocked(m: Mem, w: Work, g: nat, n: nat, vers: Versions)
    requires n > 0 && Ready(m, w, g, vers) && One(m, w, g).Some? && !w.Lock?
    requires if Unlocks(w) then LockedWithin(m, g, n) else Unlocked(m)
    ensures if Unlocks(w) then LockedWithin(One(m, w, g).value, g + 1, n - 1) else Unlocked(One(m, w, g).value)
  {
    hide One;
    var o := One(m, w, g).value;
    OneLocks(m, w, g, vers);
    if Unlocks(w) {
      forall p | p in o.pages && |o.pages[p].owners| > 0 && o.pages[p].state.ConvertedLocked?
             ensures NamedIn(o, g + 1, n - 1, p) {
        assert NamedIn(m, g, n, p);
        var i :| g <= i < g + n && At(HOST, i) in m.ptes && m.ptes[At(HOST, i)].page == p;
        OneNames(m, w, g, vers, At(HOST, i));
      }
    }
  }

  lemma {:induction false} RangeUnlocked(m: Mem, w: Work, g: nat, n: nat, vers: Versions)
    requires MemInv(m) && Fresh(m, vers) && AllReady(m, w, g, n, vers) && !w.Lock?
    requires if Unlocks(w) then LockedWithin(m, g, n) else Unlocked(m)
    ensures Range(m, w, g, n).Some?
    ensures Unlocked(Range(m, w, g, n).value)
    decreases n
  {
    hide MemInv, Good, Ready, One;
    if n > 0 {
      assert Ready(m, w, g, vers);
      OneGood(m, w, g, vers);
      GoodIs(m, One(m, w, g).value, vers);
      RestReady(m, w, g, n, vers);
      NextUnlocked(m, w, g, n, vers);
      RangeUnlocked(One(m, w, g).value, w, g + 1, n - 1, vers);
    }
  }

  lemma NextLocked(m: Mem, w: Work, g: nat, n: nat, vers: Versions)
    requires w.Lock? && w.vm == HOST && Ready(m, w, g + n, vers) && One(m, w, g + n).Some?
    requires LockedWithin(m, g, n)
    ensures LockedWithin(One(m, w, g + n).value, g, n + 1)
  {
    hide One;
    var o := One(m, w, g + n).value;
    OneLocks(m, w, g + n, vers);
    forall p | p in o.pages && |o.pages[p].owners| > 0 && o.pages[p].state.ConvertedLocked?
           ensures NamedIn(o, g, n + 1, p) {
      OneNames(m, w, g + n, vers, At(HOST, g + n));
      if Some(p) == PageOf(m, w, g + n) {
        assert o.ptes[At(HOST, g + n)].page == p;
      } else {
        assert NamedIn(m, g, n, p);
        var i :| g <= i < g + n && At(HOST, i) in m.ptes && m.ptes[At(HOST, i)].page == p;
        OneNames(m, w, g + n, vers, At(HOST, i));
      }
    }
  }

  lemma {:induction false} RangeLocked(m: Mem, w: Work, g: nat, d: nat, n: nat, vers: Versions)
    requires MemInv(m) && Fresh(m, vers) && w.Lock? && w.vm == HOST && AllReady(m, w, g + d, n, vers)
    requires LockedWithin(m, g, d)
    ensures Range(m, w, g + d, n).Some?
    ensures LockedWithin(Range(m, w, g + d, n).value, g, d + n)
    decreases n
  {
    hide MemInv, Good, Ready, One;
    if n > 0 {
      assert Ready(m, w, g + d, vers);
      OneGood(m, w, g + d, vers);
      GoodIs(m, One(m, w, g + d).value, vers);
      RestReady(m, w, g + d, n, vers);
      NextLocked(m, w, g, d, vers);
      RangeLocked(One(m, w, g + d).value, w, g, d + 1, n - 1, vers);
    }
  }
}
