/** The calls by which VMs convert, assign, reclaim and share memory, as functions of the whole memory. A
    call that meets an `unwrap` of an error panics; the results say exactly when one does, that every call
    keeps the memory invariant, and what a call leaves behind when it fails. Page counts are 64-bit numbers
    that the code multiplies by the size of a page without looking at the carry. */
module Hypercalls {
  import opened Basics
  import opened PageInfos
  import opened Memory
  import opened MemorySteps
  import opened MemoryRanges

  /** How a call ends. A failed call says what memory it leaves behind. */
  datatype Call = Done(mem: Mem) | Failed(mem: Mem) | Panic

  function Finish(r: Option<Mem>): (c: Call) {
    match r case Some(m) => Done(m) case None => Panic
  }

  /** What every call owes: it does not panic, keeps the invariant and every translation that may be
      cached, and leaves no page of the host locked. */
  ghost predicate Sound(m: Mem, c: Call, vers: Versions) {
    !c.Panic? && Good(m, c.mem, vers) && Unlocked(c.mem)
  }

  /** What a call owes that can panic: all that, unless it does. */
  ghost predicate Careful(m: Mem, c: Call, vers: Versions) {
    !c.Panic? ==> Sound(m, c, vers)
  }

  /* ---------------- page counts ---------------- */

  /** Addresses have 64 bits, and pages 4096 bytes. */
  const PAGE_LIMIT: nat := 0x10_0000_0000_0000

  /** How many pages a call works on that is asked for `n`: it computes the number of bytes modulo 2^64. */
  function Wrapped(n: nat): (k: nat)
    ensures k <= n && (n < PAGE_LIMIT ==> k == n)
  {
    n % PAGE_LIMIT
  }

  /** The address behind the range can be computed. */
  predicate InSpace(g: nat, n: nat) {
    g + Wrapped(n) < PAGE_LIMIT
  }

  /** Page `j` uses the same entry as a page that is at most LIMIT behind `g`. */
  lemma Again(vm: OwnerId, g: nat, j: nat) returns (i: nat)
    requires g <= j
    ensures g <= i < g + LIMIT && i <= j && At(vm, i) == At(vm, j)
  {
    var q, r := (j - g) / LIMIT, (j - g) % LIMIT;
    i := g + r;
    assert j == i + q * LIMIT;
  }

  /* ---------------- convert ---------------- */

  predicate AllConvertible(m: Mem, vm: OwnerId, g: nat, n: nat) {
    forall i | g <= i < g + n :: Convertible(m, At(vm, i))
  }

  /** Only the host may convert: a page of a guest could not be assigned any further. */
  function ConvertPages(m: Mem, vm: OwnerId, g: nat, n: nat, cur: nat): (c: Call) {
    if vm != HOST || n == 0 || !InSpace(g, n) || !AllConvertible(m, vm, g, Wrapped(n)) then Failed(m)
    else Finish(Range(m, Convert(cur), g, Wrapped(n)))
  }

  lemma ConvertReady(m: Mem, g: nat, n: nat, vers: Versions)
    requires Fresh(m, vers) && AllConvertible(m, HOST, g, n) && n <= LIMIT
    ensures AllReady(m, Convert(vers[HOST].cur), g, n, vers)
  {
    hide Convertible;
    forall i | g <= i < g + n ensures Ready(m, Convert(vers[HOST].cur), i, vers) {
      assert Convertible(m, At(HOST, i));
    }
  }

  /** Conversion passes over pages that are not mapped any more. */
  lemma {:induction false} PassesOver(m: Mem, cur: nat, g: nat, n: nat)
    requires forall i | g <= i < g + n :: At(HOST, i) in m.ptes && m.ptes[At(HOST, i)].Invalidated?
    ensures Range(m, Convert(cur), g, n) == Some(m)
    decreases n
  {
    hide At;
    if n > 0 {
      assert At(HOST, g) in m.ptes;
      PassesOver(m, cur, g + 1, n - 1);
    }
  }

  /** A range so long that entries repeat is converted like one that is not. */
  lemma ConvertsOnce(m: Mem, g: nat, n: nat, vers: Versions)
    requires MemInv(m) && Fresh(m, vers) && AllConvertible(m, HOST, g, n) && n > LIMIT
    ensures Range(m, Convert(vers[HOST].cur), g, n) == Range(m, Convert(vers[HOST].cur), g, LIMIT)
  {
    hide MemInv, Good, Range, At, Convertible;
    var w := Convert(vers[HOST].cur);
    ConvertReady(m, g, LIMIT, vers);
    RangeGood(m, w, g, LIMIT, vers);
    RangeParts(m, w, g, LIMIT, n - LIMIT);
    var m1 := Range(m, w, g, LIMIT).value;
    forall j: nat | g + LIMIT <= j < g + LIMIT + (n - LIMIT)
      ensures At(HOST, j) in m1.ptes && m1.ptes[At(HOST, j)].Invalidated?
    {
      var i := Again(HOST, g, j);
      ConvertedAt(m, g, LIMIT, vers, i);
    }
    PassesOver(m1, vers[HOST].cur, g + LIMIT, n - LIMIT);
  }

  lemma ConvertedAt(m: Mem, g: nat, n: nat, vers: Versions, j: nat)
    requires MemInv(m) && Fresh(m, vers) && AllConvertible(m, HOST, g, n) && n <= LIMIT && g <= j < g + n
    ensures Range(m, Convert(vers[HOST].cur), g, n).Some?
    ensures var o := Range(m, Convert(vers[HOST].cur), g, n).value;
            && At(HOST, j) in m.ptes && m.ptes[At(HOST, j)].Leaf?
            && Get(o.ptes, At(HOST, j)) == Some(Invalidated(m.ptes[At(HOST, j)].page))
            && Get(o.pages, m.ptes[At(HOST, j)].page) == Some(Info(Ram, Converting(vers[HOST].cur), [HOST]))
  {
    hide MemInv, At;
    var w := Convert(vers[HOST].cur);
    ConvertReady(m, g, n, vers);
    RangeAt(m, w, g, n, vers, j);
    MappedByHost(m, At(HOST, j));
    assert SlotAt(Range(m, w, g, n).value, w, j).src == SlotAt(One(m, w, j).value, w, j).src;
    assert SlotAt(Range(m, w, g, n).value, w, j).page == SlotAt(One(m, w, j).value, w, j).page;
  }

  lemma ConvertPagesSound(m: Mem, vm: OwnerId, g: nat, n: nat, vers: Versions)
    requires MemInv(m) && Fresh(m, vers) && Unlocked(m)
    ensures Sound(m, ConvertPages(m, vm, g, n, vers[HOST].cur), vers)
  {
    hide MemInv, Good, Range, Wrapped, AllConvertible;
    Nothing(m, vers);
    var w, k := Convert(vers[HOST].cur), Wrapped(n);
    if ConvertPages(m, vm, g, n, vers[HOST].cur) != Failed(m) {
      var d := if k <= LIMIT then k else LIMIT;
      if k > LIMIT { ConvertsOnce(m, g, k, vers); }
      Shorter(m, g, k, d);
      ConvertReady(m, g, d, vers);
      RangeGood(m, w, g, d, vers);
      RangeUnlocked(m, w, g, d, vers);
    }
  }

  lemma Shorter(m: Mem, g: nat, n: nat, d: nat)
    requires AllConvertible(m, HOST, g, n) && d <= n
    ensures AllConvertible(m, HOST, g, d)
  {
  }

  /** The entries of the range become invalid and their pages begin conversion at the current version. The range
      is as long as the count modulo 2^52 says. */
  lemma ConvertPagesDoes(m: Mem, g: nat, n: nat, vers: Versions, j: nat)
    requires MemInv(m) && Fresh(m, vers) && g <= j < g + Wrapped(n)
    requires ConvertPages(m, HOST, g, n, vers[HOST].cur).Done?
    ensures var o := ConvertPages(m, HOST, g, n, vers[HOST].cur).mem;
            && At(HOST, j) in m.ptes && m.ptes[At(HOST, j)].Leaf?
            && Get(o.ptes, At(HOST, j)) == Some(Invalidated(m.ptes[At(HOST, j)].page))
            && Get(o.pages, m.ptes[At(HOST, j)].page) == Some(Info(Ram, Converting(vers[HOST].cur), [HOST]))
  {
    hide MemInv, Range, Wrapped, AllConvertible, At;
    var k := Wrapped(n);
    var d := if k <= LIMIT then k else LIMIT;
    if k > LIMIT { ConvertsOnce(m, g, k, vers); }
    Shorter(m, g, k, d);
    var i := Again(HOST, g, j);
    ConvertedAt(m, g, d, vers, i);
  }

  lemma MappedByHost(m: Mem, k: Key)
    requires MemInv(m) && k.vm == HOST && Convertible(m, k)
    ensures m.pages[m.ptes[k].page] == Info(Ram, Mapped, [HOST])
  {
  }

  /** Asked for a multiple of 2^52 pages, as a 64-bit count can, the call reports success and has done nothing. */
  lemma ConvertNothing(m: Mem, g: nat, c: nat, cur: nat)
    requires g < PAGE_LIMIT && 0 < c < 0x1000
    ensures c * PAGE_LIMIT < 0x1_0000_0000_0000_0000
    ensures ConvertPages(m, HOST, g, c * PAGE_LIMIT, cur) == Done(m)
  {
    assert Wrapped(c * PAGE_LIMIT) == 0;
  }

  /* ---------------- converted pages ---------------- */

  predicate AllLockable(m: Mem, vm: OwnerId, g: nat, n: nat, min: nat) {
    forall i | g <= i < g + n :: Lockable(m, At(vm, i), min)
  }

  /** Completes conversion where it is due, and locks the pages of the range. */
  function GetConvertedPages(m: Mem, vm: OwnerId, g: nat, n: nat, min: nat): (c: Call) {
    if n == 0 || !InSpace(g, n) || !AllLockable(m, vm, g, Wrapped(n), min) then Failed(m)
    else Finish(Range(m, Lock(vm, min), g, Wrapped(n)))
  }

  /** The range passes the check and is so long that entries repeat. */
  predicate LocksTwice(m: Mem, vm: OwnerId, g: nat, n: nat, min: nat) {
    InSpace(g, n) && Wrapped(n) > LIMIT && AllLockable(m, vm, g, Wrapped(n), min)
  }

  lemma LockReady(m: Mem, vm: OwnerId, g: nat, n: nat, vers: Versions)
    requires vm in vers && AllLockable(m, vm, g, n, vers[vm].min) && n <= LIMIT
    ensures AllReady(m, Lock(vm, vers[vm].min), g, n, vers)
  {
    hide Lockable;
    forall i | g <= i < g + n ensures Ready(m, Lock(vm, vers[vm].min), i, vers) {
      assert Lockable(m, At(vm, i), vers[vm].min);
    }
  }

  /** Only the host has converted pages. */
  lemma LockerIsHost(m: Mem, vm: OwnerId, g: nat, n: nat, vers: Versions)
    requires MemInv(m) && Fresh(m, vers) && vm in vers && AllLockable(m, vm, g, n, vers[vm].min) && n > 0
    ensures vm == HOST
  {
    hide MemInv, Good, At;
    assert Lockable(m, At(vm, g), vers[vm].min);
    LockOneGood(m, At(vm, g), vers);
  }

  /** No page can be locked a second time. */
  lemma LockTwice(m: Mem, vm: OwnerId, g: nat, n: nat, vers: Versions)
    requires MemInv(m) && Fresh(m, vers) && vm in vers && AllLockable(m, vm, g, n, vers[vm].min) && n > LIMIT
    ensures Range(m, Lock(vm, vers[vm].min), g, n) == None
  {
    hide MemInv, Good, AllReady, Range, One, At, Lockable, Locked;
    LockerIsHost(m, vm, g, n, vers);
    LockReady(m, vm, g, LIMIT, vers);
    LockedAt(m, g, LIMIT, vers, g);
    RangeParts(m, Lock(vm, vers[vm].min), g, LIMIT, n - LIMIT);
    AtRepeats(HOST, g);
    StopsAt(Range(m, Lock(vm, vers[vm].min), g, LIMIT).value, vers[HOST].min, g + LIMIT, n - LIMIT);
  }

  lemma StopsAt(m: Mem, min: nat, g: nat, n: nat)
    requires n > 0 && Locked(m, At(HOST, g))
    ensures Range(m, Lock(HOST, min), g, n) == None
  {
    hide At;
    assert One(m, Lock(HOST, min), g) == None;
  }

  /** Locking succeeds on exactly the pages asked for, fails without a trace, or panics on a page that it meets for
      the second time. */
  lemma GetConvertedPagesGood(m: Mem, vm: OwnerId, g: nat, n: nat, vers: Versions)
    requires MemInv(m) && Fresh(m, vers) && Unlocked(m) && vm in vers
    ensures var c := GetConvertedPages(m, vm, g, n, vers[vm].min);
            (c.Panic? <==> LocksTwice(m, vm, g, n, vers[vm].min)) && (c.Failed? ==> c.mem == m)
    ensures var c := GetConvertedPages(m, vm, g, n, vers[vm].min);
            c.Done? ==> Good(m, c.mem, vers) && Wrapped(n) <= LIMIT && LockedWithin(c.mem, g, Wrapped(n))
                        && c.mem.vms == m.vms
                        && (Wrapped(n) > 0 ==> vm == HOST)
                        && (forall i | g <= i < g + Wrapped(n) :: Locked(c.mem, At(HOST, i)))
  {
    hide MemInv, Good, Range, Wrapped, Locked, AllLockable;
    Nothing(m, vers);
    var k, c := Wrapped(n), GetConvertedPages(m, vm, g, n, vers[vm].min);
    if c != Failed(m) {
      if k > LIMIT {
        LockTwice(m, vm, g, k, vers);
      } else if k == 0 {
        LockNothing(m, vm, g, vers[vm].min);
      } else {
        LockerIsHost(m, vm, g, k, vers);
        LockReady(m, vm, g, k, vers);
        LockedRange(m, g, k, vers);
      }
    }
  }

  lemma LockNothing(m: Mem, vm: OwnerId, g: nat, min: nat)
    ensures Range(m, Lock(vm, min), g, 0) == Some(m)
    ensures Unlocked(m) ==> LockedWithin(m, g, 0)
  {
  }

  lemma LockedRange(m: Mem, g: nat, n: nat, vers: Versions)
    requires MemInv(m) && Fresh(m, vers) && Unlocked(m) && AllReady(m, Lock(HOST, vers[HOST].min), g, n, vers)
    ensures Range(m, Lock(HOST, vers[HOST].min), g, n).Some?
    ensures var o := Range(m, Lock(HOST, vers[HOST].min), g, n).value;
            Good(m, o, vers) && LockedWithin(o, g, n) && o.vms == m.vms && forall i | g <= i < g + n ::
              Locked(o, At(HOST, i))
  {
    hide MemInv, Good, Range, Locked, AllReady;
    var w := Lock(HOST, vers[HOST].min);
    RangeGood(m, w, g, n, vers);
    assert g + 0 == g && 0 + n == n;
    RangeLocked(m, w, g, 0, n, vers);
    forall i | g <= i < g + n ensures Locked(Range(m, w, g, n).value, At(HOST, i)) {
      LockedAt(m, g, n, vers, i);
    }
  }

  lemma LockedAt(m: Mem, g: nat, n: nat, vers: Versions, i: nat)
    requires MemInv(m) && Fresh(m, vers) && g <= i < g + n && AllReady(m, Lock(HOST, vers[HOST].min), g, n, vers)
    ensures Range(m, Lock(HOST, vers[HOST].min), g, n).Some?
    ensures Locked(Range(m, Lock(HOST, vers[HOST].min), g, n).value, At(HOST, i))
  {
    hide MemInv, Good, At;
    var w := Lock(HOST, vers[HOST].min);
    assert Ready(m, w, i, vers);
    LockOneGood(m, At(HOST, i), vers);
    RangeAt(m, w, g, n, vers, i);
    assert SlotAt(Range(m, w, g, n).value, w, i).src == SlotAt(One(m, w, i).value, w, i).src;
    assert SlotAt(Range(m, w, g, n).value, w, i).page == SlotAt(One(m, w, i).value, w, i).page;
  }

  predicate AllMappable(m: Mem, vm: OwnerId, g: nat, n: nat, r: RegionType) {
    forall i | g <= i < g + n :: Mappable(m, Key(vm, i), r)
  }

  /** There are no regions at addresses that the tables do not translate. */
  lemma MappableBelow(m: Mem, vm: OwnerId, g: nat, n: nat, r: RegionType)
    requires MemInv(m) && AllMappable(m, vm, g, n, r)
    ensures n > 0 ==> g + n <= LIMIT && Wrapped(n) == n
  {
    if n > 0 { assert Mappable(m, Key(vm, g + n - 1), r); }
  }

  /** reclaim: takes converted pages back and maps them where they were. The entries are reserved by the count as
      it was given, and without looking for an error. */
  function ReclaimPages(m: Mem, vm: OwnerId, g: nat, n: nat, min: nat): (c: Call) {
    match GetConvertedPages(m, vm, g, n, min)
    case Done(m1) => if AllMappable(m1, vm, g, n, Confidential) then Finish(Range(m1, Reclaim, g, Wrapped(n)))
                     else Panic
    case other => other
  }

  lemma LockedMappable(m: Mem, vm: OwnerId, g: nat, n: nat)
    requires MemInv(m) && g + n <= LIMIT && (n > 0 ==> vm == HOST) && forall i | g <= i < g + n ::
             Locked(m, At(HOST, i))
    ensures AllMappable(m, vm, g, n, Confidential)
  {
    hide MemInv, At;
    forall i | g <= i < g + n ensures Mappable(m, Key(vm, i), Confidential) {
      assert Locked(m, At(HOST, i)) && At(HOST, i) == Key(HOST, i);
      EntryAt(m, Key(HOST, i));
    }
  }

  /** The call panics exactly if the pages pass the check but the range, as long as it was asked for, reaches beyond
      the addresses that the host's table translates. In all other cases it keeps what a call has to keep. */
  lemma ReclaimPagesSound(m: Mem, vm: OwnerId, g: nat, n: nat, vers: Versions)
    requires MemInv(m) && Fresh(m, vers) && Unlocked(m) && vm in vers
    ensures Careful(m, ReclaimPages(m, vm, g, n, vers[vm].min), vers)
    ensures ReclaimPages(m, vm, g, n, vers[vm].min).Panic? <==>
            n > 0 && InSpace(g, n) && g + n > LIMIT && AllLockable(m, vm, g, Wrapped(n), vers[vm].min)
  {
    hide MemInv, Good, Locked, AllLockable, AllMappable, Range, Wrapped;
    Nothing(m, vers);
    GetConvertedPagesGood(m, vm, g, n, vers);
    var c := GetConvertedPages(m, vm, g, n, vers[vm].min);
    if c.Done? {
      GoodIs(m, c.mem, vers);
      if AllMappable(c.mem, vm, g, n, Confidential) {
        MappableBelow(c.mem, vm, g, n, Confidential);
        ReclaimReady(c.mem, g, n, vers);
        RangeGood(c.mem, Reclaim, g, n, vers);
        RangeUnlocked(c.mem, Reclaim, g, n, vers);
        GoodTrans(m, c.mem, Range(c.mem, Reclaim, g, n).value, vers);
      } else if g + n <= LIMIT {
        LockedMappable(c.mem, vm, g, n);
      }
    }
  }

  lemma ReclaimReady(m1: Mem, g: nat, n: nat, vers: Versions)
    requires n <= LIMIT && forall i | g <= i < g + n :: Locked(m1, At(HOST, i))
    ensures AllReady(m1, Reclaim, g, n, vers)
  {
    hide Locked;
  }

  /** With a count of 2^52 pages the check has nothing to look at, and the call panics, whoever makes it. */
  lemma ReclaimPanics(m: Mem, vm: OwnerId, g: nat, min: nat)
    requires MemInv(m) && g < PAGE_LIMIT
    ensures ReclaimPages(m, vm, g, PAGE_LIMIT, min) == Panic
  {
    hide MemInv;
    assert Wrapped(PAGE_LIMIT) == 0;
    if AllMappable(m, vm, g, PAGE_LIMIT, Confidential) {
      MappableBelow(m, vm, g, PAGE_LIMIT, Confidential);
    }
  }

  lemma ReclaimPagesDoneIff(m: Mem, vm: OwnerId, g: nat, n: nat, vers: Versions)
    requires MemInv(m) && Fresh(m, vers) && Unlocked(m) && vm in vers
    ensures ReclaimPages(m, vm, g, n, vers[vm].min).Done? <==>
            n > 0 && g + n <= LIMIT && forall i | g <= i < g + n :: Lockable(m, Key(vm, i), vers[vm].min)
  {
    hide MemInv, Good, Lockable, Range, At;
    ReclaimPagesSound(m, vm, g, n, vers);
    GetConvertedPagesGood(m, vm, g, n, vers);
    if g + n <= LIMIT {
      forall i | g <= i < g + n ensures At(vm, i) == Key(vm, i) {
      }
    }
  }

  /** The pages are the host's again, mapped where they were before they were converted. */
  lemma ReclaimPagesDoes(m: Mem, g: nat, n: nat, vers: Versions, j: nat)
    requires MemInv(m) && Fresh(m, vers) && Unlocked(m) && g <= j < g + n
    requires ReclaimPages(m, HOST, g, n, vers[HOST].min).Done?
    ensures var o := ReclaimPages(m, HOST, g, n, vers[HOST].min).mem;
            && Key(HOST, j) in m.ptes
            && Get(o.ptes, Key(HOST, j)) == Some(Leaf(m.ptes[Key(HOST, j)].page))
            && Get(o.pages, m.ptes[Key(HOST, j)].page) == Some(Info(Ram, Mapped, [HOST]))
  {
    hide MemInv, Good, At, Wrapped, AllLockable, AllMappable;
    GetConvertedPagesGood(m, HOST, g, n, vers);
    var m1 := GetConvertedPages(m, HOST, g, n, vers[HOST].min).mem;
    GoodIs(m, m1, vers);
    MappableBelow(m1, HOST, g, n, Confidential);
    LockReady(m, HOST, g, n, vers);
    assert At(HOST, j) == Key(HOST, j) && Locked(m1, At(HOST, j));
    LockKeepsEntries(m, g, n, vers, Key(HOST, j));
    ReclaimReady(m1, g, n, vers);
    RangeAt(m1, Reclaim, g, n, vers, j);
    assert SlotAt(Range(m1, Reclaim, g, n).value, Reclaim, j).src == SlotAt(One(m1, Reclaim, j).value, Reclaim, j).src;
    assert SlotAt(Range(m1, Reclaim, g, n).value, Reclaim, j).page ==
           SlotAt(One(m1, Reclaim, j).value, Reclaim, j).page;
  }

  /** Locking changes no entry and no region. */
  lemma LockKeepsEntries(m: Mem, g: nat, n: nat, vers: Versions, k: Key)
    requires MemInv(m) && Fresh(m, vers) && AllReady(m, Lock(HOST, vers[HOST].min), g, n, vers)
    ensures Range(m, Lock(HOST, vers[HOST].min), g, n).Some?
    ensures var o := Range(m, Lock(HOST, vers[HOST].min), g, n).value;
            Get(o.ptes, k) == Get(m.ptes, k) && Get(o.regions, k) == Get(m.regions, k)
  {
    hide MemInv, Good, AllReady;
    var w := Lock(HOST, vers[HOST].min);
    RangeGood(m, w, g, n, vers);
    OnlyPages(m, w, g, n);
  }

  /* ---------------- giving pages to guests ---------------- */

  /** What happens to the locked pages when a call that took them fails: they stay converted. */
  function GiveUp(m: Mem, g: nat, n: nat): (c: Call) {
    match Range(m, Unlock, g, n) case Some(o) => Failed(o) case None => Panic
  }

  lemma GiveUpReady(m1: Mem, g: nat, n: nat, vers: Versions)
    requires n <= LIMIT && forall i | g <= i < g + n :: Locked(m1, At(HOST, i))
    ensures AllReady(m1, Unlock, g, n, vers)
  {
    hide Locked;
  }

  lemma GiveUpSound(m: Mem, m1: Mem, g: nat, n: nat, vers: Versions)
    requires Good(m, m1, vers) && LockedWithin(m1, g, n) && n <= LIMIT
    requires forall i | g <= i < g + n :: Locked(m1, At(HOST, i))
    ensures Sound(m, GiveUp(m1, g, n), vers)
  {
    hide MemInv, Good, Locked;
    GoodIs(m, m1, vers);
    GiveUpReady(m1, g, n, vers);
    RangeGood(m1, Unlock, g, n, vers);
    RangeUnlocked(m1, Unlock, g, n, vers);
    GoodTrans(m, m1, Range(m1, Unlock, g, n).value, vers);
  }

  /** Adds zero or measured pages to a guest. `tables` says whether there were enough page-table pages to
      reserve the entries, and `copied` how many pages could be filled (all of them for zero pages). */
  function AddPages(m: Mem, guest: OwnerId, from: nat, to: nat, n: nat, tables: bool, copied: nat,
                    min: nat): (c: Call) {
    match GetConvertedPages(m, HOST, from, n, min)
    case Done(m1) =>
      if guest == HOST || !tables || !AllMappable(m1, guest, to, n, Confidential) || copied < Wrapped(n) then
        GiveUp(m1, from, Wrapped(n))
      else Finish(Range(m1, AssignTo(guest, from, to), from, Wrapped(n)))
    case other => other
  }

  /** The call panics exactly if it comes to lock a page twice. */
  lemma AddPagesSound(m: Mem, guest: OwnerId, from: nat, to: nat, n: nat, tables: bool, copied: nat, vers: Versions)
    requires MemInv(m) && Fresh(m, vers) && Unlocked(m)
    ensures Careful(m, AddPages(m, guest, from, to, n, tables, copied, vers[HOST].min), vers)
    ensures AddPages(m, guest, from, to, n, tables, copied, vers[HOST].min).Panic? <==>
            LocksTwice(m, HOST, from, n, vers[HOST].min)
  {
    hide MemInv, Good, Locked, AllMappable, LocksTwice, Range, Wrapped, GiveUp;
    Nothing(m, vers);
    GetConvertedPagesGood(m, HOST, from, n, vers);
    var c := GetConvertedPages(m, HOST, from, n, vers[HOST].min);
    if c.Done? {
      var m1 := c.mem;
      if guest == HOST || !tables || !AllMappable(m1, guest, to, n, Confidential) || copied < Wrapped(n) {
        GiveUpSound(m, m1, from, Wrapped(n), vers);
      } else {
        var w := AssignTo(guest, from, to);
        GoodIs(m, m1, vers);
        MappableBelow(m1, guest, to, n, Confidential);
        AssignReady(m1, guest, from, to, n, vers);
        RangeGood(m1, w, from, n, vers);
        RangeUnlocked(m1, w, from, n, vers);
        GoodTrans(m, m1, Range(m1, w, from, n).value, vers);
      }
    }
  }

  lemma AssignReady(m1: Mem, guest: OwnerId, from: nat, to: nat, n: nat, vers: Versions)
    requires guest != HOST && n <= LIMIT
    requires forall i | from <= i < from + n :: Locked(m1, At(HOST, i))
    requires AllMappable(m1, guest, to, n, Confidential)
    ensures AllReady(m1, AssignTo(guest, from, to), from, n, vers)
  {
    hide Locked, At;
    forall i | from <= i < from + n ensures Ready(m1, AssignTo(guest, from, to), i, vers) {
      assert Mappable(m1, Key(guest, to + (i - from)), Confidential);
    }
  }

  lemma AssignedAt(m1: Mem, guest: OwnerId, from: nat, to: nat, n: nat, vers: Versions, j: nat)
    requires MemInv(m1) && Fresh(m1, vers) && AllReady(m1, AssignTo(guest, from, to), from, n, vers) && j < n
    requires Locked(m1, At(HOST, from + j)) && guest != HOST
    ensures Range(m1, AssignTo(guest, from, to), from, n).Some?
    ensures var o := Range(m1, AssignTo(guest, from, to), from, n).value;
            var p := m1.ptes[At(HOST, from + j)].page;
            && Get(o.ptes, Key(guest, to + j)) == Some(Leaf(p))
            && Get(o.ptes, At(HOST, from + j)) == Some(Invalidated(p))
            && Get(o.pages, p) == Some(Info(Ram, Mapped, [HOST, guest]))
  {
    hide MemInv, Good, AllReady, At;
    var w := AssignTo(guest, from, to);
    RangeAt(m1, w, from, n, vers, from + j);
    var a, b := SlotAt(Range(m1, w, from, n).value, w, from + j), SlotAt(One(m1, w, from + j).value, w, from + j);
    assert a.src == b.src && a.dst == b.dst && a.page == b.page;
    assert [HOST] + [guest] == [HOST, guest];
  }

  /** The pages that were locked, by the count asked for, in the memory that locking left. */
  lemma LockedPages(m: Mem, from: nat, n: nat, vers: Versions, j: nat)
    requires MemInv(m) && Fresh(m, vers) && Unlocked(m) && j < Wrapped(n)
    requires GetConvertedPages(m, HOST, from, n, vers[HOST].min).Done?
    ensures var m1 := GetConvertedPages(m, HOST, from, n, vers[HOST].min).mem;
            && MemInv(m1) && Fresh(m1, vers) && Wrapped(n) <= LIMIT
            && At(HOST, from + j) in m.ptes && Locked(m1, At(HOST, from + j)) && m1.ptes == m.ptes
               && m1.regions == m.regions
            && (forall i | from <= i < from + Wrapped(n) :: Locked(m1, At(HOST, i)))
  {
    hide MemInv, Good, Locked, AllLockable, Wrapped;
    GetConvertedPagesGood(m, HOST, from, n, vers);
    var m1 := GetConvertedPages(m, HOST, from, n, vers[HOST].min).mem;
    GoodIs(m, m1, vers);
    OnlyPages(m, Lock(HOST, vers[HOST].min), from, Wrapped(n));
    assert Locked(m1, At(HOST, from + j));
    LockedHas(m1, At(HOST, from + j));
  }

  lemma LockedHas(m: Mem, k: Key)
    requires Locked(m, k)
    ensures k in m.ptes
  {
  }

  /** The guest has the page, mapped at the address asked for; the host keeps an invalid entry for it. */
  lemma AddPagesDoes(m: Mem, guest: OwnerId, from: nat, to: nat, n: nat, tables: bool, copied: nat, vers: Versions,
                     j: nat)
    requires MemInv(m) && Fresh(m, vers) && Unlocked(m) && j < n
    requires AddPages(m, guest, from, to, n, tables, copied, vers[HOST].min).Done?
    ensures var o := AddPages(m, guest, from, to, n, tables, copied, vers[HOST].min).mem;
            && At(HOST, from + j) in m.ptes
            && Get(o.ptes, Key(guest, to + j)) == Some(Leaf(m.ptes[At(HOST, from + j)].page))
            && Get(o.ptes, At(HOST, from + j)) == Some(Invalidated(m.ptes[At(HOST, from + j)].page))
            && Get(o.pages, m.ptes[At(HOST, from + j)].page) == Some(Info(Ram, Mapped, [HOST, guest]))
  {
    hide MemInv, Good, Locked, Range, Wrapped, AllMappable, GetConvertedPages;
    GetConvertedPagesGood(m, HOST, from, n, vers);
    var m1 := GetConvertedPages(m, HOST, from, n, vers[HOST].min).mem;
    GoodIs(m, m1, vers);
    MappableBelow(m1, guest, to, n, Confidential);
    LockedPages(m, from, n, vers, j);
    AssignReady(m1, guest, from, to, n, vers);
    AssignedAt(m1, guest, from, to, n, vers, j);
  }

  /** Exactly when the call succeeds, in terms of the memory it is made on. Nothing is left of the count modulo
      2^52: the guest has no regions for so many pages. */
  lemma AddPagesDoneIff(m: Mem, guest: OwnerId, from: nat, to: nat, n: nat, tables: bool, copied: nat, vers: Versions)
    requires MemInv(m) && Fresh(m, vers) && Unlocked(m)
    ensures AddPages(m, guest, from, to, n, tables, copied, vers[HOST].min).Done? <==>
            && n > 0 && from + n < PAGE_LIMIT && guest != HOST && tables && copied >= n
            && (forall i | from <= i < from + n :: Lockable(m, At(HOST, i), vers[HOST].min))
            && (forall i | to <= i < to + n :: Mappable(m, Key(guest, i), Confidential))
  {
    hide MemInv, Good, Lockable, Mappable, Range, At, GiveUp, Locked;
    AddPagesSound(m, guest, from, to, n, tables, copied, vers);
    GetConvertedPagesGood(m, HOST, from, n, vers);
    var c := GetConvertedPages(m, HOST, from, n, vers[HOST].min);
    if c.Done? {
      GoodIs(m, c.mem, vers);
      OnlyPages(m, Lock(HOST, vers[HOST].min), from, Wrapped(n));
      SameMappable(m, c.mem, guest, to, n);
      if AllMappable(c.mem, guest, to, n, Confidential) { MappableBelow(c.mem, guest, to, n, Confidential); }
      assert GiveUp(c.mem, from, Wrapped(n)).Done? == false by { NoSuccess(c.mem, from, Wrapped(n)); }
    } else if n > 0 && AllMappable(m, guest, to, n, Confidential) {
      MappableBelow(m, guest, to, n, Confidential);
    }
  }

  lemma NoSuccess(m: Mem, g: nat, n: nat)
    ensures !GiveUp(m, g, n).Done?
  {
  }

  lemma SameMappable(m: Mem, o: Mem, vm: OwnerId, g: nat, n: nat)
    requires o.ptes == m.ptes && o.regions == m.regions
    ensures AllMappable(o, vm, g, n, Confidential) <==> AllMappable(m, vm, g, n, Confidential)
  {
    forall i | g <= i < g + n ensures Mappable(o, Key(vm, i), Confidential) <==> Mappable(m, Key(vm, i), Confidential) {
    }
  }

  lemma UnlockedAt(m1: Mem, g: nat, n: nat, vers: Versions, j: nat)
    requires MemInv(m1) && Fresh(m1, vers) && AllReady(m1, Unlock, g, n, vers) && j < n && Locked(m1, At(HOST, g + j))
    ensures Range(m1, Unlock, g, n).Some?
    ensures Get(Range(m1, Unlock, g, n).value.pages, m1.ptes[At(HOST, g + j)].page) ==
            Some(Info(Ram, Converted, [HOST]))
  {
    hide MemInv, Good, AllReady, At;
    RangeAt(m1, Unlock, g, n, vers, g + j);
    var a, b := SlotAt(Range(m1, Unlock, g, n).value, Unlock, g + j),
        SlotAt(One(m1, Unlock, g + j).value, Unlock, g + j);
    assert a.src == b.src && a.page == b.page;
  }

  /** A failed call has completed conversions that were due and done nothing else: every page it asked for
      is Converted, unlocked and still the host's, and no guest has got any of them. */
  lemma AddPagesFails(m: Mem, guest: OwnerId, from: nat, to: nat, n: nat, tables: bool, copied: nat, vers: Versions,
                      j: nat)
    requires MemInv(m) && Fresh(m, vers) && Unlocked(m) && j < Wrapped(n)
    requires AddPages(m, guest, from, to, n, tables, copied, vers[HOST].min).Failed?
    ensures var o := AddPages(m, guest, from, to, n, tables, copied, vers[HOST].min).mem;
            || o == m
            || (&& o == m.(pages := o.pages) && At(HOST, from + j) in m.ptes
                && Get(o.pages, m.ptes[At(HOST, from + j)].page) == Some(Info(Ram, Converted, [HOST])))
  {
    hide MemInv, Good, Locked, Range, Wrapped, AllMappable, AllLockable;
    GetConvertedPagesGood(m, HOST, from, n, vers);
    if GetConvertedPages(m, HOST, from, n, vers[HOST].min).Done? {
      GivenUpAt(m, from, n, vers, from + j);
      GivenUpElse(m, from, n, vers);
    }
  }

  /** Locking and unlocking change the records of pages and nothing else. */
  lemma {:induction false} OnlyPages(m: Mem, w: Work, g: nat, n: nat)
    requires (w.Lock? || w.Unlock?) && Range(m, w, g, n).Some?
    ensures var o := Range(m, w, g, n).value; o == m.(pages := o.pages) && o.pages.Keys == m.pages.Keys
    decreases n
  {
    hide At;
    if n > 0 { OnlyPages(One(m, w, g).value, w, g + 1, n - 1); }
  }

  predicate AllConverted(m: Mem, from: nat, n: nat) {
    forall i | from <= i < from + n ::
      At(HOST, i) in m.ptes && m.ptes[At(HOST, i)].page in m.pages
        && m.pages[m.ptes[At(HOST, i)].page].state == Converted
  }

  /** A failed call has changed nothing at all if and only if it had locked nothing, or all pages it had locked were
      Converted before: it is not undone that it completes conversions. */
  lemma AddPagesFailsSameIff(m: Mem, guest: OwnerId, from: nat, to: nat, n: nat, tables: bool, copied: nat,
                             vers: Versions)
    requires MemInv(m) && Fresh(m, vers) && Unlocked(m)
    requires AddPages(m, guest, from, to, n, tables, copied, vers[HOST].min).Failed?
    ensures AddPages(m, guest, from, to, n, tables, copied, vers[HOST].min).mem == m <==>
            || n == 0 || !InSpace(from, n) || !AllLockable(m, HOST, from, Wrapped(n), vers[HOST].min)
            || AllConverted(m, from, Wrapped(n))
  {
    if n > 0 && InSpace(from, n) && AllLockable(m, HOST, from, Wrapped(n), vers[HOST].min) {
      hide MemInv, Good, GiveUp, Range, Wrapped, AllMappable, AllConverted, At, AllLockable;
      var k, c := Wrapped(n), GetConvertedPages(m, HOST, from, n, vers[HOST].min);
      GetConvertedPagesGood(m, HOST, from, n, vers);
      GivenUpElse(m, from, n, vers);
      forall i | from <= i < from + k ensures GivenUp(m, GiveUp(c.mem, from, k).mem, i) {
        GivenUpAt(m, from, n, vers, i);
      }
      SameIff(m, GiveUp(c.mem, from, k).mem, from, k, vers);
    }
  }

  ghost predicate GivenUp(m: Mem, o: Mem, i: nat) {
    At(HOST, i) in m.ptes && Get(o.pages, m.ptes[At(HOST, i)].page) == Some(Info(Ram, Converted, [HOST]))
  }

  lemma SameIff(m: Mem, o: Mem, from: nat, n: nat, vers: Versions)
    requires MemInv(m) && Fresh(m, vers) && AllLockable(m, HOST, from, n, vers[HOST].min)
    requires o == m.(pages := o.pages) && o.pages.Keys == m.pages.Keys
    requires forall i | from <= i < from + n :: GivenUp(m, o, i)
    requires forall p | p in m.pages && !NamedIn(m, from, n, p) :: o.pages[p] == m.pages[p]
    ensures o == m <==> AllConverted(m, from, n)
  {
    hide MemInv, At;
    if AllConverted(m, from, n) {
      forall p | p in m.pages ensures o.pages[p] == m.pages[p] {
        if NamedIn(m, from, n, p) {
          var i :| from <= i < from + n && At(HOST, i) in m.ptes && m.ptes[At(HOST, i)].page == p;
          assert GivenUp(m, o, i);
          LockOneGood(m, At(HOST, i), vers);
          PageAt(m, p);
        }
      }
    }
    if o == m {
      forall i | from <= i < from + n
        ensures At(HOST, i) in m.ptes && m.ptes[At(HOST, i)].page in m.pages
                && m.pages[m.ptes[At(HOST, i)].page].state == Converted
      {
        assert GivenUp(m, o, i);
      }
    }
  }

  lemma GivenUpAt(m: Mem, from: nat, n: nat, vers: Versions, i: nat)
    requires MemInv(m) && Fresh(m, vers) && Unlocked(m) && from <= i < from + Wrapped(n)
    requires GetConvertedPages(m, HOST, from, n, vers[HOST].min).Done?
    requires GiveUp(GetConvertedPages(m, HOST, from, n, vers[HOST].min).mem, from, Wrapped(n)).Failed?
    ensures GivenUp(m, GiveUp(GetConvertedPages(m, HOST, from, n, vers[HOST].min).mem, from, Wrapped(n)).mem, i)
  {
    hide MemInv, Good, Locked, Wrapped, AllLockable, At, GetConvertedPages;
    var m1 := GetConvertedPages(m, HOST, from, n, vers[HOST].min).mem;
    assert from + (i - from) == i;
    LockedPages(m, from, n, vers, i - from);
    GiveUpReady(m1, from, Wrapped(n), vers);
    UnlockedAt(m1, from, Wrapped(n), vers, i - from);
  }

  /** Pages that the range does not name are as they were, and so is everything but the records of pages. */
  lemma GivenUpElse(m: Mem, from: nat, n: nat, vers: Versions)
    requires MemInv(m) && Fresh(m, vers) && Unlocked(m) && GetConvertedPages(m, HOST, from, n, vers[HOST].min).Done?
    requires GiveUp(GetConvertedPages(m, HOST, from, n, vers[HOST].min).mem, from, Wrapped(n)).Failed?
    ensures var o := GiveUp(GetConvertedPages(m, HOST, from, n, vers[HOST].min).mem, from, Wrapped(n)).mem;
            && o == m.(pages := o.pages) && o.pages.Keys == m.pages.Keys
            && (forall p | p in m.pages && !NamedIn(m, from, Wrapped(n), p) :: o.pages[p] == m.pages[p])
  {
    hide MemInv, Good, Range, Wrapped, At, Locked;
    var w, k := Lock(HOST, vers[HOST].min), Wrapped(n);
    var m1 := GetConvertedPages(m, HOST, from, n, vers[HOST].min).mem;
    OnlyPages(m, w, from, k);
    OnlyPages(m1, Unlock, from, k);
    forall i | from <= i < from + k ensures At(HOST, i) in m.ptes {
      assert Lockable(m, At(HOST, i), vers[HOST].min);
    }
    var o := Range(m1, Unlock, from, k).value;
    forall p | p in m.pages && !NamedIn(m, from, k, p) ensures o.pages[p] == m.pages[p] {
      OtherPageKept(m, w, from, k, vers, p);
      OtherPageKept(m1, Unlock, from, k, vers, p);
    }
  }

  lemma {:induction false} OtherPageKept(m: Mem, w: Work, g: nat, n: nat, vers: Versions, p: nat)
    requires (w == Unlock || (w.Lock? && w.vm == HOST)) && Range(m, w, g, n).Some? && p in m.pages
    requires forall i | g <= i < g + n :: At(HOST, i) in m.ptes && m.ptes[At(HOST, i)].page != p
    ensures Get(Range(m, w, g, n).value.pages, p) == Get(m.pages, p)
    decreases n
  {
    hide At;
    if n > 0 {
      assert At(HOST, g) in m.ptes;
      OtherPageKept(One(m, w, g).value, w, g + 1, n - 1, vers, p);
    }
  }

  /** Adds pages for the guest's own state. `accepted` says whether they suited their purpose (contiguous,
      aligned). */
  function AddInternalPages(m: Mem, guest: OwnerId, from: nat, n: nat, accepted: bool, min: nat): (c: Call) {
    match GetConvertedPages(m, HOST, from, n, min)
    case Done(m1) =>
      if guest == HOST || guest !in m1.vms || !accepted then GiveUp(m1, from, Wrapped(n))
      else Finish(Range(m1, AssignInternal(guest), from, Wrapped(n)))
    case other => other
  }

  /** The call panics exactly if it comes to lock a page twice. */
  lemma AddInternalPagesSound(m: Mem, guest: OwnerId, from: nat, n: nat, accepted: bool, vers: Versions)
    requires MemInv(m) && Fresh(m, vers) && Unlocked(m)
    ensures Careful(m, AddInternalPages(m, guest, from, n, accepted, vers[HOST].min), vers)
    ensures AddInternalPages(m, guest, from, n, accepted, vers[HOST].min).Panic? <==>
            LocksTwice(m, HOST, from, n, vers[HOST].min)
  {
    hide MemInv, Good, Locked, LocksTwice, Range, Wrapped, GiveUp;
    Nothing(m, vers);
    GetConvertedPagesGood(m, HOST, from, n, vers);
    var k, c := Wrapped(n), GetConvertedPages(m, HOST, from, n, vers[HOST].min);
    if c.Done? {
      var m1 := c.mem;
      if guest == HOST || guest !in m1.vms || !accepted {
        GiveUpSound(m, m1, from, k, vers);
      } else {
        var w := AssignInternal(guest);
        GoodIs(m, m1, vers);
        InternalReady(m1, guest, from, k, vers);
        RangeGood(m1, w, from, k, vers);
        RangeUnlocked(m1, w, from, k, vers);
        GoodTrans(m, m1, Range(m1, w, from, k).value, vers);
      }
    }
  }

  lemma InternalReady(m1: Mem, guest: OwnerId, from: nat, n: nat, vers: Versions)
    requires n <= LIMIT && guest != HOST && guest in m1.vms && forall i | from <= i < from + n ::
             Locked(m1, At(HOST, i))
    ensures AllReady(m1, AssignInternal(guest), from, n, vers)
  {
    hide Locked;
  }

  /** The page holds the guest's state; the host keeps an invalid entry for it, and the guest has none. */
  lemma AddInternalPagesDoes(m: Mem, guest: OwnerId, from: nat, n: nat, accepted: bool, vers: Versions, j: nat)
    requires MemInv(m) && Fresh(m, vers) && Unlocked(m) && j < Wrapped(n)
    requires AddInternalPages(m, guest, from, n, accepted, vers[HOST].min).Done?
    ensures var o := AddInternalPages(m, guest, from, n, accepted, vers[HOST].min).mem;
            && At(HOST, from + j) in m.ptes
            && var p := m.ptes[At(HOST, from + j)].page;
               && Get(o.ptes, At(HOST, from + j)) == Some(Invalidated(p))
               && Get(o.pages, p) == Some(Info(Ram, VmState, [HOST, guest]))
  {
    hide MemInv, Good, Locked, Range, Wrapped, GetConvertedPages;
    var m1 := GetConvertedPages(m, HOST, from, n, vers[HOST].min).mem;
    LockedPages(m, from, n, vers, j);
    InternalReady(m1, guest, from, Wrapped(n), vers);
    InternalAt(m1, guest, from, Wrapped(n), vers, j);
  }

  lemma InternalAt(m1: Mem, guest: OwnerId, from: nat, n: nat, vers: Versions, j: nat)
    requires MemInv(m1) && Fresh(m1, vers) && AllReady(m1, AssignInternal(guest), from, n, vers) && j < n
    requires Locked(m1, At(HOST, from + j)) && guest != HOST
    ensures Range(m1, AssignInternal(guest), from, n).Some?
    ensures var o := Range(m1, AssignInternal(guest), from, n).value;
            var p := m1.ptes[At(HOST, from + j)].page;
            Get(o.ptes, At(HOST, from + j)) == Some(Invalidated(p))
              && Get(o.pages, p) == Some(Info(Ram, VmState, [HOST, guest]))
  {
    hide MemInv, Good, AllReady, At;
    var w := AssignInternal(guest);
    RangeAt(m1, w, from, n, vers, from + j);
    var a, b := SlotAt(Range(m1, w, from, n).value, w, from + j), SlotAt(One(m1, w, from + j).value, w, from + j);
    assert a.src == b.src && a.page == b.page;
    assert [HOST] + [guest] == [HOST, guest];
  }

  predicate AllShareable(m: Mem, vm: OwnerId, g: nat, n: nat) {
    forall i | g <= i < g + n :: Shareable(m, At(vm, i))
  }

  /** Lends pages of the host to a guest, without giving them up. */
  function AddSharedPages(m: Mem, guest: OwnerId, from: nat, to: nat, n: nat, tables: bool): (c: Call) {
    if n == 0 || guest == HOST || !tables || !InSpace(from, n) || !AllShareable(m, HOST, from, Wrapped(n))
       || !AllMappable(m, guest, to, n, SharedRegion) then Failed(m)
    else Finish(Range(m, ShareTo(guest, from, to), from, Wrapped(n)))
  }

  lemma ShareReady(m: Mem, guest: OwnerId, from: nat, to: nat, n: nat, vers: Versions)
    requires MemInv(m) && guest != HOST && AllShareable(m, HOST, from, Wrapped(n))
             && AllMappable(m, guest, to, n, SharedRegion)
    ensures Wrapped(n) == n && AllReady(m, ShareTo(guest, from, to), from, n, vers)
  {
    hide MemInv, Shareable, At;
    MappableBelow(m, guest, to, n, SharedRegion);
    forall i | from <= i < from + n ensures Ready(m, ShareTo(guest, from, to), i, vers) {
      assert Mappable(m, Key(guest, to + (i - from)), SharedRegion) && Shareable(m, At(HOST, i));
    }
  }

  lemma AddSharedPagesSound(m: Mem, guest: OwnerId, from: nat, to: nat, n: nat, tables: bool, vers: Versions)
    requires MemInv(m) && Fresh(m, vers) && Unlocked(m)
    ensures Sound(m, AddSharedPages(m, guest, from, to, n, tables), vers)
  {
    hide MemInv, Good, AllShareable, AllMappable, Wrapped, Range;
    Nothing(m, vers);
    if AddSharedPages(m, guest, from, to, n, tables) != Failed(m) {
      var w := ShareTo(guest, from, to);
      ShareReady(m, guest, from, to, n, vers);
      RangeGood(m, w, from, n, vers);
      RangeUnlocked(m, w, from, n, vers);
    }
  }

  lemma AddSharedPagesDoes(m: Mem, guest: OwnerId, from: nat, to: nat, n: nat, tables: bool, vers: Versions, j: nat)
    requires MemInv(m) && Fresh(m, vers) && j < n && AddSharedPages(m, guest, from, to, n, tables).Done?
    ensures var o := AddSharedPages(m, guest, from, to, n, tables).mem;
            && At(HOST, from + j) in m.ptes && m.ptes[At(HOST, from + j)].page in m.pages
            && var p := m.ptes[At(HOST, from + j)].page;
               && Get(o.ptes, Key(guest, to + j)) == Some(Leaf(p))
               && Get(o.ptes, At(HOST, from + j)) == Some(Leaf(p))
               && Get(o.pages, p) == Some(m.pages[p].(state := Shared(RefCount(m.pages[p].state) + 1)))
  {
    hide MemInv, Good, AllMappable, Wrapped, At;
    var w := ShareTo(guest, from, to);
    ShareReady(m, guest, from, to, n, vers);
    assert Ready(m, w, from + j, vers);
    RangeAt(m, w, from, n, vers, from + j);
    var a, b := SlotAt(Range(m, w, from, n).value, w, from + j), SlotAt(One(m, w, from + j).value, w, from + j);
    assert a.src == b.src && a.dst == b.dst && a.page == b.page;
  }

  /* ---------------- pins ---------------- */

  predicate Contiguous(m: Mem, vm: OwnerId, g: nat, n: nat)
    requires AllShareable(m, vm, g, n)
  {
    forall i | g <= i < g + n - 1 :: PageAfter(m, vm, i)
  }

  predicate PageAfter(m: Mem, vm: OwnerId, i: nat) {
    && At(vm, i) in m.ptes && At(vm, i + 1) in m.ptes
    && m.ptes[At(vm, i + 1)].page == m.ptes[At(vm, i)].page + 1
  }

  /** Pins the pages of the range for the hypervisor; they have to be physically contiguous. The page they start
      with is taken to exist. */
  function PinPages(m: Mem, vm: OwnerId, g: nat, n: nat): (c: Call) {
    if n == 0 || !InSpace(g, n) || !AllShareable(m, vm, g, Wrapped(n))
       || !Contiguous(m, vm, g, Wrapped(n)) then Failed(m)
    else if Wrapped(n) == 0 then Panic
    else Finish(Range(m, Pin(vm), g, Wrapped(n)))
  }

  lemma {:induction false} CountsUp(m: Mem, vm: OwnerId, g: nat, n: nat, j: nat)
    requires AllShareable(m, vm, g, n) && Contiguous(m, vm, g, n) && j < n
    ensures At(vm, g) in m.ptes && At(vm, g + j) in m.ptes && m.ptes[At(vm, g + j)].page == m.ptes[At(vm, g)].page + j
    decreases j
  {
    hide At;
    if j == 0 {
      assert g + j == g && Shareable(m, At(vm, g));
    } else {
      CountsUp(m, vm, g, n, j - 1);
      assert PageAfter(m, vm, g + j - 1);
    }
  }

  /** No range in which entries repeat is physically contiguous. */
  lemma PinReady(m: Mem, vm: OwnerId, g: nat, n: nat, vers: Versions)
    requires AllShareable(m, vm, g, n) && Contiguous(m, vm, g, n)
    ensures n <= LIMIT && AllReady(m, Pin(vm), g, n, vers)
  {
    hide Shareable, Contiguous;
    if n > LIMIT {
      AtRepeats(vm, g);
      CountsUp(m, vm, g, n, LIMIT);
    }
    forall i | g <= i < g + n ensures Ready(m, Pin(vm), i, vers) {
      assert Shareable(m, At(vm, i));
    }
  }

  /** The call panics exactly if the count is a multiple of 2^52, for which there is no first page. */
  lemma PinPagesSound(m: Mem, vm: OwnerId, g: nat, n: nat, vers: Versions)
    requires MemInv(m) && Fresh(m, vers) && Unlocked(m)
    ensures Careful(m, PinPages(m, vm, g, n), vers)
    ensures PinPages(m, vm, g, n).Panic? <==> n > 0 && n % PAGE_LIMIT == 0 && g < PAGE_LIMIT
  {
    hide MemInv, Good, Range, Contiguous;
    Nothing(m, vers);
    var k := Wrapped(n);
    if k > 0 && AllShareable(m, vm, g, k) && Contiguous(m, vm, g, k) {
      PinReady(m, vm, g, k, vers);
      RangeGood(m, Pin(vm), g, k, vers);
      RangeUnlocked(m, Pin(vm), g, k, vers);
    }
    if k == 0 { assert Contiguous(m, vm, g, 0) by { NoneContiguous(m, vm, g); } }
  }

  lemma NoneContiguous(m: Mem, vm: OwnerId, g: nat)
    ensures AllShareable(m, vm, g, 0) && Contiguous(m, vm, g, 0)
  {
  }

  function PagesOf(m: Mem, vm: OwnerId, g: nat, n: nat): (s: seq<nat>)
    requires forall i | g <= i < g + n :: At(vm, i) in m.ptes
    decreases n
  {
    if n == 0 then [] else [m.ptes[At(vm, g)].page] + PagesOf(m, vm, g + 1, n - 1)
  }

  lemma PinAdded(m: Mem, vm: OwnerId, g: nat)
    requires One(m, Pin(vm), g).Some?
    ensures var o := One(m, Pin(vm), g).value;
            At(vm, g) in m.ptes && o.ptes == m.ptes && o.regions == m.regions
              && o.pins == m.pins + multiset{m.ptes[At(vm, g)].page}
  {
    hide At;
  }

  lemma {:induction false} PinsAdded(m: Mem, vm: OwnerId, g: nat, n: nat)
    requires Range(m, Pin(vm), g, n).Some? && forall i | g <= i < g + n :: At(vm, i) in m.ptes
    ensures var o := Range(m, Pin(vm), g, n).value;
            o.ptes == m.ptes && o.regions == m.regions && o.pins == m.pins + multiset(PagesOf(m, vm, g, n))
    decreases n
  {
    hide At, One;
    if n > 0 {
      var m1 := One(m, Pin(vm), g).value;
      PinAdded(m, vm, g);
      PinsAdded(m1, vm, g + 1, n - 1);
      SamePages(m, m1, vm, g + 1, n - 1);
      var p, rest := m.ptes[At(vm, g)].page, PagesOf(m, vm, g + 1, n - 1);
      assert multiset([p] + rest) == multiset{p} + multiset(rest);
    }
  }

  lemma {:induction false} SamePages(m: Mem, o: Mem, vm: OwnerId, g: nat, n: nat)
    requires o.ptes == m.ptes && forall i | g <= i < g + n :: At(vm, i) in m.ptes
    ensures PagesOf(o, vm, g, n) == PagesOf(m, vm, g, n)
    decreases n
  {
    hide At;
    if n > 0 { SamePages(m, o, vm, g + 1, n - 1); }
  }

  /** Every page of the range, as long as the count modulo 2^52 says, has one more pin and one more reference; entries
      and regions stay. */
  lemma PinPagesDoes(m: Mem, vm: OwnerId, g: nat, n: nat, vers: Versions, j: nat)
    requires MemInv(m) && Fresh(m, vers) && g <= j < g + Wrapped(n) && PinPages(m, vm, g, n).Done?
    ensures forall i | g <= i < g + Wrapped(n) :: At(vm, i) in m.ptes
    ensures var o := PinPages(m, vm, g, n).mem;
            var p := m.ptes[At(vm, j)].page;
            && o.ptes == m.ptes && o.regions == m.regions && o.pins == m.pins + multiset(PagesOf(m, vm, g, Wrapped(n)))
            && p in m.pages && Get(o.pages, p) == Some(m.pages[p].(state := Shared(RefCount(m.pages[p].state) + 1)))
  {
    hide MemInv, Range, One, Wrapped, At, Contiguous;
    var k := Wrapped(n);
    PinReady(m, vm, g, k, vers);
    forall i | g <= i < g + k ensures At(vm, i) in m.ptes {
      assert Shareable(m, At(vm, i));
    }
    PinsAdded(m, vm, g, k);
    PinnedAt(m, vm, g, k, vers, j);
  }

  lemma PinnedAt(m: Mem, vm: OwnerId, g: nat, n: nat, vers: Versions, j: nat)
    requires MemInv(m) && Fresh(m, vers) && AllReady(m, Pin(vm), g, n, vers) && g <= j < g + n
             && Shareable(m, At(vm, j))
    ensures Range(m, Pin(vm), g, n).Some?
    ensures var p := m.ptes[At(vm, j)].page;
            p in m.pages && Get(Range(m, Pin(vm), g, n).value.pages, p) ==
              Some(m.pages[p].(state := Shared(RefCount(m.pages[p].state) + 1)))
  {
    hide MemInv, AllReady, At;
    RangeAt(m, Pin(vm), g, n, vers, j);
    var a, b := SlotAt(Range(m, Pin(vm), g, n).value, Pin(vm), j), SlotAt(One(m, Pin(vm), j).value, Pin(vm), j);
    assert a.src == b.src && a.page == b.page;
  }

  /** Drops a pin that is held on page `p`. */
  function UnpinPage(m: Mem, p: nat, owner: OwnerId): (c: Call) {
    if p !in m.pins then Failed(m) else Finish(UnpinOne(m, p, owner))
  }

  /** Dropping a pin undoes taking it. */
  lemma PinThenUnpin(m: Mem, vm: OwnerId, g: nat)
    requires MemInv(m) && PinPages(m, vm, g, 1).Done?
    ensures At(vm, g) in m.ptes
    ensures UnpinPage(PinPages(m, vm, g, 1).mem, m.ptes[At(vm, g)].page, vm) == Done(m)
  {
    hide MemInv, At;
    assert Shareable(m, At(vm, g));
    var p := m.ptes[At(vm, g)].page;
    PageAt(m, p);
    var o := One(m, Pin(vm), g).value;
    assert Range(m, Pin(vm), g, 1) == Range(o, Pin(vm), g + 1, 0) == Some(o);
    var i := SharePage(m.pages[p], vm).value;
    assert ReleaseBy(i, vm) == Ok(m.pages[p]);
    assert m.pages[p := i][p := m.pages[p]] == m.pages && m.pins + multiset{p} - multiset{p} == m.pins;
  }

  lemma UnpinPageSound(m: Mem, p: nat, owner: OwnerId, vers: Versions)
    requires MemInv(m) && Fresh(m, vers) && Unlocked(m)
    ensures Sound(m, UnpinPage(m, p, owner), vers)
  {
    hide MemInv, Good;
    Nothing(m, vers);
    if p in m.pins {
      UnpinOneGood(m, p, owner, vers);
    }
  }
}
