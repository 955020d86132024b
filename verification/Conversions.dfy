/** A guest's conversion of its memory between confidential and shared, in two phases: the begin call takes
    the pages away from the page table, and the rest is done once no vCPU can have them in its TLB. */
module Conversions {
  import opened Basics
  import opened PageInfos
  import opened Memory
  import opened MemorySteps
  import opened MemoryRanges
  import opened Hypercalls

  /** Some guest page of the range holds a page. */
  predicate Populated(m: Mem, vm: OwnerId, g: nat, n: nat) {
    exists i | g <= i < g + n :: Key(vm, i) in m.ptes
  }

  /** share_mem_region_begin; `room` says whether the region list can take the update. */
  function ShareBegin(m: Mem, vm: OwnerId, g: nat, n: nat, cur: nat, room: bool): (c: Call) {
    if vm == HOST || !room || !(forall i | g <= i < g + n :: Withdrawable(m, Key(vm, i))) then Failed(m)
    else Finish(Range(m, Withdraw(vm, cur, if Populated(m, vm, g, n) then Sharing(cur) else SharedRegion), g, n))
  }

  /** unshare_mem_region_begin. */
  function UnshareBegin(m: Mem, vm: OwnerId, g: nat, n: nat, cur: nat, room: bool): (c: Call) {
    if vm == HOST || !room || !(forall i | g <= i < g + n :: Returnable(m, Key(vm, i))) then Failed(m)
    else Finish(Range(m, Return(vm, if Populated(m, vm, g, n) then Unsharing(cur) else Confidential), g, n))
  }

  /** The TLB version that both calls return: the caller is blocked until the oldest version reaches it. */
  function WaitFor(m: Mem, vm: OwnerId, g: nat, n: nat, win: Window): (v: nat) {
    if Populated(m, vm, g, n) then win.cur + 1 else win.min
  }

  lemma RegionsBelow(m: Mem, vm: OwnerId, g: nat, n: nat)
    requires MemInv(m) && forall i | g <= i < g + n :: Key(vm, i) in m.regions
    ensures n <= LIMIT
  {
    if n > 0 { assert Key(vm, g + n - 1) in m.regions; }
  }

  lemma ShareBeginSound(m: Mem, vm: OwnerId, g: nat, n: nat, room: bool, vers: Versions)
    requires MemInv(m) && Fresh(m, vers) && Unlocked(m) && vm in vers && vers[vm].min <= vers[vm].cur
    ensures Sound(m, ShareBegin(m, vm, g, n, vers[vm].cur, room), vers)
  {
    hide MemInv, Good;
    Nothing(m, vers);
    var cur := vers[vm].cur;
    if ShareBegin(m, vm, g, n, cur, room) != Failed(m) {
      var w := Withdraw(vm, cur, if Populated(m, vm, g, n) then Sharing(cur) else SharedRegion);
      RegionsBelow(m, vm, g, n);
      assert AllReady(m, w, g, n, vers);
      RangeGood(m, w, g, n, vers);
      RangeUnlocked(m, w, g, n, vers);
    }
  }

  lemma UnshareBeginSound(m: Mem, vm: OwnerId, g: nat, n: nat, room: bool, vers: Versions)
    requires MemInv(m) && Fresh(m, vers) && Unlocked(m) && vm in vers && vers[vm].min <= vers[vm].cur
    ensures Sound(m, UnshareBegin(m, vm, g, n, vers[vm].cur, room), vers)
  {
    hide MemInv, Good;
    Nothing(m, vers);
    var cur := vers[vm].cur;
    if UnshareBegin(m, vm, g, n, cur, room) != Failed(m) {
      var w := Return(vm, if Populated(m, vm, g, n) then Unsharing(cur) else Confidential);
      RegionsBelow(m, vm, g, n);
      assert AllReady(m, w, g, n, vers);
      RangeGood(m, w, g, n, vers);
      RangeUnlocked(m, w, g, n, vers);
    }
  }

  /** A page of the range is on its way back to the host, at the version for which the caller waits; a
      guest page without a page is shared at once, unless it has to wait for one that is not. */
  lemma ShareBeginDoes(m: Mem, vm: OwnerId, g: nat, n: nat, room: bool, vers: Versions, j: nat)
    requires MemInv(m) && Fresh(m, vers) && vm in vers && vers[vm].min <= vers[vm].cur && g <= j < g + n
    requires ShareBegin(m, vm, g, n, vers[vm].cur, room).Done?
    ensures var o := ShareBegin(m, vm, g, n, vers[vm].cur, room).mem;
            var k := Key(vm, j);
            && (if Populated(m, vm, g, n) then
                  && Get(o.regions, k) == Some(Sharing(vers[vm].cur))
                  && WaitFor(m, vm, g, n, vers[vm]) == vers[vm].cur + 1
                else Get(o.regions, k) == Some(SharedRegion))
            && (if k in m.ptes then
                  && Get(o.ptes, k) == Some(Invalidated(m.ptes[k].page))
                  && Get(o.pages, m.ptes[k].page) == Some(Info(Ram, Unassigning(vers[vm].cur), [HOST, vm]))
                else Get(o.ptes, k) == None)
  {
    hide MemInv;
    var cur, k := vers[vm].cur, Key(vm, j);
    var w := Withdraw(vm, cur, if Populated(m, vm, g, n) then Sharing(cur) else SharedRegion);
    RegionsBelow(m, vm, g, n);
    assert AllReady(m, w, g, n, vers);
    assert Withdrawable(m, k);
    RangeAt(m, w, g, n, vers, j);
    var a, b := SlotAt(Range(m, w, g, n).value, w, j), SlotAt(One(m, w, j).value, w, j);
    assert a.src == b.src && a.region == b.region && a.page == b.page;
    if k in m.ptes {
      EntryAt(m, k);
      assert m.pages[m.ptes[k].page].owners == [HOST, vm];
    }
  }

  /** The entry becomes invalid, and the page itself is left alone: the guest's reference to it stays
      counted. */
  lemma UnshareBeginDoes(m: Mem, vm: OwnerId, g: nat, n: nat, room: bool, vers: Versions, j: nat)
    requires MemInv(m) && Fresh(m, vers) && vm in vers && vers[vm].min <= vers[vm].cur && g <= j < g + n
    requires UnshareBegin(m, vm, g, n, vers[vm].cur, room).Done?
    ensures var o := UnshareBegin(m, vm, g, n, vers[vm].cur, room).mem;
            var k := Key(vm, j);
            && (if Populated(m, vm, g, n) then Get(o.regions, k) == Some(Unsharing(vers[vm].cur))
                else Get(o.regions, k) == Some(Confidential))
            && (if k in m.ptes then
                  && Get(o.ptes, k) == Some(Invalidated(m.ptes[k].page))
                  && Get(o.pages, m.ptes[k].page) == Get(m.pages, m.ptes[k].page)
                else Get(o.ptes, k) == None)
  {
    hide MemInv;
    var cur, k := vers[vm].cur, Key(vm, j);
    var w := Return(vm, if Populated(m, vm, g, n) then Unsharing(cur) else Confidential);
    RegionsBelow(m, vm, g, n);
    assert AllReady(m, w, g, n, vers);
    assert Returnable(m, k);
    RangeAt(m, w, g, n, vers, j);
    var a, b := SlotAt(Range(m, w, g, n).value, w, j), SlotAt(One(m, w, j).value, w, j);
    assert a.src == b.src && a.region == b.region && a.page == b.page;
  }

  /* ---------------- completion ---------------- */

  /** The guest pages of `vm` whose conversion is due. */
  ghost function Due(m: Mem, vm: OwnerId, min: nat): (s: set<Key>) {
    set k | k in m.regions && k.vm == vm && Overdue(m, k, min)
  }

  function NewType(r: RegionType): (s: RegionType) {
    if r.Sharing? then SharedRegion else Confidential
  }

  /** What completing the conversion of one guest page does, and what it leaves alone. */
  lemma CompleteOneDoes(m: Mem, k: Key, min: nat)
    requires MemInv(m) && Overdue(m, k, min) && CompleteOne(m, k, min).Some?
    ensures var n := CompleteOne(m, k, min).value;
            && n.vms == m.vms && n.pins == m.pins && n.pages.Keys == m.pages.Keys
            && n.regions == m.regions[k := NewType(m.regions[k])]
            && n.ptes == m.ptes - {k}
            && (Unlocked(m) ==> Unlocked(n))
            && (forall p | p in m.pages && (k in m.ptes ==> m.ptes[k].page != p) :: n.pages[p] == m.pages[p])
            && (k in m.ptes && m.regions[k].Sharing? ==> n.pages[m.ptes[k].page] == Info(Ram, Converted, [HOST]))
            && (k in m.ptes && m.regions[k].Unsharing? ==> n.pages[m.ptes[k].page].owners == [HOST])
  {
    hide MemInv;
    if k in m.ptes {
      EntryAt(m, k);
      CompletionCheckPasses(m, k, min);
      var p := m.ptes[k].page;
      assert m.pins[p := m.pins[p]] == m.pins;
      assert |m.pages[p].owners| == 2 ==> m.pages[p].owners[..1] == [HOST];
    } else {
      assert m.ptes - {k} == m.ptes;
    }
  }

  /** complete_pending_unassignment, restricted to `todo`: a conversion whose check fails stays pending; one
      whose check succeeds is completed. */
  ghost function CompleteThese(m: Mem, todo: set<Key>, min: nat): (r: Option<Mem>)
    decreases |todo|
  {
    if todo == {} then Some(m)
    else
      var k :| k in todo;
      if !Overdue(m, k, min) || !CanComplete(m, k, min) then CompleteThese(m, todo - {k}, min)
      else match CompleteOne(m, k, min)
        case None => None
        case Some(n) => CompleteThese(n, todo - {k}, min)
  }

  ghost function Complete(m: Mem, vm: OwnerId, min: nat): (r: Option<Mem>) {
    CompleteThese(m, Due(m, vm, min), min)
  }

  ghost predicate NamedBy(m: Mem, s: set<Key>, p: nat) {
    exists k | k in s :: k in m.ptes && m.ptes[k].page == p
  }

  /** The memory `n` is `m` with the conversions of `done` completed: a page that the guest gave up is the
      host's again, ready to be used elsewhere, and no page that was not involved has changed. */
  ghost predicate Completed(m: Mem, n: Mem, done: set<Key>) {
    && n.vms == m.vms && n.pins == m.pins && n.pages.Keys == m.pages.Keys
    && n.regions.Keys == m.regions.Keys
    && (forall k | k in m.regions :: n.regions[k] == if k in done then NewType(m.regions[k]) else m.regions[k])
    && n.ptes == m.ptes - done
    && (forall k | k in done && k in m.ptes && k in m.regions && m.regions[k].Sharing? ::
          Get(n.pages, m.ptes[k].page) == Some(Info(Ram, Converted, [HOST])))
    && (forall p | p in m.pages && !NamedBy(m, done, p) :: n.pages[p] == m.pages[p])
  }

  lemma NotConverted(m: Mem, k: Key)
    requires MemInv(m) && k in m.ptes && k.vm != HOST
    ensures m.ptes[k].page in m.pages && !m.pages[m.ptes[k].page].state.Converted?
  {
  }

  /** A page that a completion made Converted is named by no other entry of the VM. */
  lemma ConvertedNotNamed(n: Mem, rest: set<Key>, vm: OwnerId, p: nat)
    requires MemInv(n) && vm != HOST && (forall l | l in rest :: l.vm == vm)
    requires p in n.pages && n.pages[p].state.Converted?
    ensures !NamedBy(n, rest, p)
  {
    hide MemInv;
    forall l | l in rest && l in n.ptes ensures n.ptes[l].page != p {
      NotConverted(n, l);
    }
  }

  /** One completion, followed by others. */
  lemma CompletedTrans(m: Mem, k: Key, n: Mem, rest: set<Key>, o: Mem, min: nat)
    requires MemInv(m) && Overdue(m, k, min) && CompleteOne(m, k, min) == Some(n) && MemInv(n)
    requires k !in rest && (forall l | l in rest :: l.vm == k.vm) && Completed(n, o, rest)
    ensures Completed(m, o, rest + {k})
  {
    hide MemInv, CompleteOne, NamedBy;
    CompleteOneDoes(m, k, min);
    assert m.ptes - {k} - rest == m.ptes - (rest + {k});
    forall p | p in m.pages && !NamedBy(m, rest + {k}, p) ensures o.pages[p] == m.pages[p] {
      NamedLater(m, k, n, rest, p);
    }
    if k in m.ptes && m.regions[k].Sharing? {
      EntryAt(m, k);
      ConvertedNotNamed(n, rest, k.vm, m.ptes[k].page);
    }
  }

  lemma NamedLater(m: Mem, k: Key, n: Mem, rest: set<Key>, p: nat)
    requires n.ptes == m.ptes - {k} && !NamedBy(m, rest + {k}, p)
    ensures !NamedBy(n, rest, p) && (k in m.ptes ==> m.ptes[k].page != p)
  {
    assert k in rest + {k};
  }

  /** Whatever was due is completed: no check fails, no `unwrap` meets an error, and nothing that a vCPU at
      version `min` or later may have cached is taken away. */
  lemma {:induction false} CompleteTheseKeeps(m: Mem, vm: OwnerId, todo: set<Key>, vers: Versions)
    requires MemInv(m) && Unlocked(m) && vm in vers && todo <= Due(m, vm, vers[vm].min)
    ensures CompleteThese(m, todo, vers[vm].min).Some?
    ensures var n := CompleteThese(m, todo, vers[vm].min).value;
            MemInv(n) && Stable(m, n, vers) && Unlocked(n) && Completed(m, n, todo)
    decreases |todo|
  {
    hide MemInv, Stable, CanComplete, CompleteOne, Completed;
    var min := vers[vm].min;
    if todo == {} {
      StableSelf(m, vers);
      NothingCompleted(m);
    } else {
      var k :| k in todo && CompleteThese(m, todo, min) ==
        (if !Overdue(m, k, min) || !CanComplete(m, k, min) then CompleteThese(m, todo - {k}, min)
         else match CompleteOne(m, k, min)
           case None => None
           case Some(n) => CompleteThese(n, todo - {k}, min));
      assert k in Due(m, vm, min);
      CompletionCheckPasses(m, k, min);
      CompleteOneKeeps(m, k, vers);
      CompleteOneDoes(m, k, min);
      var n := CompleteOne(m, k, min).value;
      forall l | l in todo - {k} ensures l in Due(n, vm, min) {
        assert l in Due(m, vm, min);
      }
      CompleteTheseKeeps(n, vm, todo - {k}, vers);
      var o := CompleteThese(n, todo - {k}, min).value;
      StableTrans(m, n, o, vers);
      CompletedTrans(m, k, n, todo - {k}, o, min);
      assert todo - {k} + {k} == todo;
    }
  }

  lemma NothingCompleted(m: Mem)
    ensures Completed(m, m, {})
  {
    assert m.ptes - {} == m.ptes;
  }

  lemma StableSelf(m: Mem, vers: Versions)
    ensures Stable(m, m, vers)
  {
  }

  lemma StableTrans(m: Mem, n: Mem, o: Mem, vers: Versions)
    requires Stable(m, n, vers) && Stable(n, o, vers)
    ensures Stable(m, o, vers)
  {
  }

  /** When the oldest version in use rises, completion restores freshness: after it, no conversion that
      began before that version is pending. */
  lemma CompleteRestores(m: Mem, vm: OwnerId, was: Versions, now: Versions)
    requires MemInv(m) && Unlocked(m) && Fresh(m, was) && vm in was
    requires now.Keys == was.Keys && (forall v | v in was && v != vm :: now[v] == was[v])
    ensures Complete(m, vm, now[vm].min).Some?
    ensures var n := Complete(m, vm, now[vm].min).value;
            Good(m, n, now) && Unlocked(n) && Completed(m, n, Due(m, vm, now[vm].min))
  {
    hide MemInv, Stable;
    var min := now[vm].min;
    CompleteTheseKeeps(m, vm, Due(m, vm, min), now);
    var n := Complete(m, vm, min).value;
    forall k | k in n.regions && k.vm in now && (n.regions[k].Sharing? || n.regions[k].Unsharing?)
      ensures now[k.vm].min <= n.regions[k].version
    {
      assert k in m.regions;
      assert k !in Due(m, vm, min);
    }
  }
}
