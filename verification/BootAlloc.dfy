/** The boot-time page allocator: it hands out ranges of free pages in address order, never going back, and at
    the end turns the pages that are still free into one list. `None` stands for a panic. */
module BootAlloc {
  import opened Basics
  import opened PageInfos
  import opened PageMaps

  /** The pages of the machine in address order, their records, and the page to go on from. */
  datatype Boot = Boot(pfns: seq<nat>, infos: seq<Info>, next: Option<nat>)

  predicate IsFree(i: Info) { i.state.Free? }

  /** The position of a page. */
  function IndexOf(pfns: seq<nat>, a: nat): (r: Option<nat>)
    ensures r.Some? ==> r.value < |pfns| && pfns[r.value] == a
    ensures r.None? ==> a !in pfns
  {
    if pfns == [] then None
    else if pfns[0] == a then Some(0)
    else match IndexOf(pfns[1..], a) case None => None case Some(i) => Some(i + 1)
  }

  /** Page `a` is there and free. */
  predicate FreePage(b: Boot, a: nat) {
    exists i | 0 <= i < |b.pfns| && i < |b.infos| :: b.pfns[i] == a && IsFree(b.infos[i])
  }

  /** The first free record from `i` on. */
  function FirstFree(infos: seq<Info>, i: nat): (r: Option<nat>)
    requires i <= |infos|
    ensures r.Some? ==> i <= r.value < |infos| && IsFree(infos[r.value]) && forall j | i <= j < r.value ::
                        !IsFree(infos[j])
    ensures r.None? ==> forall j | i <= j < |infos| :: !IsFree(infos[j])
    decreases |infos| - i
  {
    if i == |infos| then None else if IsFree(infos[i]) then Some(i) else FirstFree(infos, i + 1)
  }

  /** next_free_page: there is none if the page to start from is not in memory. */
  function NextFree(pfns: seq<nat>, infos: seq<Info>, a: nat): (r: Option<nat>)
    requires |infos| == |pfns|
  {
    match IndexOf(pfns, a)
    case None => None
    case Some(i) => match FirstFree(infos, i) case None => None case Some(j) => Some(pfns[j])
  }

  predicate RangeFree(b: Boot, a: nat, count: nat) {
    forall x | a <= x < a + count :: FreePage(b, x)
  }

  /** The first page from record `i` on that starts a free range with the right alignment. */
  function FindRange(b: Boot, i: nat, count: nat, align: nat): (r: Option<nat>)
    requires |b.infos| == |b.pfns| && i <= |b.pfns| && align > 0
    ensures r.Some? ==> i <= r.value < |b.pfns| && b.pfns[r.value] % align == 0 && RangeFree(b, b.pfns[r.value], count)
    ensures forall k | i <= k < (if r.Some? then r.value else |b.pfns|) ::
            !(b.pfns[k] % align == 0 && RangeFree(b, b.pfns[k], count))
    decreases |b.pfns| - i
  {
    if i == |b.pfns| then None
    else if b.pfns[i] % align == 0 && RangeFree(b, b.pfns[i], count) then Some(i)
    else FindRange(b, i + 1, count, align)
  }

  /** A free page becomes the hypervisor's. */
  function Taken(i: Info, state: PageState): (r: Info) {
    match Assign(i, HYPERVISOR, state) case Ok(j) => j case Err(_) => i
  }

  /** All free pages from `from` up to `to` become the hypervisor's: those handed out, and those skipped. */
  function Mark(b: Boot, from: nat, to: nat, state: PageState): (infos: seq<Info>)
    requires |b.infos| == |b.pfns|
    ensures |infos| == |b.infos|
  {
    seq(|b.infos|, i requires 0 <= i < |b.infos| =>
      if from <= b.pfns[i] < to && IsFree(b.infos[i]) then Taken(b.infos[i], state) else b.infos[i])
  }

  /** alloc_pages: the allocator afterwards, and the first page of the range. */
  function Alloc(b: Boot, count: nat, align: nat, state: PageState): (r: Option<(Boot, nat)>)
    requires |b.infos| == |b.pfns| && align > 0
  {
    if b.next.None? then None
    else match IndexOf(b.pfns, b.next.value)
      case None => None
      case Some(i) =>
        match FindRange(b, i, count, align)
        case None => None
        case Some(j) =>
          var first := b.pfns[j];
          var c := b.(infos := Mark(b, b.next.value, first + count, state));
          Some((c.(next := NextFree(c.pfns, c.infos, first + count)), first))
  }

  /** The records are those of a machine that has just been started, apart from what was taken: no free page
      lies before the page to go on from, which is free itself. */
  predicate Ready(b: Boot) {
    && Ascending(b.pfns) && |b.infos| == |b.pfns|
    && (forall i | 0 <= i < |b.infos| && IsFree(b.infos[i]) :: b.infos[i] == Info(Ram, Free, []))
    && (b.next.Some? ==> FreePage(b, b.next.value) && forall a | FreePage(b, a) :: b.next.value <= a)
  }

  predicate ToHypervisor(state: PageState) { state == ConvertedLocked || state == HypState }

  lemma TakenNotFree(state: PageState)
    requires ToHypervisor(state)
    ensures Taken(Info(Ram, Free, []), state) == Info(Ram, state, [])
  {
  }

  /** The pages handed out are contiguous, aligned and were free; they are free no longer, no other page has
      become free, and what is left to go on from is in order. */
  lemma AllocDoes(b: Boot, count: nat, align: nat, state: PageState)
    requires Ready(b) && align > 0 && ToHypervisor(state) && Alloc(b, count, align, state).Some?
    ensures var (c, first) := Alloc(b, count, align, state).value;
            && Ready(c) && c.pfns == b.pfns
            && first % align == 0
            && (forall a | first <= a < first + count :: FreePage(b, a) && !FreePage(c, a))
            && (forall a | FreePage(c, a) :: FreePage(b, a) && first + count <= a)
  {
    hide FindRange, IndexOf, NextFree, FreePage;
    TakenNotFree(state);
    var (c, first) := Alloc(b, count, align, state).value;
    AllocFree(b, count, align, state);
    assert c.pfns == b.pfns;
    forall i | 0 <= i < |c.infos| && IsFree(c.infos[i]) ensures c.infos[i] == Info(Ram, Free, []) {
    }
    NextFreeIs(c, first + count);
  }

  lemma AllocFree(b: Boot, count: nat, align: nat, state: PageState)
    requires Ready(b) && align > 0 && ToHypervisor(state) && Alloc(b, count, align, state).Some?
    ensures var (c, first) := Alloc(b, count, align, state).value;
            && first % align == 0
            && (forall a | first <= a < first + count :: FreePage(b, a) && !FreePage(c, a))
            && (forall a | FreePage(c, a) :: FreePage(b, a) && first + count <= a)
  {
    TakenNotFree(state);
    var (c, first) := Alloc(b, count, align, state).value;
    var start := b.next.value;
    var i := IndexOf(b.pfns, start).value;
    var j := FindRange(b, i, count, align).value;
    assert start <= first by { assert i <= j; }
    forall a | FreePage(c, a) ensures FreePage(b, a) && first + count <= a {
      var k :| 0 <= k < |c.pfns| && k < |c.infos| && c.pfns[k] == a && IsFree(c.infos[k]);
      assert IsFree(b.infos[k]) && FreePage(b, a) && start <= a;
    }
  }

  /** What becomes of every record: the free pages up to the end of the range, handed out or skipped, get the state
      asked for and no owner, and nothing else changes. */
  lemma AllocRecords(b: Boot, count: nat, align: nat, state: PageState)
    requires Ready(b) && align > 0 && ToHypervisor(state) && Alloc(b, count, align, state).Some?
    ensures var (c, first) := Alloc(b, count, align, state).value;
            && |c.infos| == |b.infos| && |c.pfns| == |c.infos|
            && (forall i | 0 <= i < |b.infos| :: c.infos[i] ==
                  if IsFree(b.infos[i]) && b.pfns[i] < first + count then Info(Ram, state, []) else b.infos[i])
  {
    hide FindRange, IndexOf, NextFree;
    TakenNotFree(state);
    var (c, first) := Alloc(b, count, align, state).value;
    forall i | 0 <= i < |b.infos| && IsFree(b.infos[i]) ensures b.next.value <= b.pfns[i] {
      assert FreePage(b, b.pfns[i]);
    }
  }

  /** A range of free pages that could be handed out. */
  predicate Suits(b: Boot, count: nat, align: nat, a: nat)
    requires align > 0
  {
    b.next.Some? && b.next.value <= a && a in b.pfns && a % align == 0 && RangeFree(b, a, count)
  }

  /** A call is refused only if no range suits it; if not, it hands out the lowest one that does. */
  lemma AllocSomeIff(b: Boot, count: nat, align: nat, state: PageState)
    requires Ready(b) && align > 0
    ensures Alloc(b, count, align, state).Some? <==> exists a :: Suits(b, count, align, a)
    ensures Alloc(b, count, align, state).Some? ==>
              && Suits(b, count, align, Alloc(b, count, align, state).value.1)
              && forall a | Suits(b, count, align, a) :: Alloc(b, count, align, state).value.1 <= a
  {
    hide RangeFree, NextFree, Mark, IndexOf;
    if b.next.Some? {
      var start := b.next.value;
      FreeIsThere(b, start);
      IndexOfIs(b.pfns, start);
      var i := IndexOf(b.pfns, start).value;
      var r := FindRange(b, i, count, align);
      forall a | Suits(b, count, align, a) ensures r.Some? && b.pfns[r.value] <= a {
        var k :| 0 <= k < |b.pfns| && b.pfns[k] == a;
        assert i <= k;
      }
      if r.Some? {
        assert start <= b.pfns[r.value];
        assert Suits(b, count, align, b.pfns[r.value]);
      }
    }
  }

  lemma NextFreeIs(b: Boot, a: nat)
    requires Ascending(b.pfns) && |b.infos| == |b.pfns| && (forall x | FreePage(b, x) :: a <= x)
    ensures var n := NextFree(b.pfns, b.infos, a);
            n.Some? ==> FreePage(b, n.value) && forall x | FreePage(b, x) :: n.value <= x
  {
    var n := NextFree(b.pfns, b.infos, a);
    if n.Some? {
      var i := IndexOf(b.pfns, a).value;
      var j := FirstFree(b.infos, i).value;
      assert FreePage(b, b.pfns[j]);
      forall x | FreePage(b, x) ensures n.value <= x {
        var k :| 0 <= k < |b.pfns| && k < |b.infos| && b.pfns[k] == x && IsFree(b.infos[k]);
        assert i <= k;
      }
    }
  }

  /** Where a call would find its range. */
  function RangeFor(b: Boot, count: nat, align: nat): (r: Option<nat>)
    requires |b.infos| == |b.pfns| && align > 0
  {
    if b.next.None? then None
    else match IndexOf(b.pfns, b.next.value)
      case None => None
      case Some(i) => match FindRange(b, i, count, align) case None => None case Some(j) => Some(b.pfns[j])
  }

  /** After the call pages are free that the allocator has lost sight of. */
  ghost predicate Lost(b: Boot, count: nat, align: nat, state: PageState)
    requires |b.infos| == |b.pfns| && align > 0
  {
    && Alloc(b, count, align, state).Some?
    && var c := Alloc(b, count, align, state).value.0;
       c.next.None? && exists a :: FreePage(c, a)
  }

  /** A call loses sight of free pages if and only if the first range that suits it ends where a chunk of memory
      ends and there is a free page behind it. */
  lemma LosesTrackIff(b: Boot, count: nat, align: nat, state: PageState)
    requires Ready(b) && align > 0 && ToHypervisor(state)
    ensures Lost(b, count, align, state) <==>
            && RangeFor(b, count, align).Some?
            && var end := RangeFor(b, count, align).value + count;
               end !in b.pfns && exists a :: FreePage(b, a) && end <= a
  {
    hide FreePage, FindRange, Mark, IndexOf, NextFree, Ready;
    ReadySize(b);
    if RangeFor(b, count, align).Some? {
      AllocDoes(b, count, align, state);
      var (c, first) := Alloc(b, count, align, state).value;
      forall a | FreePage(b, a) && first + count <= a ensures FreePage(c, a) {
        BehindStaysFree(b, b.next.value, first + count, state, a);
      }
      if a :| FreePage(c, a) {
        NextFreeNoneIff(c, first + count, a);
      }
    }
  }

  lemma BehindStaysFree(b: Boot, from: nat, to: nat, state: PageState, a: nat)
    requires |b.infos| == |b.pfns| && FreePage(b, a) && to <= a
    ensures forall next :: FreePage(b.(infos := Mark(b, from, to, state), next := next), a)
  {
    var k :| 0 <= k < |b.pfns| && k < |b.infos| && b.pfns[k] == a && IsFree(b.infos[k]);
    assert Mark(b, from, to, state)[k] == b.infos[k];
  }

  lemma NextFreeNoneIff(b: Boot, x: nat, a: nat)
    requires Ready(b) && FreePage(b, a) && x <= a
    ensures NextFree(b.pfns, b.infos, x).None? <==> x !in b.pfns
  {
    var k :| 0 <= k < |b.pfns| && k < |b.infos| && b.pfns[k] == a && IsFree(b.infos[k]);
    if x in b.pfns {
      var i := IndexOf(b.pfns, x).value;
      assert i <= k;
    }
  }

  /** With two chunks of memory, taking all of the first leaves the second free and out of sight. */
  lemma SecondChunkLost()
    ensures var b := Boot([1, 2, 5], seq(3, _ => Info(Ram, Free, [])), Some(1)); Ready(b) && Lost(b, 2, 1, HypState)
  {
    var b := Boot([1, 2, 5], seq(3, _ => Info(Ram, Free, [])), Some(1));
    assert FreePage(b, 1) by { assert b.pfns[0] == 1; }
    assert FreePage(b, 2) by { assert b.pfns[1] == 2; }
    assert FreePage(b, 5) by { assert b.pfns[2] == 5; }
    assert RangeFree(b, 1, 2);
    assert FindRange(b, 0, 2, 1) == Some(0);
    assert 3 !in b.pfns;
    LosesTrackIff(b, 2, 1, HypState);
  }

  /* ---------------- Runs ---------------- */

  /** A call that takes pages: for the hypervisor, or for the host by way of it. */
  datatype Take = Take(count: nat, align: nat, state: PageState, forHost: bool)

  predicate TakeOk(t: Take) {
    t.align > 0 && ToHypervisor(t.state) && (t.forHost ==> t.state == ConvertedLocked)
  }

  /** Pages of a range that the hypervisor holds become state pages of the host. */
  function GiveToHost(b: Boot, first: nat, count: nat): (c: Boot)
    requires |b.infos| == |b.pfns|
    ensures c.pfns == b.pfns && c.next == b.next && |c.infos| == |b.infos|
    ensures forall i | 0 <= i < |b.infos| :: c.infos[i] == if first <= b.pfns[i] < first + count then Given(b.infos[i])
                                             else b.infos[i]
  {
    b.(infos := seq(|b.infos|, i requires 0 <= i < |b.infos| =>
      if first <= b.pfns[i] < first + count then Given(b.infos[i]) else b.infos[i]))
  }

  function Given(i: Info): (r: Info) {
    match Assign(i, HOST, VmState) case Ok(j) => j case Err(_) => i
  }

  function Do(b: Boot, t: Take): (r: Option<(Boot, nat)>)
    requires |b.infos| == |b.pfns| && TakeOk(t)
  {
    match Alloc(b, t.count, t.align, t.state)
    case None => None
    case Some((c, first)) => Some((if t.forHost then GiveToHost(c, first, t.count) else c, first))
  }

  /** The allocator after a number of calls, and the first pages of the ranges they returned. */
  function DoAll(b: Boot, ts: seq<Take>): (r: Option<(Boot, seq<nat>)>)
    requires |b.infos| == |b.pfns| && forall i | 0 <= i < |ts| :: TakeOk(ts[i])
    ensures r.Some? ==> |r.value.1| == |ts|
    decreases |ts|
  {
    if ts == [] then Some((b, []))
    else match Do(b, ts[0])
      case None => None
      case Some((c, first)) =>
        if |c.infos| != |c.pfns| then None
        else match DoAll(c, ts[1..]) case None => None case Some((d, rest)) => Some((d, [first] + rest))
  }

  lemma DoDoes(b: Boot, t: Take)
    requires Ready(b) && TakeOk(t) && Do(b, t).Some?
    ensures var (c, first) := Do(b, t).value;
            && Ready(c) && c.pfns == b.pfns && first % t.align == 0
            && (forall a | first <= a < first + t.count :: FreePage(b, a) && !FreePage(c, a))
            && (forall a | FreePage(c, a) :: FreePage(b, a) && first + t.count <= a)
  {
    AllocDoes(b, t.count, t.align, t.state);
    if t.forHost {
      var (c, first) := Alloc(b, t.count, t.align, t.state).value;
      HostPagesNotFree(c, first, t.count);
    }
  }

  lemma HostPagesNotFree(c: Boot, first: nat, count: nat)
    requires Ready(c) && forall a | first <= a < first + count :: !FreePage(c, a)
    ensures Ready(GiveToHost(c, first, count))
    ensures forall a :: FreePage(GiveToHost(c, first, count), a) <==> FreePage(c, a)
  {
    var d := GiveToHost(c, first, count);
    forall i | 0 <= i < |c.infos| ensures IsFree(d.infos[i]) <==> IsFree(c.infos[i]) {
      if first <= c.pfns[i] < first + count {
        assert !FreePage(c, c.pfns[i]);
        assert !IsFree(c.infos[i]);
        NotMadeFree(c.infos[i]);
      }
    }
    forall a ensures FreePage(d, a) <==> FreePage(c, a) {
    }
  }

  lemma NotMadeFree(i: Info)
    requires !IsFree(i)
    ensures !IsFree(Given(i))
  {
  }

  lemma ReadySize(b: Boot)
    requires Ready(b)
    ensures |b.infos| == |b.pfns|
  {
  }

  /** In any run that does not panic, the ranges are aligned, were free before the run, are free no longer, and
      do not overlap; they even lie one behind the other. */
  lemma {:induction false} DoAllDoes(b: Boot, ts: seq<Take>)
    requires Ready(b) && (forall i | 0 <= i < |ts| :: TakeOk(ts[i])) && DoAll(b, ts).Some?
    ensures var (c, firsts) := DoAll(b, ts).value;
            && Ready(c) && c.pfns == b.pfns
            && (forall i | 0 <= i < |ts| :: firsts[i] % ts[i].align == 0)
            && (forall i, a | 0 <= i < |ts| && firsts[i] <= a < firsts[i] + ts[i].count ::
                FreePage(b, a) && !FreePage(c, a))
            && (forall i, a | 0 <= i < |ts| && FreePage(c, a) :: firsts[i] + ts[i].count <= a)
            && (forall i, j | 0 <= i < j < |ts| && ts[j].count > 0 :: firsts[i] + ts[i].count <= firsts[j])
            && (forall a | FreePage(c, a) :: FreePage(b, a))
    decreases |ts|
  {
    hide Ready, FreePage, Do;
    ReadySize(b);
    if ts != [] {
      assert TakeOk(ts[0]);
      DoDoes(b, ts[0]);
      var (c, first) := Do(b, ts[0]).value;
      var rest := ts[1..];
      ReadySize(c);
      DoAllDoes(c, rest);
      var (d, firsts) := DoAll(c, rest).value;
      var all := [first] + firsts;
      forall i, a | 0 <= i < |ts| && all[i] <= a < all[i] + ts[i].count ensures FreePage(b, a) && !FreePage(d, a) {
        if i > 0 { assert rest[i - 1] == ts[i] && firsts[i - 1] == all[i]; }
      }
      forall i, j | 0 <= i < j < |ts| && ts[j].count > 0 ensures all[i] + ts[i].count <= all[j] {
        assert rest[j - 1] == ts[j] && firsts[j - 1] == all[j];
        if i > 0 {
          assert rest[i - 1] == ts[i] && firsts[i - 1] == all[i];
        } else {
          assert FreePage(c, firsts[j - 1]);
        }
      }
      forall i | 0 <= i < |ts| ensures TakeOk(ts[i]) && all[i] % ts[i].align == 0 {
        if i > 0 { assert rest[i - 1] == ts[i] && firsts[i - 1] == all[i]; }
      }
      forall i, a | 0 <= i < |ts| && FreePage(d, a) ensures all[i] + ts[i].count <= a {
        if i > 0 { assert rest[i - 1] == ts[i]; }
      }
    }
  }

  /** The first of the ranges that ends behind page `a`. */
  function Reaching(ts: seq<Take>, firsts: seq<nat>, a: nat): (r: Option<nat>)
    requires |firsts| == |ts|
    ensures r.Some? ==> r.value < |ts| && a < firsts[r.value] + ts[r.value].count
                        && forall j | 0 <= j < r.value :: firsts[j] + ts[j].count <= a
    ensures r.None? ==> forall j | 0 <= j < |ts| :: firsts[j] + ts[j].count <= a
  {
    if ts == [] then None
    else if a < firsts[0] + ts[0].count then Some(0)
    else match Reaching(ts[1..], firsts[1..], a) case None => None case Some(i) => Some(i + 1)
  }

  lemma DoRecords(b: Boot, t: Take, k: nat)
    requires Ready(b) && TakeOk(t) && Do(b, t).Some? && k < |b.infos| && k < |b.pfns|
    ensures var (c, first) := Do(b, t).value;
            && |c.infos| == |b.infos|
            && c.infos[k] == (if !IsFree(b.infos[k]) || first + t.count <= b.pfns[k] then b.infos[k]
                              else if t.forHost && first <= b.pfns[k] then Info(Ram, VmState, [HOST])
                              else Info(Ram, t.state, []))
  {
    hide Alloc, FreePage;
    AllocDoes(b, t.count, t.align, t.state);
    AllocRecords(b, t.count, t.align, t.state);
    var (c, first) := Alloc(b, t.count, t.align, t.state).value;
    if first <= b.pfns[k] < first + t.count {
      FreeAt(b, k);
      assert Given(Info(Ram, ConvertedLocked, [])) == Info(Ram, VmState, [HOST]);
    }
  }

  lemma FreeAt(b: Boot, k: nat)
    requires Ascending(b.pfns) && |b.infos| == |b.pfns| && k < |b.pfns|
    ensures FreePage(b, b.pfns[k]) <==> IsFree(b.infos[k])
  {
  }

  /** What a run of calls leaves of every record. A page that was not free, or that lies behind all the ranges,
      keeps it. Any other belongs to the first range that ends behind it: it is a state page of the host if it lies
      in that range and the range was for the host, and else the hypervisor's, without an owner, in the state asked
      for. */
  lemma {:induction false} DoAllRecords(b: Boot, ts: seq<Take>, k: nat)
    requires Ready(b) && (forall i | 0 <= i < |ts| :: TakeOk(ts[i])) && DoAll(b, ts).Some?
    requires k < |b.infos| && k < |b.pfns|
    ensures var (d, firsts) := DoAll(b, ts).value;
            && |d.infos| == |b.infos|
            && d.infos[k] == if !IsFree(b.infos[k]) then b.infos[k]
                             else match Reaching(ts, firsts, b.pfns[k])
                               case None => b.infos[k]
                               case Some(i) =>
                                 if ts[i].forHost && firsts[i] <= b.pfns[k] then Info(Ram, VmState, [HOST])
                                 else Info(Ram, ts[i].state, [])
    decreases |ts|
  {
    hide Ready, Do;
    ReadySize(b);
    if ts != [] {
      assert TakeOk(ts[0]);
      DoDoes(b, ts[0]);
      DoRecords(b, ts[0], k);
      var (c, first) := Do(b, ts[0]).value;
      ReadySize(c);
      DoAllRecords(c, ts[1..], k);
      var (d, firsts) := DoAll(c, ts[1..]).value;
      assert ([first] + firsts)[1..] == firsts;
    }
  }

  /* ---------------- drain ---------------- */

  /** The free pages from record `i` on, in order. */
  function FreeFrom(b: Boot, i: nat): (r: seq<nat>)
    requires |b.infos| == |b.pfns| && i <= |b.pfns|
    decreases |b.pfns| - i
  {
    if i == |b.pfns| then []
    else (if IsFree(b.infos[i]) then [b.pfns[i]] else []) + FreeFrom(b, i + 1)
  }

  /** All records afterwards, and the pages of the list. */
  function Drain(b: Boot): (r: Option<(seq<Info>, seq<nat>)>)
    requires |b.infos| == |b.pfns|
  {
    if b.next.None? then None
    else match IndexOf(b.pfns, b.next.value)
      case None => None
      case Some(i) => Some((DrainInfos(b, i), FreeFrom(b, i)))
  }

  function DrainInfos(b: Boot, i: nat): (infos: seq<Info>)
    requires |b.infos| == |b.pfns|
    ensures |infos| == |b.infos|
    ensures forall j | 0 <= j < |infos| :: infos[j] ==
                                           if i <= j && IsFree(b.infos[j]) then Taken(b.infos[j], ConvertedLocked)
                                               else b.infos[j]
  {
    seq(|b.infos|, j requires 0 <= j < |b.infos| =>
      if i <= j && IsFree(b.infos[j]) then Taken(b.infos[j], ConvertedLocked) else b.infos[j])
  }

  lemma {:induction false} FreeFromIs(b: Boot, i: nat)
    requires Ascending(b.pfns) && |b.infos| == |b.pfns| && i <= |b.pfns|
    ensures Ascending(FreeFrom(b, i))
    ensures forall a :: a in FreeFrom(b, i) <==> exists j | i <= j < |b.pfns| :: b.pfns[j] == a && IsFree(b.infos[j])
    decreases |b.pfns| - i
  {
    if i < |b.pfns| {
      FreeFromIs(b, i + 1);
      var rest := FreeFrom(b, i + 1);
      forall k | 0 <= k < |rest| ensures b.pfns[i] < rest[k] {
        assert rest[k] in rest;
        var j :| i + 1 <= j < |b.pfns| && b.pfns[j] == rest[k] && IsFree(b.infos[j]);
      }
    }
  }

  /** Drain panics exactly if the allocator has no page to go on from. */
  lemma DrainSomeIff(b: Boot)
    requires Ready(b)
    ensures Drain(b).Some? <==> b.next.Some?
  {
    if b.next.Some? { FreeIsThere(b, b.next.value); }
  }

  /** If it does not panic, drain turns exactly the pages that are still free into a list, in ascending order,
      and leaves no page free. */
  lemma DrainTakesAll(b: Boot)
    requires Ready(b) && Drain(b).Some?
    ensures var (infos, list) := Drain(b).value;
            && Ascending(list) && (forall a :: a in list <==> FreePage(b, a))
            && |infos| == |b.infos| && (forall i | 0 <= i < |infos| :: !IsFree(infos[i]))
            && (forall i | 0 <= i < |infos| ::
                  infos[i] == if IsFree(b.infos[i]) then Info(Ram, ConvertedLocked, []) else b.infos[i])
  {
    TakenNotFree(ConvertedLocked);
    var i := IndexOf(b.pfns, b.next.value).value;
    FreeFromIs(b, i);
    forall j | 0 <= j < |b.infos| && IsFree(b.infos[j]) ensures i <= j {
      assert FreePage(b, b.pfns[j]);
    }
    var list := Drain(b).value.1;
    forall a ensures a in list <==> FreePage(b, a) {
      if FreePage(b, a) {
        var j :| 0 <= j < |b.pfns| && j < |b.infos| && b.pfns[j] == a && IsFree(b.infos[j]);
      }
    }
  }

  /* ---------------- The object ---------------- */

  /** Page `a` is in a region that is available. */
  predicate InAvailable(rs: seq<HwRegion>, a: nat) {
    exists k | 0 <= k < |rs| :: rs[k].kind.Available? && InRegion(rs[k], a)
  }

  /** At first the free pages are those of the available regions. */
  lemma FreeAtStart(rs: seq<HwRegion>, next: Option<nat>, a: nat)
    requires InOrder(rs)
    ensures FreePage(Boot(Pfns(rs), Infos(rs), next), a) <==> InAvailable(rs, a)
  {
    hide Pfns, Infos, InOrder, InRegion, Ascending;
    PfnsMean(rs);
    if i :| 0 <= i < |Pfns(rs)| && Pfns(rs)[i] == a && IsFree(Infos(rs)[i]) {
      assert Covered(rs, a);
      var k :| 0 <= k < |rs| && InRegion(rs[k], a);
      assert rs[k].kind.Available?;
    }
    if k :| 0 <= k < |rs| && rs[k].kind.Available? && InRegion(rs[k], a) {
      assert Covered(rs, a);
      var i :| 0 <= i < |Pfns(rs)| && Pfns(rs)[i] == a;
    }
  }

  /** A memory map without isolated empty regions gives an allocator that is ready, and that has a page to go on from
      exactly if there is available memory. */
  lemma StartsReady(rs: seq<HwRegion>)
    requires InOrder(rs) && rs != [] && forall b :: !Isolated(rs, b)
    ensures |Infos(rs)| == |Pfns(rs)|
    ensures var b := Boot(Pfns(rs), Infos(rs), NextFree(Pfns(rs), Infos(rs), rs[0].base));
            && Ready(b) && (forall a :: FreePage(b, a) <==> InAvailable(rs, a))
            && (b.next.Some? <==> exists a :: InAvailable(rs, a))
  {
    hide Pfns, Infos, InOrder, InRegion, Ascending, ChunksOk, ChunksOf, Isolated, FreePage, NextFree, IndexOf;
    hide InAvailable;
    PfnsMean(rs);
    SteadyIff(rs);
    var b := Boot(Pfns(rs), Infos(rs), NextFree(Pfns(rs), Infos(rs), rs[0].base));
    forall a ensures FreePage(b, a) <==> InAvailable(rs, a) { FreeAtStart(rs, b.next, a); }
    FirstIsLeast(rs);
    forall a | FreePage(b, a) ensures rs[0].base <= a { FreeIsThere(b, a); }
    NextFreeIs(b, rs[0].base);
    NextFreeIff(b, rs[0].base);
    forall i | 0 <= i < |b.infos| && IsFree(b.infos[i]) ensures b.infos[i] == Info(Ram, Free, []) {
      assert Covered(rs, b.pfns[i]);
      var k :| 0 <= k < |rs| && InRegion(rs[k], b.pfns[i]);
      assert b.infos[i] == Initial(rs[k].kind);
    }
  }

  lemma FreeIsThere(b: Boot, a: nat)
    requires FreePage(b, a)
    ensures a in b.pfns
  {
  }

  /** The first region is at the lowest address. */
  lemma FirstIsLeast(rs: seq<HwRegion>)
    requires InOrder(rs) && rs != []
    ensures forall a | a in Pfns(rs) :: rs[0].base <= a
  {
    hide Pfns, Infos, Ascending;
    PfnsMean(rs);
    forall a | a in Pfns(rs) ensures rs[0].base <= a {
      assert Covered(rs, a);
      var k :| 0 <= k < |rs| && InRegion(rs[k], a);
      assert k > 0 ==> rs[0].base + rs[0].count <= rs[k].base;
    }
  }

  lemma NextFreeIff(b: Boot, a: nat)
    requires Ascending(b.pfns) && |b.infos| == |b.pfns| && a in b.pfns && (forall x | FreePage(b, x) :: a <= x)
    ensures NextFree(b.pfns, b.infos, a).Some? <==> exists x :: FreePage(b, x)
  {
    hide IndexOf;
    IndexOfIs(b.pfns, a);
    var i := IndexOf(b.pfns, a).value;
    var f := FirstFree(b.infos, i);
    if f.Some? { assert FreePage(b, b.pfns[f.value]); }
    if x :| FreePage(b, x) {
      var k :| 0 <= k < |b.pfns| && k < |b.infos| && b.pfns[k] == x && IsFree(b.infos[k]);
      assert i <= k;
    }
  }

  class HypPageAlloc {
    const pages: PageMap
    var next: Option<nat>

    ghost function View(): (b: Boot)
      reads this, pages
    {
      Boot(pages.pfns, pages.infos, next)
    }

    ghost predicate Valid()
      reads this, pages
    {
      pages.Valid() && Steady(pages.chunks) && Ready(View())
    }

    constructor (pages: PageMap, next: Option<nat>)
      ensures this.pages == pages && this.next == next
    {
      this.pages, this.next := pages, next;
    }

    /** HypPageAlloc::new: none if it panics. The allocator goes on from the first free page of the memory map. */
    static method FromMap(regions: seq<HwRegion>) returns (r: Option<HypPageAlloc>)
      requires InOrder(regions) && forall b :: !Isolated(regions, b)
      ensures r.None? <==> regions == [] || Gaps(regions) + 1 > MAX_CHUNKS
      ensures r.Some? ==> fresh(r.value) && fresh(r.value.pages) && r.value.Valid()
      ensures r.Some? ==> r.value.pages.pfns == Pfns(regions) && r.value.pages.infos == Infos(regions)
      ensures r.Some? ==> forall a :: FreePage(r.value.View(), a) <==> InAvailable(regions, a)
      ensures r.Some? ==> (r.value.next.Some? <==> exists a :: InAvailable(regions, a))
    {
      hide ChunksOk, Ascending, Pfns, Infos, Gaps, InOrder, ChunksOf, Isolated, Ready, FreePage, NextFree, InAvailable;
      var pages := PageMap.Populate(regions);
      if pages.None? { return None; }
      SteadyIff(regions);
      StartsReady(regions);
      var alloc := new HypPageAlloc(pages.value, None);
      alloc.next := alloc.NextFreePage(regions[0].base);
      return Some(alloc);
    }

    method NextFreePage(a: nat) returns (r: Option<nat>)
      requires pages.Valid() && Steady(pages.chunks)
      ensures r == NextFree(pages.pfns, pages.infos, a)
    {
      hide ChunksOk, Ascending, IndexOf, Steady;
      IndexOfIs(pages.pfns, a);
      var found := IterFrom(pages, a);
      if found.None? { return None; }
      var it := found.value;
      ghost var i := it.index;
      IndexAt(pages.pfns, i);
      while true
        invariant it.Valid() && it.OnTrack() && i <= it.index
        invariant FirstFree(pages.infos, i) == FirstFree(pages.infos, it.index)
        decreases |pages.pfns| - it.index
      {
        var p := it.NextPage();
        if !p.Page? { return None; }
        if p.info.state.Free? { return Some(p.addr); }
      }
    }

    method RangeIsFree(a: nat, count: nat) returns (b: bool)
      requires pages.Valid()
      ensures b == RangeFree(View(), a, count)
    {
      for i := 0 to count
        invariant forall x | a <= x < a + i :: FreePage(View(), x)
      {
        var m := pages.GetMapIndex(a + i);
        FreePageAt(View(), a + i, m);
        if m.None? || !pages.infos[m.value].state.Free? { return false; }
      }
      return true;
    }

    /** The first page of a range of `count` free pages, aligned to a multiple of `align` pages. */
    method AllocPages(count: nat, align: nat, state: PageState) returns (r: Option<nat>)
      requires Valid() && align > 0 && ToHypervisor(state)
      modifies this, pages`infos
      ensures match Alloc(old(View()), count, align, state)
              case None => r == None
              case Some((c, first)) => r == Some(first) && View() == c && Valid()
    {
      hide FindRange, RangeFree, FreePage, Ready, Mark, NextFree, IndexOf, ChunksOk;
      ReadySize(View());
      if next.None? { return None; }
      var start := next.value;
      var found := FindFirst(start, count, align);
      if found.None? { return None; }
      var first := found.value;
      AllocDoes(View(), count, align, state);
      MarkFree(start, first + count, state);
      next := NextFreePage(first + count);
      return Some(first);
    }

    /** The first page from `start` on at which there are `count` free pages and that is aligned. */
    method FindFirst(start: nat, count: nat, align: nat) returns (r: Option<nat>)
      requires pages.Valid() && Steady(pages.chunks) && align > 0
      ensures match IndexOf(pages.pfns, start)
              case None => r == None
              case Some(i) =>
                match FindRange(View(), i, count, align) case None => r == None case Some(j) => r == Some(pages.pfns[j])
    {
      hide RangeFree, ChunksOk, Ascending, IndexOf, Steady;
      IndexOfIs(pages.pfns, start);
      var found := IterFrom(pages, start);
      if found.None? { return None; }
      var it := found.value;
      ghost var i := it.index;
      IndexAt(pages.pfns, i);
      while true
        invariant it.Valid() && it.OnTrack() && i <= it.index
        invariant FindRange(View(), i, count, align) == FindRange(View(), it.index, count, align)
        decreases |pages.pfns| - it.index
      {
        var p := it.NextPage();
        if !p.Page? { return None; }
        var ok := RangeIsFree(p.addr, count);
        if p.addr % align == 0 && ok { return Some(p.addr); }
      }
    }

    /** Gives the free pages from `from` up to `to` to the hypervisor. */
    method MarkFree(from: nat, to: nat, state: PageState)
      requires pages.Valid() && from <= to
      modifies pages`infos
      ensures pages.Valid() && pages.infos == Mark(old(View()), from, to, state)
    {
      hide Mark, ChunksOk;
      ghost var b := View();
      MarkNone(b, from, state);
      for x := from to to
        invariant pages.Valid() && pages.infos == Mark(b, from, x, state)
      {
        var m := pages.GetMapIndex(x);
        MarkStep(b, from, x, state, m);
        if m.Some? && pages.infos[m.value].state.Free? {
          pages.infos := pages.infos[m.value := Taken(pages.infos[m.value], state)];
        }
      }
    }

    /** Takes all pages that are still free and returns them as a list. */
    method DrainAll() returns (r: Option<seq<nat>>)
      requires Valid()
      modifies this, pages`infos
      ensures match Drain(old(View()))
              case None => r == None
              case Some((infos, list)) => r == Some(list) && pages.infos == infos
    {
      hide ChunksOk, FreePage, FreeFrom, FirstFree, DrainedTo, DrainInfos, NextFree, Ready, Ascending;
      ghost var b := View();
      ReadySize(b);
      if next.None? { return None; }
      IndexOfIs(pages.pfns, next.value);
      var start := pages.GetMapIndex(next.value);
      if start.None? { return None; }
      IndexAt(pages.pfns, start.value);
      ghost var i, k := start.value, start.value;
      NextIsFree(b, i);
      NothingDrained(b, i);
      var list: seq<nat> := [];
      assert list + FreeFrom(b, i) == FreeFrom(b, i);
      while next.Some?
        invariant pages.Valid() && Steady(pages.chunks) && i <= k <= |b.pfns| && pages.pfns == b.pfns
        invariant list + FreeFrom(b, k) == FreeFrom(b, i)
        invariant if next.Some? then k < |b.pfns| && next.value == b.pfns[k] && IsFree(b.infos[k])
                  && pages.infos == DrainedTo(b, i, k)
                  else FreeFrom(b, k) == [] && pages.infos == DrainInfos(b, i)
        decreases |b.pfns| - k, next.Some?
      {
        ghost var before, first := list, [next.value];
        list := list + [next.value];
        k := DrainOne(b, i, k);
        assert before + first + FreeFrom(b, k) == before + (first + FreeFrom(b, k));
      }
      assert list + [] == list;
      return Some(list);
    }

    /** Takes the next free page and finds the one after it. */
    method DrainOne(ghost b: Boot, ghost i: nat, ghost k: nat) returns (ghost n: nat)
      requires pages.Valid() && Steady(pages.chunks) && Ready(b) && pages.pfns == b.pfns
      requires i <= k < |b.pfns| && next == Some(b.pfns[k]) && IsFree(b.infos[k])
      requires pages.infos == DrainedTo(b, i, k)
      modifies this, pages`infos
      ensures pages.Valid() && k < n <= |b.pfns| && FreeFrom(b, k) == [b.pfns[k]] + FreeFrom(b, n)
      ensures if next.Some? then n < |b.pfns| && next.value == b.pfns[n] && IsFree(b.infos[n])
              && pages.infos == DrainedTo(b, i, n)
              else FreeFrom(b, n) == [] && pages.infos == DrainInfos(b, i)
    {
      hide ChunksOk, FreePage, FreeFrom, FirstFree, DrainedTo, DrainInfos, NextFree, Ready;
      ReadySize(b);
      var a := next.value;
      var m := pages.GetMapIndex(a);
      IndexAt(pages.pfns, k);
      DrainStep(b, i, k);
      ghost var infos := pages.infos[k := Taken(pages.infos[k], ConvertedLocked)];
      NextAfter(pages.pfns, infos, k);
      SameIndex(pages.pfns, m.value, k);
      pages.infos := pages.infos[m.value := Taken(pages.infos[m.value], ConvertedLocked)];
      next := NextFreePage(a);
      FirstFreeIs(b.infos, k + 1);
      n := if next.Some? then FirstFree(b.infos, k + 1).value else k + 1;
    }
  }

  lemma SameIndex(pfns: seq<nat>, i: nat, j: nat)
    requires Ascending(pfns) && i < |pfns| && j < |pfns| && pfns[i] == pfns[j]
    ensures i == j
  {
  }

  lemma NextIsFree(b: Boot, i: nat)
    requires Ready(b) && b.next.Some? && i < |b.pfns| && b.pfns[i] == b.next.value
    ensures IsFree(b.infos[i])
  {
  }

  lemma NothingDrained(b: Boot, i: nat)
    requires |b.infos| == |b.pfns|
    ensures DrainedTo(b, i, i) == b.infos
  {
  }

  lemma NextAfter(pfns: seq<nat>, infos: seq<Info>, k: nat)
    requires Ascending(pfns) && |infos| == |pfns| && k < |pfns|
    ensures NextFree(pfns, infos, pfns[k]) == match FirstFree(infos, k) case None => None case Some(j) => Some(pfns[j])
  {
    IndexAt(pfns, k);
  }

  lemma FirstFreeIs(infos: seq<Info>, i: nat)
    requires i <= |infos|
    ensures FirstFree(infos, i).Some? ==> i <= FirstFree(infos, i).value < |infos|
                                          && IsFree(infos[FirstFree(infos, i).value])
  {
  }

  /** The records with the free pages between `i` and `k` taken. */
  function DrainedTo(b: Boot, i: nat, k: nat): (infos: seq<Info>)
    requires |b.infos| == |b.pfns|
    ensures |infos| == |b.infos|
  {
    seq(|b.infos|, j requires 0 <= j < |b.infos| =>
      if i <= j < k && IsFree(b.infos[j]) then Taken(b.infos[j], ConvertedLocked) else b.infos[j])
  }

  lemma {:induction false} FreeSkip(b: Boot, i: nat, j: nat)
    requires |b.infos| == |b.pfns| && i <= j <= |b.pfns| && forall k | i <= k < j :: !IsFree(b.infos[k])
    ensures FreeFrom(b, i) == FreeFrom(b, j)
    decreases j - i
  {
    if i < j {
      FreeSkip(b, i + 1, j);
      assert FreeFrom(b, i) == [] + FreeFrom(b, i + 1);
    }
  }

  /** One page is drained, and the next free page is where it is found. */
  lemma DrainStep(b: Boot, i: nat, k: nat)
    requires Ready(b) && i <= k < |b.pfns| && IsFree(b.infos[k])
    ensures var infos := DrainedTo(b, i, k)[k := Taken(b.infos[k], ConvertedLocked)];
            && DrainedTo(b, i, k)[k] == b.infos[k] && infos == DrainedTo(b, i, k + 1)
            && FirstFree(infos, k) == FirstFree(b.infos, k + 1)
            && FreeFrom(b, k) == [b.pfns[k]] + FreeFrom(b, k + 1)
            && (match FirstFree(b.infos, k + 1)
                case None => FreeFrom(b, k + 1) == [] && DrainedTo(b, i, k + 1) == DrainInfos(b, i)
                case Some(n) => FreeFrom(b, k + 1) == FreeFrom(b, n) && DrainedTo(b, i, k + 1) == DrainedTo(b, i, n))
  {
    TakenNotFree(ConvertedLocked);
    var infos := DrainedTo(b, i, k)[k := Taken(b.infos[k], ConvertedLocked)];
    assert infos == DrainedTo(b, i, k + 1);
    var f := FirstFree(b.infos, k + 1);
    FirstFreeSame(infos, b.infos, k);
    FreeSkip(b, k + 1, if f.Some? then f.value else |b.pfns|);
  }

  lemma FirstFreeSame(xs: seq<Info>, ys: seq<Info>, k: nat)
    requires |xs| == |ys| && k < |xs| && !IsFree(xs[k]) && forall j | k < j < |xs| :: xs[j] == ys[j]
    ensures FirstFree(xs, k) == FirstFree(ys, k + 1)
  {
    var a, b := FirstFree(xs, k), FirstFree(ys, k + 1);
    if a.Some? && b.Some? {
      assert IsFree(ys[a.value]) && IsFree(xs[b.value]);
    }
  }

  lemma IndexOfIs(pfns: seq<nat>, a: nat)
    ensures IndexOf(pfns, a).Some? <==> a in pfns
  {
  }

  lemma {:induction false} IndexAt(pfns: seq<nat>, i: nat)
    requires Ascending(pfns) && i < |pfns|
    ensures IndexOf(pfns, pfns[i]) == Some(i)
  {
    var j := IndexOf(pfns, pfns[i]);
    assert pfns[i] in pfns;
  }

  lemma FreePageAt(b: Boot, a: nat, m: Option<nat>)
    requires Ascending(b.pfns) && |b.infos| == |b.pfns|
    requires m.Some? <==> a in b.pfns
    requires m.Some? ==> m.value < |b.pfns| && b.pfns[m.value] == a
    ensures FreePage(b, a) <==> m.Some? && IsFree(b.infos[m.value])
  {
  }

  lemma MarkNone(b: Boot, from: nat, state: PageState)
    requires |b.infos| == |b.pfns|
    ensures Mark(b, from, from, state) == b.infos
  {
  }

  lemma MarkStep(b: Boot, from: nat, x: nat, state: PageState, m: Option<nat>)
    requires Ascending(b.pfns) && |b.infos| == |b.pfns| && from <= x
    requires m.Some? <==> x in b.pfns
    requires m.Some? ==> m.value < |b.pfns| && b.pfns[m.value] == x
    ensures Mark(b, from, x + 1, state) ==
            if m.Some? && IsFree(Mark(b, from, x, state)[m.value])
            then Mark(b, from, x, state)[m.value := Taken(Mark(b, from, x, state)[m.value], state)]
            else Mark(b, from, x, state)
  {
  }
}
