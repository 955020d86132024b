/** Operations on ranges of guest pages. Each checks the whole range before it changes anything, or undoes
    what it has done: a call that fails leaves every entry as it was. */
module TableRanges {
  import opened Basics
  import opened Ptes
  import opened RadixTrees
  import opened GuestPageTables
  import opened PtePages

  predicate In(h: int, g: nat, n: nat) { g <= h < g + n }

  /** What an operation does to the entries of a range. */
  datatype Effect = Locks | Unlocks | Invalidates | Clears

  function After(f: Effect, e: Entry): (r: Entry) {
    match f
    case Locks => Lock(e)
    case Unlocks => Unlock(e)
    case Invalidates => if e.Leaf? then Invalidated(e.pfn) else e
    case Clears => Unused
  }

  /** The entries in the range have changed as `f` says, and no others. */
  ghost predicate RangeBecomes(t: Tree, r: Tree, g: nat, n: nat, f: Effect) {
    forall h: nat :: Abs(r, h) == if In(h, g, n) then After(f, Abs(t, h)) else Abs(t, h)
  }

  /** What a whole range of entries is checked for. */
  datatype Purpose = ToInvalidate(sparse: bool) | ToUnmap | MappedOnly | InvalidatedOnly

  function Check(p: Purpose, pred: Pfn -> bool, e: Entry): (r: Result<()>) {
    match p
    case ToInvalidate(sparse) =>
      if e.Leaf? then (if pred(e.pfn) then Ok(()) else Err(PredicateFailed))
      else if e.Unused? && sparse then Ok(()) else Err(PageNotMapped)
    case ToUnmap =>
      if e.Invalidated? then (if pred(e.pfn) then Ok(()) else Err(PredicateFailed))
      else if e.Unused? then Ok(()) else Err(PageNotUnmappable)
    case MappedOnly => if !e.Leaf? then Err(PageNotMapped) else if pred(e.pfn) then Ok(()) else Err(PredicateFailed)
    case InvalidatedOnly => if !e.Invalidated? then Err(PageNotConverted) else
                              if pred(e.pfn) then Ok(()) else Err(PredicateFailed)
  }

  /** The first error in the range, if there is one. */
  ghost function CheckRange(t: Tree, g: nat, n: nat, p: Purpose, pred: Pfn -> bool): (r: Result<()>)
    ensures r.Ok? <==> forall h: nat | In(h, g, n) :: Check(p, pred, Abs(t, h)).Ok?
    decreases n
  {
    if n == 0 then Ok(())
    else if Check(p, pred, Abs(t, g)).Err? then Check(p, pred, Abs(t, g))
    else CheckRange(t, g + 1, n - 1, p, pred)
  }

  /** The pages that entries of the range hold: those of the mapped entries, or of the invalidated ones. */
  ghost function PagesIn(t: Tree, g: nat, n: nat, mapped: bool): (r: seq<Pfn>)
    decreases n
  {
    if n == 0 then []
    else
      var e := Abs(t, g);
      (if (mapped && e.Leaf?) || (!mapped && e.Invalidated?) then [e.pfn] else []) + PagesIn(t, g + 1, n - 1, mapped)
  }

  lemma {:induction false} PagesInLast(t: Tree, g: nat, n: nat, mapped: bool)
    ensures var e := Abs(t, g + n);
            PagesIn(t, g, n + 1, mapped) ==
            PagesIn(t, g, n, mapped) + (if (mapped && e.Leaf?) || (!mapped && e.Invalidated?) then [e.pfn] else [])
    decreases n
  {
    hide Abs;
    if n > 0 {
      PagesInLast(t, g + 1, n - 1, mapped);
      assert g + n == (g + 1) + (n - 1);
    }
  }

  lemma {:induction false} AllCounted(t: Tree, g: nat, n: nat, p: Purpose, pred: Pfn -> bool)
    requires (p.MappedOnly? || p.InvalidatedOnly?) && CheckRange(t, g, n, p, pred).Ok?
    ensures |PagesIn(t, g, n, p.MappedOnly?)| == n
    decreases n
  {
    hide Abs;
    if n > 0 {
      AllCounted(t, g + 1, n - 1, p, pred);
    }
  }

  class GuestStagePageTable {
    const inner: PageTableInner

    ghost predicate Valid()
      reads this, inner
    {
      inner.Valid()
    }

    ghost function View(): (t: Tree)
      reads this, inner
    {
      inner.View()
    }

    constructor (inner: PageTableInner)
      ensures this.inner == inner
    {
      this.inner := inner;
    }

    /** The check that comes first in the range operations. */
    method CheckAll(g: nat, n: nat, p: Purpose, pred: Pfn -> bool) returns (r: Result<()>)
      requires Valid() && g + n <= LIMIT
      ensures r == CheckRange(View(), g, n, p, pred)
    {
      hide Abs, TreeOk;
      for i := 0 to n
        invariant CheckRange(View(), g, n, p, pred) == CheckRange(View(), g + i, n - i, p, pred)
      {
        var _, _, _, e := inner.Walk(g + i);
        var c := Check(p, pred, e);
        if c.Err? { return c; }
      }
      return Ok(());
    }

    /** Invalidates the mapped entries of the range and returns their pages in order. */
    method InvalidateRange(g: nat, n: nat, sparse: bool, pred: Pfn -> bool) returns (r: Result<seq<Pfn>>)
      requires Valid() && g + n <= LIMIT
      modifies inner`mem
      ensures Valid()
      ensures match CheckRange(old(View()), g, n, ToInvalidate(sparse), pred)
              case Ok(_) =>
                && r == Ok(PagesIn(old(View()), g, n, true))
                && RangeBecomes(old(View()), View(), g, n, Invalidates)
              case Err(e) => r == Err(e) && View() == old(View())
    {
      hide Abs, TreeOk, CheckRange;
      ghost var t := View();
      var c := CheckAll(g, n, ToInvalidate(sparse), pred);
      if c.Err? { return Err(c.error); }
      var pages: seq<Pfn> := [];
      for i := 0 to n
        invariant Valid() && pages == PagesIn(t, g, i, true)
        invariant RangeBecomes(t, View(), g, i, Invalidates)
      {
        PagesInLast(t, g, i, true);
        var p := inner.InvalidateLeaf(g + i);
        if p.Ok? { pages := pages + [p.value]; }
      }
      return Ok(pages);
    }

    /** Clears the invalidated entries of the range and returns the pages they held, in order. */
    method UnmapRange(g: nat, n: nat, pred: Pfn -> bool) returns (r: Result<seq<Pfn>>)
      requires Valid() && g + n <= LIMIT
      modifies inner`mem
      ensures Valid()
      ensures match CheckRange(old(View()), g, n, ToUnmap, pred)
              case Ok(_) =>
                && r == Ok(PagesIn(old(View()), g, n, false))
                && RangeBecomes(old(View()), View(), g, n, Clears)
              case Err(e) => r == Err(e) && View() == old(View())
    {
      hide Abs, TreeOk, CheckRange;
      ghost var t := View();
      var c := CheckAll(g, n, ToUnmap, pred);
      if c.Err? { return Err(c.error); }
      var pages: seq<Pfn> := [];
      for i := 0 to n
        invariant Valid() && pages == PagesIn(t, g, i, false)
        invariant RangeBecomes(t, View(), g, i, Clears)
      {
        PagesInLast(t, g, i, false);
        assert In(g + i, g, n) && Check(ToUnmap, pred, Abs(t, g + i)).Ok?;
        var p := inner.ClearLeaf(g + i);
        if p.Ok? { pages := pages + [p.value]; }
      }
      return Ok(pages);
    }

    /** The pages mapped in the range, if all of it is mapped. */
    method GetMappedPages(g: nat, n: nat, pred: Pfn -> bool) returns (r: Result<seq<Pfn>>)
      requires Valid() && g + n <= LIMIT
      ensures match CheckRange(View(), g, n, MappedOnly, pred)
              case Ok(_) => r == Ok(PagesIn(View(), g, n, true)) && |r.value| == n
              case Err(e) => r == Err(e)
    {
      hide Abs, TreeOk, CheckRange;
      var c := CheckAll(g, n, MappedOnly, pred);
      if c.Err? { return Err(c.error); }
      var pages := Collect(g, n, true);
      AllCounted(View(), g, n, MappedOnly, pred);
      return Ok(pages);
    }

    /** The pages that were mapped in the range, if all of it is invalidated. */
    method GetInvalidatedPages(g: nat, n: nat, pred: Pfn -> bool) returns (r: Result<seq<Pfn>>)
      requires Valid() && g + n <= LIMIT
      ensures match CheckRange(View(), g, n, InvalidatedOnly, pred)
              case Ok(_) => r == Ok(PagesIn(View(), g, n, false)) && |r.value| == n
              case Err(e) => r == Err(e)
    {
      hide Abs, TreeOk, CheckRange;
      var c := CheckAll(g, n, InvalidatedOnly, pred);
      if c.Err? { return Err(c.error); }
      var pages := Collect(g, n, false);
      AllCounted(View(), g, n, InvalidatedOnly, pred);
      return Ok(pages);
    }

    method Collect(g: nat, n: nat, mapped: bool) returns (pages: seq<Pfn>)
      requires Valid() && g + n <= LIMIT
      ensures pages == PagesIn(View(), g, n, mapped)
    {
      hide Abs, TreeOk;
      pages := [];
      for i := 0 to n
        invariant pages == PagesIn(View(), g, i, mapped)
      {
        PagesInLast(View(), g, i, mapped);
        var _, _, _, e := inner.Walk(g + i);
        if (mapped && e.Leaf?) || (!mapped && e.Invalidated?) { pages := pages + [e.pfn]; }
      }
    }

    /** Locks the entries of the range for mapping. If one cannot be locked, or the tables run out, the ones
        locked before it are unlocked again. */
    method MapRange(g: nat, n: nat) returns (r: Result<GuestStageMapper>)
      requires Valid() && g + n <= LIMIT
      modifies inner
      ensures Valid() && Grown(old(View()), View()) && TablesFor(old(View()), View(), g, n)
      ensures r.Ok? ==>
                && r.value.owner == this && r.value.start == g && r.value.count == n
                && (forall h: nat | In(h, g, n) :: LockToMap(Abs(old(View()), h)).Ok?)
                && RangeBecomes(old(View()), View(), g, n, Locks)
      ensures r.Err? ==>
                && SameAbs(old(View()), View())
                && (r.error == InsufficientPtePages || exists h: nat | In(h, g, n) ::
                    LockToMap(Abs(old(View()), h)) == Err(r.error))
      ensures r == Err(InsufficientPtePages) <==> RunsOut(old(View()), g, n)
    {
      hide Abs, TreeOk, Missing, Grown, NoZeroLeaf, OnlyFor, RunsOut;
      ghost var t := View();
      var locked, l := LockAll(g, n);
      if l.Err? {
        Relock(t, View(), g, locked);
        ghost var now := View();
        UnlockRange(g, locked);
        Undone(t, now, View(), g, locked);
        SameTables(t, now, View(), g, n);
        GrownStore(t, now, View());
        return Err(l.error);
      }
      var m := new GuestStageMapper(this, g, n);
      return Ok(m);
    }

    /** Locks one entry after the other, up to the first that cannot be locked. */
    method LockAll(g: nat, n: nat) returns (locked: nat, r: Result<()>)
      requires Valid() && g + n <= LIMIT
      modifies inner
      ensures Valid() && Grown(old(View()), View()) && locked <= n && (r.Ok? ==> locked == n)
      ensures TablesFor(old(View()), View(), g, n)
      ensures RangeBecomes(old(View()), View(), g, locked, Locks)
      ensures forall h: nat | In(h, g, locked) :: LockToMap(Abs(old(View()), h)).Ok?
      ensures r.Err? ==> locked < n
                         && (r.error == InsufficientPtePages || LockToMap(Abs(old(View()), g + locked)) == Err(r.error))
      ensures r == Err(InsufficientPtePages) <==> RunsOut(old(View()), g, n)
    {
      hide Abs, TreeOk, Missing, NoZeroLeaf, OnlyFor, NewOnPath, Grown, TablesFor, Ways, Spent, RunsOut, AllLock;
      ghost var t := View();
      GrownSelf(t);
      SameTables(t, t, t, g, n);
      SpentNothing(t, g);
      for i := 0 to n
        invariant TablesFor(t, View(), g, n)
        invariant Spent(t, View(), g, i)
        invariant Valid() && Grown(t, View()) && RangeBecomes(t, View(), g, i, Locks)
        invariant forall h: nat | In(h, g, i) :: LockToMap(Abs(t, h)).Ok?
      {
        ghost var now := View();
        var l := inner.LockLeafForMapping(g + i);
        GrownTrans(t, now, View());
        StillFor(t, now, View(), g, n, g + i);
        Accounted(t, now, View(), g, n, i, l);
        if l.Err? { return i, l; }
      }
      EnoughUpTo(t, View(), g, n, n);
      return n, Ok(());
    }

    /** What dropping a mapper does: entries of the range that are still locked are unlocked. */
    method UnlockRange(g: nat, n: nat)
      requires Valid() && g + n <= LIMIT
      modifies inner`mem
      ensures Valid() && RangeBecomes(old(View()), View(), g, n, Unlocks) && inner.mem.Keys == old(inner.mem).Keys
    {
      hide Abs, TreeOk;
      for i := 0 to n
        invariant Valid() && RangeBecomes(old(View()), View(), g, i, Unlocks) && inner.mem.Keys == old(inner.mem).Keys
      {
        var _ := inner.UnlockLeaf(g + i);
      }
    }
  }

  /** A range of entries that has been locked for mapping. */
  class GuestStageMapper {
    const owner: GuestStagePageTable
    const start: nat
    const count: nat

    constructor (owner: GuestStagePageTable, start: nat, count: nat)
      ensures this.owner == owner && this.start == start && this.count == count
    {
      this.owner, this.start, this.count := owner, start, count;
    }

    method MapPage(g: nat, pfn: Pfn) returns (r: Result<()>)
      requires owner.Valid() && start + count <= LIMIT && Mappable(pfn)
      modifies owner.inner`mem
      ensures owner.Valid()
      ensures if start <= g < start + count
              then Becomes(old(owner.View()), owner.View(), g, MapEntry(Abs(old(owner.View()), g), pfn))
                   && Same(r, MapEntry(Abs(old(owner.View()), g), pfn))
              else r == Err(OutOfMapRange) && owner.View() == old(owner.View())
    {
      if g < start || g >= start + count { return Err(OutOfMapRange); }
      r := owner.inner.MapLeaf(g, pfn);
    }

    method Drop()
      requires owner.Valid() && start + count <= LIMIT
      modifies owner.inner`mem
      ensures owner.Valid() && RangeBecomes(old(owner.View()), owner.View(), start, count, Unlocks)
    {
      owner.UnlockRange(start, count);
    }
  }

  /* ---------------- When the tables run out ---------------- */

  ghost function Tables(t: Tree): (s: set<Node>) { t.tab.Keys }

  /** The tables below the root on the way to a guest page. */
  ghost function Way(g: nat): (s: set<Node>) {
    {Home(3, Slot(3, g)), Home(2, Slot(2, g)), Home(1, Slot(1, g))}
  }

  ghost function Ways(g: nat, n: nat): (s: set<Node>) {
    if n == 0 then {} else Ways(g, n - 1) + Way(g + n - 1)
  }

  /** Before an entry of the range is found that cannot be locked, more tables are needed than there are pages for. */
  ghost predicate RunsOut(t: Tree, g: nat, n: nat) {
    exists i: nat | i < n :: AllLock(t, g, i) && |t.pool| < |Ways(g, i + 1) - Tables(t)|
  }

  ghost predicate AllLock(t: Tree, g: nat, n: nat) {
    forall h: nat | In(h, g, n) :: LockToMap(Abs(t, h)).Ok?
  }

  /** The tables for the first `i` pages have been put in, and nothing else was taken from the pool. */
  ghost predicate Spent(t: Tree, r: Tree, g: nat, i: nat) {
    Tables(r) == Tables(t) + Ways(g, i) && |r.pool| == |t.pool| - |Ways(g, i) - Tables(t)|
  }

  lemma SpentNothing(t: Tree, g: nat)
    ensures Spent(t, t, g, 0)
  {
    assert Tables(t) + {} == Tables(t);
  }

  lemma CountMissing(a: Node, b: Node, c: Node, k: set<Node>)
    requires a != b && b != c && a != c && (b in k ==> a in k) && (c in k ==> b in k)
    ensures |{a, b, c} - k| == if a !in k then 3 else if b !in k then 2 else if c !in k then 1 else 0
  {
    var s := {a, b, c} - k;
    if a !in k { assert s == {a, b, c}; }
    else if b !in k { assert s == {b, c}; }
    else if c !in k { assert s == {c}; }
    else { assert s == {}; }
  }

  lemma MissingIs(t: Tree, g: nat)
    requires TreeOk(t)
    ensures Missing(t, g) == |Way(g) - Tables(t)|
  {
    hide TreeOk, Slot;
    var a, b, c := Home(3, Slot(3, g)), Home(2, Slot(2, g)), Home(1, Slot(1, g));
    if b in t.tab { GuestPageTables.Above(t, 2, g); }
    if c in t.tab { GuestPageTables.Above(t, 1, g); }
    CountMissing(a, b, c, Tables(t));
  }

  lemma CountParts(a: set<Node>, b: set<Node>, k: set<Node>)
    ensures |a + b - k| == |a - k| + |b - (k + a)|
  {
    assert a + b - k == (a - k) + (b - (k + a));
  }

  lemma WaysNext(g: nat, i: nat)
    ensures Ways(g, i + 1) == Ways(g, i) + Way(g + i)
  {
  }

  lemma SpendsMore(t: Tree, now: Tree, g: nat, i: nat)
    requires TreeOk(now) && Spent(t, now, g, i)
    ensures |Ways(g, i + 1) - Tables(t)| == |Ways(g, i) - Tables(t)| + Missing(now, g + i)
  {
    hide TreeOk, Missing, Way, Ways, Tables;
    MissingIs(now, g + i);
    WaysNext(g, i);
    var a, b, k := Ways(g, i), Way(g + i), Tables(t);
    CountParts(a, b, k);
  }

  lemma SpentMore(t: Tree, now: Tree, r: Tree, g: nat, i: nat)
    requires TreeOk(r) && Spent(t, now, g, i) && Grown(now, r) && NewOnPath(now, r, g + i) && Missing(r, g + i) == 0
    requires |Ways(g, i + 1) - Tables(t)| == |Ways(g, i) - Tables(t)| + Missing(now, g + i)
    requires |r.pool| == |now.pool| - Missing(now, g + i)
    ensures Spent(t, r, g, i + 1)
  {
    hide TreeOk, Missing, Way, Ways, Grown, NewOnPath, Tables;
    TablesAdded(now, r, g + i);
    WaysNext(g, i);
    var a, b, k := Ways(g, i), Way(g + i), Tables(t);
    Joined(k, a, b);
  }

  lemma Joined(k: set<Node>, a: set<Node>, b: set<Node>)
    ensures k + a + b == k + (a + b)
  {
  }

  lemma TablesAdded(now: Tree, r: Tree, g: nat)
    requires TreeOk(r) && Grown(now, r) && NewOnPath(now, r, g) && Missing(r, g) == 0
    ensures Tables(r) == Tables(now) + Way(g)
  {
    hide TreeOk, Missing, Way, Slot;
    MissingIs(r, g);
    var none := Way(g) - Tables(r);
    assert none == {};
    forall d | d in Way(g) ensures d in r.tab {
      assert d !in none;
    }
    forall d | d in r.tab && d !in now.tab ensures d in Way(g) {
      PathIsWay(d, g);
    }
  }

  lemma PathIsWay(d: Node, g: nat)
    requires 1 <= d.level < 4 && d == Node(d.level, Slot(d.level + 1, g))
    ensures d in Way(g)
  {
    SlotUp(d.level, g);
  }

  /** What locking one more entry means for the pages that are left. */
  lemma Accounted(t: Tree, now: Tree, r: Tree, g: nat, n: nat, i: nat, l: Result<()>)
    requires i < n && Spent(t, now, g, i) && TreeOk(now) && TreeOk(r) && Grown(now, r) && NewOnPath(now, r, g + i)
    requires forall h: nat | In(h, g, i) :: LockToMap(Abs(t, h)).Ok?
    requires l == Err(InsufficientPtePages) <==> |now.pool| < Missing(now, g + i)
    requires l != Err(InsufficientPtePages) ==>
               && Same(l, LockToMap(Abs(t, g + i))) && |r.pool| == |now.pool| - Missing(now, g + i)
                  && Missing(r, g + i) == 0
    ensures l == Err(InsufficientPtePages) ==> RunsOut(t, g, n)
    ensures l != Err(InsufficientPtePages) ==> Spent(t, r, g, i + 1)
    ensures l.Err? && l != Err(InsufficientPtePages) ==> !RunsOut(t, g, n)
  {
    hide TreeOk, Missing, Ways, Grown, NewOnPath, Abs, LockToMap, Spent, RunsOut, Tables;
    SpendsMore(t, now, g, i);
    if l == Err(InsufficientPtePages) {
      OutAt(t, now, g, n, i);
    } else {
      SpentMore(t, now, r, g, i);
      if l.Err? { EnoughUpTo(t, r, g, n, i + 1); }
    }
  }

  lemma OutAt(t: Tree, now: Tree, g: nat, n: nat, i: nat)
    requires i < n && Spent(t, now, g, i) && |now.pool| < Missing(now, g + i)
    requires |Ways(g, i + 1) - Tables(t)| == |Ways(g, i) - Tables(t)| + Missing(now, g + i)
    requires forall h: nat | In(h, g, i) :: LockToMap(Abs(t, h)).Ok?
    ensures RunsOut(t, g, n)
  {
    hide Ways, Abs, LockToMap, Missing, Tables;
    assert AllLock(t, g, i);
  }

  lemma {:induction false} WaysGrow(g: nat, i: nat, j: nat)
    requires i <= j
    ensures Ways(g, i) <= Ways(g, j)
    decreases j - i
  {
    if i < j { WaysGrow(g, i, j - 1); }
  }

  lemma Fewer(a: set<Node>, b: set<Node>)
    requires a <= b
    ensures |a| <= |b|
  {
    assert b == a + (b - a);
  }

  /** The pages sufficed for the first `j` entries, and one of them could not be locked or there are no more. */
  lemma EnoughUpTo(t: Tree, r: Tree, g: nat, n: nat, j: nat)
    requires Spent(t, r, g, j) && j <= n && (j == n || (j > 0 && LockToMap(Abs(t, g + j - 1)).Err?))
    ensures !RunsOut(t, g, n)
  {
    hide Ways, Abs, LockToMap, AllLock, Tables;
    forall i: nat | i < n && AllLock(t, g, i) ensures |t.pool| >= |Ways(g, i + 1) - Tables(t)| {
      if i >= j {
        LocksNot(t, g, i, j);
      } else {
        WaysGrow(g, i + 1, j);
        Fewer(Ways(g, i + 1) - Tables(t), Ways(g, j) - Tables(t));
      }
    }
  }

  lemma LocksNot(t: Tree, g: nat, i: nat, j: nat)
    requires 0 < j <= i && LockToMap(Abs(t, g + j - 1)).Err?
    ensures !AllLock(t, g, i)
  {
    hide Abs, LockToMap;
    assert In(g + j - 1, g, i);
  }

  /** If all tables were for a window that includes the range, they still are. */
  ghost predicate TablesFor(t: Tree, r: Tree, g: nat, n: nat) {
    forall a: nat, m: nat | m > 0 && a <= g && g + n <= a + m && OnlyFor(t, a, m) :: OnlyFor(r, a, m)
  }

  lemma StillFor(t: Tree, r: Tree, s: Tree, g: nat, n: nat, h: nat)
    requires TablesFor(t, r, g, n) && Grown(r, s) && NewOnPath(r, s, h) && In(h, g, n)
    ensures TablesFor(t, s, g, n)
  {
    hide OnlyFor, NewOnPath;
    forall a: nat, m: nat | m > 0 && a <= g && g + n <= a + m && OnlyFor(t, a, m) ensures OnlyFor(s, a, m) {
      OnlyForKept(r, s, h, a, m);
    }
  }

  lemma SameTables(t: Tree, r: Tree, s: Tree, g: nat, n: nat)
    requires r == t || TablesFor(t, r, g, n)
    requires s.tab == r.tab
    ensures TablesFor(t, s, g, n)
  {
  }

  lemma Relock(t: Tree, r: Tree, g: nat, i: nat)
    requires RangeBecomes(t, r, g, i, Locks) && NoZeroLeaf(t)
    requires forall h: nat | In(h, g, i) :: LockToMap(Abs(t, h)).Ok?
    ensures forall h: nat | In(h, g, i) :: Unlock(Abs(r, h)) == Abs(t, h)
  {
    hide Abs;
    forall h: nat | In(h, g, i) ensures Unlock(Abs(r, h)) == Abs(t, h) {
      assert Abs(r, h) == Lock(Abs(t, h));
      UnlockUndoesLock(Abs(t, h));
    }
  }

  lemma Undone(t: Tree, r: Tree, s: Tree, g: nat, i: nat)
    requires RangeBecomes(t, r, g, i, Locks) && RangeBecomes(r, s, g, i, Unlocks)
    requires forall h: nat | In(h, g, i) :: Unlock(Abs(r, h)) == Abs(t, h)
    ensures SameAbs(t, s)
  {
    hide Abs;
  }

  /** A range that is locked, mapped in part and then given up: what was mapped is there, and every other entry is
      as it was before. */
  lemma MapThenDrop(t: Tree, r: Tree, u: Tree, s: Tree, g: nat, n: nat, mapped: map<nat, Pfn>)
    requires RangeBecomes(t, r, g, n, Locks) && NoZeroLeaf(t) && forall h: nat | In(h, g, n) :: LockToMap(Abs(t, h)).Ok?
    requires forall h | h in mapped :: In(h, g, n)
    requires forall h: nat :: Abs(u, h) == if h in mapped then Leaf(mapped[h]) else Abs(r, h)
    requires RangeBecomes(u, s, g, n, Unlocks)
    ensures forall h: nat :: Abs(s, h) == if h in mapped then Leaf(mapped[h]) else Abs(t, h)
  {
    hide Abs;
    Relock(t, r, g, n);
    forall h: nat ensures Abs(s, h) == if h in mapped then Leaf(mapped[h]) else Abs(t, h) {
      assert Abs(s, h) == if In(h, g, n) then Unlock(Abs(u, h)) else Abs(u, h);
      assert Abs(r, h) == if In(h, g, n) then Lock(Abs(t, h)) else Abs(t, h);
    }
  }
}
