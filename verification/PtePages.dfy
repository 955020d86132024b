/** How many page-table pages the mapping of a window of guest pages can take, against the estimate that
    callers use to provide them. */
module PtePages {
  import opened RadixTrees
  import opened GuestPageTables

  /** max_pte_pages for Sv48x4. */
  function MaxPtePages(n: nat): (r: nat) {
    var l1 := n / 512 + 1;
    var l2 := l1 / 512 + 1;
    var l3 := l2 / 512 + 1;
    l1 + l2 + l3 + 4
  }

  /** Every table below the root is on the way to a guest page of the window. */
  ghost predicate OnlyFor(t: Tree, a: nat, n: nat)
    requires n > 0
  {
    forall d | d in t.tab && d.level < 4 ::
      1 <= d.level && Slot(d.level + 1, a) <= d.number <= Slot(d.level + 1, a + n - 1)
  }

  lemma SlotMonotone(l: nat, g: nat, h: nat)
    requires 1 <= l <= 4 && g <= h
    ensures Slot(l, g) <= Slot(l, h)
  {
  }

  /** Mapping a guest page of the window adds tables for the window only. */
  lemma OnlyForKept(t: Tree, r: Tree, g: nat, a: nat, n: nat)
    requires a <= g < a + n && OnlyFor(t, a, n) && NewOnPath(t, r, g)
    requires forall d | d in r.tab && d in t.tab :: r.tab[d] == t.tab[d]
    ensures OnlyFor(r, a, n)
  {
    hide Slot;
    forall d | d in r.tab && d.level < 4
      ensures 1 <= d.level && Slot(d.level + 1, a) <= d.number <= Slot(d.level + 1, a + n - 1)
    {
      if d !in t.tab {
        SlotMonotone(d.level + 1, a, g);
        SlotMonotone(d.level + 1, g, a + n - 1);
      }
    }
  }

  ghost function AtLevel(t: Tree, l: nat): (s: set<Node>) {
    set d | d in t.tab && d.level == l
  }

  ghost function BelowRoot(t: Tree): (s: set<Node>) {
    set d | d in t.tab && d.level < 4
  }

  lemma {:induction false} CountInRange(s: set<Node>, l: nat, lo: nat, hi: nat)
    requires lo <= hi && forall d | d in s :: d.level == l && lo <= d.number < hi
    ensures |s| <= hi - lo
    decreases hi - lo
  {
    if lo == hi {
      assert s == {};
    } else {
      var last := Node(l, hi - 1);
      CountInRange(s - {last}, l, lo, hi - 1);
      assert s <= (s - {last}) + {last};
      assert |s| <= |s - {last}| + 1;
    }
  }

  /** Per level, the tables for a window of `n` pages number at most one more than the estimate says. */
  lemma LevelBound(t: Tree, l: nat, a: nat, n: nat)
    requires n > 0 && OnlyFor(t, a, n) && 1 <= l < 4
    ensures |AtLevel(t, l)| <= Slot(l + 1, n - 1) + 2
  {
    SlotMonotone(l + 1, a, a + n - 1);
    CountInRange(AtLevel(t, l), l, Slot(l + 1, a), Slot(l + 1, a + n - 1) + 1);
    SlotSpan(l + 1, a, n - 1);
  }

  lemma SlotSpan(l: nat, a: nat, b: nat)
    requires 1 <= l <= 4
    ensures Slot(l, a + b) <= Slot(l, a) + Slot(l, b) + 1
  {
  }

  lemma Estimate(n: nat)
    requires n > 0
    ensures Slot(2, n - 1) + Slot(3, n - 1) + Slot(4, n - 1) + 6 <= MaxPtePages(n) - 1
  {
    var l1 := n / 512 + 1;
    var l2 := l1 / 512 + 1;
    assert (n - 1) / 512 + 1 <= l1;
    assert (n - 1) / 0x4_0000 + 1 <= l2;
    assert (n - 1) / 0x800_0000 + 1 <= l2 / 512 + 1;
  }

  /** However a window of `n` guest pages lies, the tables below the root that its mappings need are fewer
      than the estimate. */
  lemma TablesWithinEstimate(t: Tree, a: nat, n: nat)
    requires n > 0 && OnlyFor(t, a, n)
    ensures |BelowRoot(t)| < MaxPtePages(n)
  {
    hide Slot, MaxPtePages, OnlyFor;
    LevelBound(t, 1, a, n);
    LevelBound(t, 2, a, n);
    LevelBound(t, 3, a, n);
    Estimate(n);
    LevelsCover(t, a, n);
    var x, y, z := AtLevel(t, 1), AtLevel(t, 2), AtLevel(t, 3);
    assert |x + y| <= |x| + |y|;
    assert |x + y + z| <= |x + y| + |z|;
  }

  lemma LevelsCover(t: Tree, a: nat, n: nat)
    requires n > 0 && OnlyFor(t, a, n)
    ensures BelowRoot(t) == AtLevel(t, 1) + AtLevel(t, 2) + AtLevel(t, 3)
  {
  }

  /* ---------------- The root as well ---------------- */

  /** Every guest page of the window has its entry, and the tables on the way to it. */
  ghost predicate Full(t: Tree, a: nat, n: nat) {
    forall g: nat | a <= g < a + n :: HasWay(t, g)
  }

  ghost predicate HasWay(t: Tree, g: nat) {
    Node(1, Slot(2, g)) in t.tab && Node(2, Slot(3, g)) in t.tab && Node(3, Slot(4, g)) in t.tab
  }

  /** How many more entries of the level above the last page of the window has than the first. */
  function Span(l: nat, a: nat, n: nat): (d: nat)
    requires 1 <= l < 4 && n > 0
  {
    SlotMonotone(l + 1, a, a + n - 1);
    Slot(l + 1, a + n - 1) - Slot(l + 1, a)
  }

  lemma {:induction false} CountRange(s: set<Node>, l: nat, lo: nat, hi: nat)
    requires lo <= hi && forall d :: d in s <==> d.level == l && lo <= d.number < hi
    ensures |s| == hi - lo
    decreases hi - lo
  {
    if lo == hi {
      assert s == {};
    } else {
      var last := Node(l, hi - 1);
      CountRange(s - {last}, l, lo, hi - 1);
      assert s == (s - {last}) + {last};
    }
  }

  /** A page of the window below table `j` of a level. */
  lemma PageBelow(l: nat, a: nat, n: nat, j: nat) returns (g: nat)
    requires 1 <= l < 4 && n > 0 && Slot(l + 1, a) <= j <= Slot(l + 1, a + n - 1)
    ensures a <= g < a + n && Slot(l + 1, g) == j
  {
    var first := j * if l == 1 then 512 else if l == 2 then 0x4_0000 else 0x800_0000;
    g := if first < a then a else first;
  }

  lemma LevelCount(t: Tree, l: nat, a: nat, n: nat)
    requires n > 0 && OnlyFor(t, a, n) && Full(t, a, n) && 1 <= l < 4
    ensures |AtLevel(t, l)| == Span(l, a, n) + 1
  {
    hide Slot;
    var lo, hi := Slot(l + 1, a), Slot(l + 1, a + n - 1);
    forall d ensures d in AtLevel(t, l) <==> d.level == l && lo <= d.number < hi + 1 {
      if d.level == l && lo <= d.number <= hi {
        var g := PageBelow(l, a, n, d.number);
        assert HasWay(t, g) && d == Node(l, Slot(l + 1, g));
      }
    }
    SlotMonotone(l + 1, a, a + n - 1);
    CountRange(AtLevel(t, l), l, lo, hi + 1);
  }

  lemma RootCount(t: Tree)
    requires NodesOk(t)
    ensures |AtLevel(t, 4)| == 4
  {
    forall d ensures d in AtLevel(t, 4) <==> d.level == 4 && 0 <= d.number < 4 {
      if d.level == 4 && d.number < 4 { assert d == Node(4, d.number); }
    }
    CountRange(AtLevel(t, 4), 4, 0, 4);
  }

  /** The number of pages of a table that maps a whole window, with those of the root. */
  lemma TablesOfWindow(t: Tree, a: nat, n: nat)
    requires n > 0 && NodesOk(t) && OnlyFor(t, a, n) && Full(t, a, n)
    ensures |t.tab| == Span(1, a, n) + Span(2, a, n) + Span(3, a, n) + 7
  {
    hide Slot, Span, OnlyFor, Full;
    LevelCount(t, 1, a, n);
    LevelCount(t, 2, a, n);
    LevelCount(t, 3, a, n);
    RootCount(t);
    LevelsAre(t);
  }

  lemma LevelsAre(t: Tree)
    requires NodesOk(t)
    ensures |t.tab| == |AtLevel(t, 1)| + |AtLevel(t, 2)| + |AtLevel(t, 3)| + |AtLevel(t, 4)|
  {
    var x, y, z, r := AtLevel(t, 1), AtLevel(t, 2), AtLevel(t, 3), AtLevel(t, 4);
    assert t.tab.Keys == x + y + z + r;
    assert x !! y && (x + y) !! z && (x + y + z) !! r;
    assert |x + y| == |x| + |y| && |x + y + z| == |x + y| + |z| && |x + y + z + r| == |x + y + z| + |r|;
  }

  /** The estimate covers the root too if and only if the window does not cross too many boundaries between
      tables: this can be told from where it begins and how long it is. */
  lemma EstimateCoversRootIff(t: Tree, a: nat, n: nat)
    requires n > 0 && NodesOk(t) && OnlyFor(t, a, n) && Full(t, a, n)
    ensures |t.tab| <= MaxPtePages(n) <==>
            Span(1, a, n) + Span(2, a, n) + Span(3, a, n)
            <= n / 512 + (n / 512 + 1) / 512 + ((n / 512 + 1) / 512 + 1) / 512
  {
    hide Span;
    TablesOfWindow(t, a, n);
  }

  /** Two pages on either side of a boundary of all levels: the estimate falls short. */
  lemma EstimateLeavesOutRoot(t: Tree)
    requires NodesOk(t) && OnlyFor(t, 0x800_0000 - 1, 2) && Full(t, 0x800_0000 - 1, 2)
    ensures |BelowRoot(t)| < MaxPtePages(2) < |t.tab|
  {
    TablesWithinEstimate(t, 0x800_0000 - 1, 2);
    EstimateCoversRootIff(t, 0x800_0000 - 1, 2);
  }

  /** For a window at the start of the address space it is always enough. */
  lemma EstimateCoversRootAtZero(t: Tree, n: nat)
    requires n > 0 && NodesOk(t) && OnlyFor(t, 0, n) && Full(t, 0, n)
    ensures |t.tab| <= MaxPtePages(n)
  {
    EstimateCoversRootIff(t, 0, n);
    assert (n - 1) / 512 <= n / 512 && (n - 1) / 0x4_0000 <= (n / 512 + 1) / 512;
    assert (n - 1) / 0x800_0000 <= ((n / 512 + 1) / 512 + 1) / 512;
  }
}
