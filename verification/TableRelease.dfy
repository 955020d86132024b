/** Giving a page table up: every page it refers to is released once, and so is every page that holds a part
    of it. */
module TableRelease {
  import opened Ptes
  import opened RadixTrees
  import opened GuestPageTables
  import opened PtePages

  /** A release of the page at guest page `g`, or of a table. */
  datatype Freed = PageFreed(g: nat, pfn: Pfn) | TableFreed(table: Node, pfn: Pfn)

  /** The pages released for `k` entries of level `l` from entry `n` on, in order: a table goes after
      everything it refers to. */
  ghost function Entries(t: Tree, l: nat, n: nat, k: nat): (r: seq<Freed>)
    decreases l, k, 0
  {
    if k == 0 then [] else EntryFreed(t, l, n) + Entries(t, l, n + 1, k - 1)
  }

  ghost function EntryFreed(t: Tree, l: nat, n: nat): (r: seq<Freed>)
    decreases l, 0, 1
  {
    match EntryOf(t, l, n)
    case Table(p) => if l > 1 then Entries(t, l - 1, n * 512, 512) + [TableFreed(Node(l - 1, n), p)] else []
    case Leaf(p) => [PageFreed(n, p)]
    case Invalidated(p) => [PageFreed(n, p)]
    case _ => []
  }

  ghost predicate AllSlots(t: Tree, l: nat, n: nat, k: nat) {
    forall m: nat | n <= m < n + k :: HasSlot(t, l, m)
  }

  /* ---------------- Pages ---------------- */

  /** The table holds page `p` at guest page `g`. */
  ghost predicate HoldsPage(t: Tree, g: nat, p: Pfn) {
    (Abs(t, g).Leaf? || Abs(t, g).Invalidated?) && Abs(t, g).pfn == p
  }

  lemma SlotDown(l: nat, g: nat, n: nat)
    requires 1 < l <= 4
    ensures n * 512 <= Slot(l - 1, g) < n * 512 + 512 <==> Slot(l, g) == n
  {
    SlotUp(l - 1, g);
  }

  /** One entry releases the pages of the guest pages below it, each once. */
  lemma {:induction false} EntryPages(t: Tree, l: nat, n: nat, g: nat, p: Pfn)
    requires TreeOk(t) && 1 <= l <= 4 && HasSlot(t, l, n) && g < LIMIT
    ensures multiset(EntryFreed(t, l, n))[PageFreed(g, p)] == if Slot(l, g) == n && HoldsPage(t, g, p) then 1 else 0
    decreases l, 0, 1
  {
    hide Decode, Word, Slot, TreeOk, Home, Entries, AllSlots, EntryOf, Abs;
    if l == 1 {
      SlotOne(g);
      LeafSlot(t, n);
    } else {
      PointsIff(t, l, n);
      SlotDown(l, g, n);
      if EntryOf(t, l, n).Table? {
        Below(t, l, n);
        RangePages(t, l - 1, n * 512, 512, g, p);
        var inner := Entries(t, l - 1, n * 512, 512);
        var last := TableFreed(Node(l - 1, n), EntryOf(t, l, n).pfn);
        assert multiset(inner + [last]) == multiset(inner) + multiset([last]);
      } else if Slot(l, g) == n {
        SlotHome(l - 1, g);
        NoTableBelow(t, l - 1, g);
        NoEntry(t, g);
      }
    }
  }

  lemma NoEntry(t: Tree, g: nat)
    requires !HasSlot(t, 1, g)
    ensures Abs(t, g) == Unused
  {
  }

  lemma SlotOne(g: nat)
    ensures Slot(1, g) == g
  {
  }

  lemma LeafSlot(t: Tree, g: nat)
    requires TreeOk(t) && HasSlot(t, 1, g)
    ensures Abs(t, g) == EntryOf(t, 1, g) && !EntryOf(t, 1, g).Table?
  {
  }

  /** The entries of the table that an entry points to exist. */
  lemma Below(t: Tree, l: nat, n: nat)
    requires TreeOk(t) && 1 < l <= 4 && HasSlot(t, l, n) && EntryOf(t, l, n).Table?
    ensures AllSlots(t, l - 1, n * 512, 512)
  {
    hide Decode, Word;
    PointsIff(t, l, n);
    var k := l - 1;
    forall m: nat | n * 512 <= m < n * 512 + 512 ensures HasSlot(t, k, m) {
      assert m / 512 == n;
    }
  }

  lemma {:induction false} RangePages(t: Tree, l: nat, n: nat, k: nat, g: nat, p: Pfn)
    requires TreeOk(t) && 1 <= l <= 4 && g < LIMIT && AllSlots(t, l, n, k)
    ensures multiset(Entries(t, l, n, k))[PageFreed(g, p)] == if n <= Slot(l, g) < n + k && HoldsPage(t, g, p) then 1
            else 0
    decreases l, k, 0
  {
    hide Decode, Word, Slot, TreeOk, Home, HasSlot, HoldsPage, EntryFreed;
    if k > 0 {
      EntryPages(t, l, n, g, p);
      RangePages(t, l, n + 1, k - 1, g, p);
      var a, b := EntryFreed(t, l, n), Entries(t, l, n + 1, k - 1);
      assert multiset(a + b) == multiset(a) + multiset(b);
    }
  }

  /* ---------------- Tables ---------------- */

  /** The first guest page below table `d`. */
  function First(d: Node): (g: nat) {
    if d.level == 1 then d.number * 512 else if d.level == 2 then d.number * 0x4_0000 else d.number * 0x800_0000
  }

  lemma FirstSlot(d: Node)
    requires 1 <= d.level < 4 && d.number < MaxTables(d.level)
    ensures Slot(d.level + 1, First(d)) == d.number && First(d) < LIMIT
  {
  }

  /** The tables between `d` and the root exist. */
  lemma {:induction false} Ancestor(t: Tree, d: Node, l: nat)
    requires TreeOk(t) && d in t.tab && d.level < 4 && d.level <= l < 4
    ensures Node(l, Slot(l + 1, First(d))) in t.tab
    decreases l
  {
    hide Decode, Word;
    FirstSlot(d);
    if l > d.level {
      Ancestor(t, d, l - 1);
      var e := Node(l - 1, Slot(l, First(d)));
      assert HasSlot(t, l, e.number);
      SlotHome(l, First(d));
    }
  }

  /** A window whose entries all exist has all the tables on the way to them. */
  lemma EntriesHaveTables(t: Tree, a: nat, n: nat)
    requires TreeOk(t) && a + n <= LIMIT && forall g: nat | a <= g < a + n :: HasSlot(t, 1, g)
    ensures Full(t, a, n)
  {
    hide TreeOk, Slot, First;
    forall g: nat | a <= g < a + n ensures HasWay(t, g) {
      var d := Node(1, g / 512);
      assert HasSlot(t, 1, g) && d in t.tab;
      SameWay(g, 1);
      SameWay(g, 2);
      SameWay(g, 3);
      Ancestor(t, d, 1);
      Ancestor(t, d, 2);
      Ancestor(t, d, 3);
    }
  }

  lemma SameWay(g: nat, l: nat)
    requires 1 <= l < 4
    ensures Slot(l + 1, First(Node(1, g / 512))) == Slot(l + 1, g)
  {
  }

  ghost predicate HoldsTable(t: Tree, d: Node, p: Pfn) {
    d in t.tab && d.level < 4 && t.tab[d] == p
  }

  lemma {:induction false} EntryTables(t: Tree, l: nat, n: nat, d: Node, p: Pfn)
    requires TreeOk(t) && 1 <= l <= 4 && HasSlot(t, l, n) && 1 <= d.level < 4 && d.number < MaxTables(d.level)
    ensures multiset(EntryFreed(t, l, n))[TableFreed(d, p)] ==
            if d.level < l && Slot(l, First(d)) == n && HoldsTable(t, d, p) then 1 else 0
    decreases l, 0, 1
  {
    hide Decode, Word, Slot, TreeOk, Home, First, Entries, AllSlots, EntryOf, Abs;
    if l == 1 {
      LeafSlot(t, n);
    } else {
      hide HoldsTable, HasSlot;
      FirstSlot(d);
      SlotDown(l, First(d), n);
      if EntryOf(t, l, n).Table? {
        Below(t, l, n);
        RangeTables(t, l - 1, n * 512, 512, d, p);
        var inner := Entries(t, l - 1, n * 512, 512);
        var last := TableFreed(Node(l - 1, n), EntryOf(t, l, n).pfn);
        assert multiset(inner + [last]) == multiset(inner) + multiset([last]);
        OwnTable(t, l, n, d, p);
      } else if d.level < l && Slot(l, First(d)) == n {
        NotHeld(t, l, n, d, p);
      }
    }
  }

  /** The table that an entry points to is the one of its number, one level down. */
  lemma OwnTable(t: Tree, l: nat, n: nat, d: Node, p: Pfn)
    requires TreeOk(t) && 1 < l <= 4 && HasSlot(t, l, n) && EntryOf(t, l, n).Table?
    requires 1 <= d.level < 4 && d.number < MaxTables(d.level)
    ensures TableFreed(d, p) == TableFreed(Node(l - 1, n), EntryOf(t, l, n).pfn) <==>
            d.level == l - 1 && Slot(l, First(d)) == n && HoldsTable(t, d, p)
  {
    hide Decode, Word, Slot, TreeOk, Home, First, EntryOf, HasSlot;
    PointsIff(t, l, n);
    FirstSlot(d);
  }

  /** Below an entry that points to no table, there is none. */
  lemma NotHeld(t: Tree, l: nat, n: nat, d: Node, p: Pfn)
    requires TreeOk(t) && 1 < l <= 4 && HasSlot(t, l, n) && !EntryOf(t, l, n).Table?
    requires 1 <= d.level < l && d.level < 4 && Slot(l, First(d)) == n
    ensures !HoldsTable(t, d, p)
  {
    hide Decode, Word, Slot, TreeOk, Home, First, EntryOf, HasSlot;
    PointsIff(t, l, n);
    if d in t.tab { Ancestor(t, d, l - 1); }
  }

  lemma {:induction false} RangeTables(t: Tree, l: nat, n: nat, k: nat, d: Node, p: Pfn)
    requires TreeOk(t) && 1 <= l <= 4 && AllSlots(t, l, n, k)
    requires 1 <= d.level < 4 && d.number < MaxTables(d.level)
    ensures multiset(Entries(t, l, n, k))[TableFreed(d, p)] ==
            if d.level < l && n <= Slot(l, First(d)) < n + k && HoldsTable(t, d, p) then 1 else 0
    decreases l, k, 0
  {
    hide Decode, Word, Slot, TreeOk, Home, HasSlot, HoldsTable, First, EntryFreed;
    if k > 0 {
      EntryTables(t, l, n, d, p);
      RangeTables(t, l, n + 1, k - 1, d, p);
      var a, b := EntryFreed(t, l, n), Entries(t, l, n + 1, k - 1);
      assert multiset(a + b) == multiset(a) + multiset(b);
    }
  }

  /* ---------------- The whole table ---------------- */

  /** All that is released below the root. */
  ghost function AllFreed(t: Tree): (r: seq<Freed>) {
    Entries(t, 4, 0, 2048)
  }

  lemma RootSlots(t: Tree)
    requires TreeOk(t)
    ensures AllSlots(t, 4, 0, 2048)
  {
    forall m: nat | 0 <= m < 2048 ensures HasSlot(t, 4, m) {
      assert Node(4, m / 512) in t.tab;
    }
  }

  /** Every page that an entry holds, mapped or invalidated, is released exactly once for that entry, and
      every table but the pages of the root exactly once; nothing else is. */
  lemma ReleasedOnce(t: Tree, g: nat, d: Node, p: Pfn)
    requires TreeOk(t) && g < LIMIT && 1 <= d.level < 4 && d.number < MaxTables(d.level)
    ensures multiset(AllFreed(t))[PageFreed(g, p)] == if HoldsPage(t, g, p) then 1 else 0
    ensures multiset(AllFreed(t))[TableFreed(d, p)] == if HoldsTable(t, d, p) then 1 else 0
  {
    hide Decode, Word, TreeOk, Home, HasSlot, HoldsTable, HoldsPage, Entries;
    RootSlots(t);
    RangePages(t, 4, 0, 2048, g, p);
    RangeTables(t, 4, 0, 2048, d, p);
    FirstSlot(d);
  }

  /** release_pages, from the table in `page`, whose entries are `count` from entry `n` of the level on. */
  method ReleasePages(t: PageTableInner, level: nat, n: nat, count: nat, page: Pfn) returns (freed: seq<Freed>)
    requires t.Valid() && 1 <= level < 4 && n % 512 == 0 && count == 512 && Node(level, n / 512) in t.tab
             && page == t.tab[Node(level, n / 512)]
    ensures freed == Entries(t.View(), level, n, count)
    decreases level
  {
    hide Decode, TreeOk, NoZeroLeaf, Entries, EntryOf, HasSlot;
    ghost var v := t.View();
    freed := [];
    NoEntries(v, level, n);
    for i := 0 to count
      invariant freed == Entries(v, level, n, i)
    {
      TableEntry(v, level, n, i);
      EntriesLast(v, level, n, i);
      var e := Decode(t.mem[page][i]);
      if e.Table? {
        if level > 1 {
          PointsIff(v, level, n + i);
          assert (n + i) * 512 % 512 == 0 && (n + i) * 512 / 512 == n + i;
          var below := ReleasePages(t, level - 1, (n + i) * 512, 512, e.pfn);
          freed := freed + below + [TableFreed(Node(level - 1, n + i), e.pfn)];
        }
      } else if e.Leaf? || e.Invalidated? {
        freed := freed + [PageFreed(n + i, e.pfn)];
      }
    }
  }

  /** Drops the whole table: what is released below the root, and then the pages of the root. */
  method DropTable(t: PageTableInner) returns (freed: seq<Freed>, roots: seq<Pfn>)
    requires t.Valid()
    ensures freed == AllFreed(t.View())
    ensures |roots| == 4 && forall k | 0 <= k < 4 :: roots[k] == t.tab[Node(4, k)]
  {
    hide Decode, TreeOk, NoZeroLeaf, Entries;
    ghost var v := t.View();
    freed := [];
    NoEntries(v, 4, 0);
    for i := 0 to 2048
      invariant freed == Entries(v, 4, 0, i)
    {
      RootEntry(v, i);
      EntriesLast(v, 4, 0, i);
      var e := Decode(t.mem[RootPage(t.root, i / 512)][i % 512]);
      if e.Table? {
        PointsIff(v, 4, i);
        assert i * 512 % 512 == 0 && i * 512 / 512 == i;
        var below := ReleasePages(t, 3, i * 512, 512, e.pfn);
        freed := freed + below + [TableFreed(Node(3, i), e.pfn)];
      } else if e.Leaf? || e.Invalidated? {
        freed := freed + [PageFreed(i, e.pfn)];
      }
    }
    RootEntry(v, 0);
    roots := [RootPage(t.root, 0), RootPage(t.root, 1), RootPage(t.root, 2), RootPage(t.root, 3)];
    RootPages(v);
  }

  lemma NoEntries(t: Tree, l: nat, n: nat)
    ensures Entries(t, l, n, 0) == []
  {
  }

  lemma RootPages(t: Tree)
    requires TreeOk(t)
    ensures forall k | 0 <= k < 4 :: Node(4, k) in t.tab && t.tab[Node(4, k)] == RootPage(t.root, k)
  {
  }

  lemma RootEntry(t: Tree, i: nat)
    requires TreeOk(t) && i < 2048
    ensures var p := RootPage(t.root, i / 512);
            p in t.mem && |t.mem[p]| == 512 && HasSlot(t, 4, i) && EntryOf(t, 4, i) == Decode(t.mem[p][i % 512])
  {
    hide Decode;
    assert Home(4, i) == Node(4, i / 512);
  }

  lemma TableEntry(t: Tree, l: nat, n: nat, i: nat)
    requires TreeOk(t) && n % 512 == 0 && i < 512 && Node(l, n / 512) in t.tab
    ensures var p := t.tab[Node(l, n / 512)];
            p in t.mem && |t.mem[p]| == 512 && HasSlot(t, l, n + i) && EntryOf(t, l, n + i) == Decode(t.mem[p][i])
  {
    hide Decode;
    assert (n + i) / 512 == n / 512 && (n + i) % 512 == i;
  }

  lemma {:induction false} EntriesLast(t: Tree, l: nat, n: nat, k: nat)
    ensures Entries(t, l, n, k + 1) == Entries(t, l, n, k) + EntryFreed(t, l, n + k)
    decreases k
  {
    hide EntryOf;
    if k > 0 {
      EntriesLast(t, l, n + 1, k - 1);
      assert n + k == (n + 1) + (k - 1);
    }
  }
}
