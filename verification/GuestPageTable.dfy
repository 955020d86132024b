/** The guest-stage page table as an object: the walk, and the operations on the entry of one guest page. Each
    changes what the table says about that page as described by a function on entries, and says nothing
    new about any other. */
module GuestPageTables {
  import opened Basics
  import opened Ptes
  import opened RadixTrees

  datatype Error = InsufficientPtePages | MappingExists | PageNotMapped | PageNotUnmappable | PageNotConverted
    | PteLocked | PteNotLocked | OutOfMapRange | PredicateFailed | TableEntryNotLeaf | MisalignedPages
      | InsufficientPages

  type Result<+T> = Fallible<T, Error>

  /* ---------------- What the operations do to an entry ---------------- */

  function MapEntry(e: Entry, pfn: Pfn): (r: Result<Entry>) {
    match e
    case LockedUnmapped(_) => Ok(Leaf(pfn))
    case Unused | Invalidated(_) => Err(PteNotLocked)
    case _ => Err(MappingExists)
  }

  function RemapEntry(e: Entry, pfn: Pfn): (r: Result<Entry>) {
    match e
    case LockedMapped(_) => Ok(LockedMapped(pfn))
    case Leaf(_) => Err(PteNotLocked)
    case _ => Err(PageNotMapped)
  }

  function LockToMap(e: Entry): (r: Result<Entry>) {
    match e
    case Unused | Invalidated(_) => Ok(Lock(e))
    case Leaf(_) => Err(MappingExists)
    case _ => Err(PteLocked)
  }

  function LockToRemap(e: Entry): (r: Result<Entry>) {
    match e
    case Leaf(_) => Ok(Lock(e))
    case Unused | Invalidated(_) => Err(PageNotMapped)
    case _ => Err(PteLocked)
  }

  function UnlockEntry(e: Entry): (r: Result<Entry>) {
    match e
    case LockedUnmapped(_) | LockedMapped(_) => Ok(Unlock(e))
    case _ => Err(PteNotLocked)
  }

  function InvalidateEntry(e: Entry): (r: Result<Entry>) {
    match e case Leaf(pfn) => Ok(Invalidated(pfn)) case _ => Err(PageNotMapped)
  }

  function ClearEntry(e: Entry): (r: Result<Entry>) {
    match e case Invalidated(_) => Ok(Unused) case _ => Err(PageNotConverted)
  }

  /** From `t` to `r` the table has changed only at guest page `g`, as `to` says, or not at all. */
  ghost predicate Becomes(t: Tree, r: Tree, g: nat, to: Result<Entry>) {
    forall h :: Abs(r, h) == if h == g && to.Ok? then to.value else Abs(t, h)
  }

  /** Pages that are mapped have a number other than zero. */
  predicate Mappable(p: Pfn) { InRange(p) && p.bits != 0 }

  ghost predicate NoZeroLeaf(t: Tree) {
    forall g :: (Abs(t, g).Leaf? || Abs(t, g).LockedMapped? || Abs(t, g).Invalidated?) ==> Mappable(Abs(t, g).pfn)
  }

  /** The outcome of an operation, apart from the entry it leaves. */
  predicate Same(r: Result<()>, to: Result<Entry>) {
    match to case Ok(_) => r == Ok(()) case Err(e) => r == Err(e)
  }

  class PageTableInner {
    const root: Pfn
    var mem: map<Pfn, seq<bv64>>
    var pool: seq<Pfn>
    ghost var tab: map<Node, Pfn>

    ghost function View(): (t: Tree)
      reads this
    {
      Tree(mem, root, tab, pool)
    }

    ghost predicate Valid()
      reads this
    {
      TreeOk(View()) && NoZeroLeaf(View()) && WordsOk(View())
    }

    /** An empty table: four clean pages in a row for the root, and clean pages for tables to come. */
    constructor (root: Pfn, mem: map<Pfn, seq<bv64>>, pool: seq<Pfn>)
      requires root.bits & 3 == 0 && InRange(root) && Clean(root, mem, pool)
      ensures Valid() && this.root == root && this.mem == mem && this.pool == pool
      ensures forall g :: Abs(View(), g) == Unused
      ensures forall d | d in tab :: d.level == 4
    {
      this.root, this.mem, this.pool := root, mem, pool;
      tab := RootTab(root);
      new;
      hide Decode, TreeOk, NoZeroLeaf, Abs, Clean, InRange, WordsOk;
      EmptyTree(root, mem, pool);
      RootLevels(root);
    }

    /** Walks from the root to the first entry that is not a pointer to a table. */
    method Walk(g: nat) returns (level: nat, page: Pfn, index: nat, entry: Entry)
      requires Valid() && g < LIMIT
      ensures entry == Abs(View(), g) && !entry.Table?
      ensures 1 <= level <= 4 && (level > 1 ==> entry == Unused)
      ensures HasSlot(View(), level, Slot(level, g))
      ensures page == tab[Home(level, Slot(level, g))] && index == Index(Slot(level, g))
      ensures page in mem && index < |mem[page]| && Decode(mem[page][index]) == entry
      ensures level == 1 ==> LeafWordOk(mem[page][index])
    {
      hide Decode, Abs, NoZeroLeaf, TreeOk, Word, Home, Index, Slot, WordsOk, LeafWordOk;
      ghost var t := View();
      RootSlot(t, g);
      level, page, index := 4, RootPage(root, Slot(4, g) / 512), Slot(4, g) % 512;
      entry := Decode(mem[page][index]);
      while entry.Table?
        invariant 1 <= level <= 4 && t == View()
        invariant HasSlot(t, level, Slot(level, g)) && page == tab[Home(level, Slot(level, g))]
                  && index == Index(Slot(level, g))
        invariant page in mem && index < |mem[page]|
                  && entry == Decode(mem[page][index]) == EntryOf(t, level, Slot(level, g))
        decreases level
      {
        Descends(t, level, g);
        WordAt(t, level - 1, Slot(level - 1, g));
        page := entry.pfn;
        level := level - 1;
        index := Slot(level, g) % 512;
        entry := Decode(mem[page][index]);
      }
      Arrived(t, level, g);
      if level == 1 { LeafAt(t, g); }
    }

    /** Writes the entry of guest page `g`, which is at `page` and `index`. */
    method Store(page: Pfn, index: nat, pte: bv64, ghost g: nat)
      requires Valid() && HasSlot(View(), 1, g) && page == tab[Home(1, g)] && index == Index(g)
      requires !Decode(pte).Table? && (Decode(pte).Leaf? || Decode(pte).LockedMapped? || Decode(pte).Invalidated? ==>
                                       Mappable(Decode(pte).pfn))
      requires LeafWordOk(pte)
      modifies this`mem
      ensures Valid() && Becomes(old(View()), View(), g, Ok(Decode(pte))) && mem.Keys == old(mem).Keys
    {
      hide Decode, Abs, TreeOk, WordsOk, LeafWordOk;
      PutKeepsIn(View(), g);
      Stored(View(), g, pte);
      PutWordsOk(View(), g, pte);
      mem := mem[page := mem[page][index := pte]];
    }

    method MapLeaf(g: nat, pfn: Pfn) returns (r: Result<()>)
      requires Valid() && g < LIMIT && Mappable(pfn)
      modifies this`mem
      ensures Valid() && Becomes(old(View()), View(), g, MapEntry(Abs(old(View()), g), pfn))
      ensures Same(r, MapEntry(Abs(old(View()), g), pfn))
    {
      hide Decode, Abs, TreeOk, WordsOk, LeafWordOk;
      var level, page, index, entry := Walk(g);
      match entry
      case LockedUnmapped(_) =>
        SetDecodes(pfn);
        SetWords(pfn);
        Store(page, index, SetPte(pfn, USER_RWX), g);
        return Ok(());
      case Unused => return Err(PteNotLocked);
      case Invalidated(_) => return Err(PteNotLocked);
      case LockedMapped(_) => return Err(MappingExists);
      case Leaf(_) => return Err(MappingExists);
    }

    /** Points a locked mapping to another page; the page it pointed to before. */
    method RemapLeaf(g: nat, pfn: Pfn) returns (r: Result<Pfn>)
      requires Valid() && g < LIMIT && Mappable(pfn)
      modifies this`mem
      ensures Valid() && Becomes(old(View()), View(), g, RemapEntry(Abs(old(View()), g), pfn))
      ensures match RemapEntry(Abs(old(View()), g), pfn)
              case Ok(_) => r == Ok(Abs(old(View()), g).pfn)
              case Err(e) => r == Err(e)
    {
      hide Decode, Abs, TreeOk, WordsOk, LeafWordOk;
      var level, page, index, entry := Walk(g);
      match entry
      case LockedMapped(was) =>
        UpdateDecodes(mem[page][index], pfn);
        UpdateWords(mem[page][index], pfn);
        Store(page, index, UpdatePfn(mem[page][index], pfn), g);
        return Ok(was);
      case LockedUnmapped(_) => return Err(PageNotMapped);
      case Unused => return Err(PageNotMapped);
      case Invalidated(_) => return Err(PageNotMapped);
      case Leaf(_) => return Err(PteNotLocked);
    }

    method LockLeafForRemapping(g: nat) returns (r: Result<()>)
      requires Valid() && g < LIMIT
      modifies this`mem
      ensures Valid() && Becomes(old(View()), View(), g, LockToRemap(Abs(old(View()), g)))
      ensures Same(r, LockToRemap(Abs(old(View()), g)))
    {
      hide Decode, Abs, TreeOk, WordsOk, LeafWordOk;
      var level, page, index, entry := Walk(g);
      match entry
      case Leaf(_) =>
        LockDecodes(mem[page][index]);
        LockWords(mem[page][index]);
        Store(page, index, LockPte(mem[page][index]), g);
        return Ok(());
      case Unused => return Err(PageNotMapped);
      case Invalidated(_) => return Err(PageNotMapped);
      case LockedMapped(_) => return Err(PteLocked);
      case LockedUnmapped(_) => return Err(PteLocked);
    }

    method UnlockLeaf(g: nat) returns (r: Result<()>)
      requires Valid() && g < LIMIT
      modifies this`mem
      ensures Valid() && Becomes(old(View()), View(), g, UnlockEntry(Abs(old(View()), g))) && mem.Keys == old(mem).Keys
      ensures Same(r, UnlockEntry(Abs(old(View()), g)))
    {
      hide Decode, Abs, TreeOk, WordsOk, LeafWordOk;
      var level, page, index, entry := Walk(g);
      if entry.LockedUnmapped? || entry.LockedMapped? {
        LockDecodes(mem[page][index]);
        LockWords(mem[page][index]);
        Store(page, index, UnlockPte(mem[page][index]), g);
        return Ok(());
      }
      return Err(PteNotLocked);
    }

    /** The table below the entry at `page` and `index`, which is put in if it is missing. */
    method NextLevelOrFill(level: nat, page: Pfn, index: nat, ghost g: nat) returns (r: Result<Pfn>)
      requires Valid() && g < LIMIT && 1 < level <= 4 && HasSlot(View(), level, Slot(level, g))
      requires page == tab[Home(level, Slot(level, g))] && index == Index(Slot(level, g))
      modifies this
      ensures Valid() && Grown(old(View()), View()) && SameAbs(old(View()), View()) && NewOnPath(old(View()), View(), g)
      ensures r == Err(InsufficientPtePages) || r.Ok?
      ensures r.Ok? ==>
                && HasSlot(View(), level - 1, Slot(level - 1, g)) && r.value == tab[Home(level - 1, Slot(level - 1, g))]
                && Missing(View(), g) - |pool| == Missing(old(View()), g) - |old(pool)|
      ensures r.Err? ==> View() == old(View()) && pool == [] && Missing(View(), g) > 0
    {
      hide Decode, Abs, TreeOk, Word, Home, Index, Slot, NoZeroLeaf, Grown, SameAbs, Missing, WordsOk;
      ghost var t, d := View(), Node(level - 1, Slot(level, g));
      WordAt(t, level, Slot(level, g));
      PointsIff(t, level, Slot(level, g));
      SlotHome(level - 1, g);
      match Decode(mem[page][index])
      case Table(next) =>
        GrownSelf(t);
        return Ok(next);
      case Unused =>
        if pool == [] {
          MissingSome(t, level - 1, g);
          GrownSelf(t);
          return Err(InsufficientPtePages);
        }
        var pt := pool[0];
        Filled(t, level - 1, g, d);
        AddTableWordsOk(t, d);
        mem := mem[page := mem[page][index := SetPte(pt, NON_LEAF)]];
        pool := pool[1..];
        tab := tab[d := pt];
        assert View() == AddTable(t, d);
        return Ok(pt);
    }

    /** Locks the entry of `g` for mapping, putting in the tables on the way to it that are missing. */
    method LockLeafForMapping(g: nat) returns (r: Result<()>)
      requires Valid() && g < LIMIT
      modifies this
      ensures Valid() && Grown(old(View()), View()) && NewOnPath(old(View()), View(), g)
      ensures r == Err(InsufficientPtePages) <==> |old(pool)| < Missing(old(View()), g)
      ensures if r == Err(InsufficientPtePages) then SameAbs(old(View()), View())
              else
                && Becomes(old(View()), View(), g, LockToMap(Abs(old(View()), g)))
                && Same(r, LockToMap(Abs(old(View()), g)))
                && |pool| == |old(pool)| - Missing(old(View()), g) && Missing(View(), g) == 0
    {
      hide Decode, Abs, TreeOk, Word, Home, Index, Slot, NoZeroLeaf, Grown, Missing, WordsOk, LeafWordOk;
      ghost var t := View();
      RootSlot(t, g);
      GrownSelf(t);
      var level, page, index := 4, RootPage(root, Slot(4, g) / 512), Slot(4, g) % 512;
      while level != 1
        invariant 1 <= level <= 4 && Valid() && Grown(t, View()) && SameAbs(t, View()) && NewOnPath(t, View(), g)
        invariant HasSlot(View(), level, Slot(level, g)) && page == tab[Home(level, Slot(level, g))]
                  && index == Index(Slot(level, g))
        invariant Missing(View(), g) - |pool| == Missing(t, g) - |t.pool|
        decreases level
      {
        ghost var now := View();
        var next := NextLevelOrFill(level, page, index, g);
        GrownTrans(t, now, View());
        if next.Err? { return Err(InsufficientPtePages); }
        level, page := level - 1, next.value;
        index := Slot(level, g) % 512;
        WordAt(View(), level, Slot(level, g));
      }
      Arrived1(View(), g);
      LeafAt(View(), g);
      MissingNone(View(), g);
      WordAt(View(), 1, g);
      ghost var now := View();
      match Decode(mem[page][index])
      case Invalidated(_) =>
        LockDecodes(mem[page][index]);
        LockWords(mem[page][index]);
        Store(page, index, LockPte(mem[page][index]), g);
        GrownStore(t, now, View());
        MissingByTables(now, View(), g);
        return Ok(());
      case Unused =>
        LockDecodes(mem[page][index]);
        LockWords(mem[page][index]);
        Store(page, index, LockPte(mem[page][index]), g);
        GrownStore(t, now, View());
        MissingByTables(now, View(), g);
        return Ok(());
      case LockedMapped(_) => return Err(PteLocked);
      case LockedUnmapped(_) => return Err(PteLocked);
      case Leaf(_) => return Err(MappingExists);
    }

    /** The page mapped at `g`, which is no longer mapped after the call. */
    method InvalidateLeaf(g: nat) returns (r: Result<Pfn>)
      requires Valid() && g < LIMIT
      modifies this`mem
      ensures Valid() && Becomes(old(View()), View(), g, InvalidateEntry(Abs(old(View()), g)))
      ensures r == if Abs(old(View()), g).Leaf? then Ok(Abs(old(View()), g).pfn) else Err(PageNotMapped)
    {
      hide Decode, Abs, TreeOk, WordsOk, LeafWordOk;
      var level, page, index, entry := Walk(g);
      if entry.Leaf? {
        InvalidateDecodes(mem[page][index]);
        InvalidWords(mem[page][index]);
        Store(page, index, InvalidatePte(mem[page][index]), g);
        return Ok(entry.pfn);
      }
      return Err(PageNotMapped);
    }

    /** The page that was mapped at `g` until it was invalidated; the entry is cleared. */
    method ClearLeaf(g: nat) returns (r: Result<Pfn>)
      requires Valid() && g < LIMIT
      modifies this`mem
      ensures Valid() && Becomes(old(View()), View(), g, ClearEntry(Abs(old(View()), g)))
      ensures r == if Abs(old(View()), g).Invalidated? then Ok(Abs(old(View()), g).pfn) else Err(PageNotConverted)
    {
      hide Decode, Abs, TreeOk, WordsOk, LeafWordOk;
      var level, page, index, entry := Walk(g);
      if entry.Invalidated? {
        ZeroDecodes();
        InvalidWords(0);
        Store(page, index, 0, g);
        return Ok(entry.pfn);
      }
      return Err(PageNotConverted);
    }
  }

  /** Where an entry lies in memory. */
  lemma WordAt(t: Tree, l: nat, n: nat)
    requires TreeOk(t) && HasSlot(t, l, n)
    ensures t.tab[Home(l, n)] in t.mem && |t.mem[t.tab[Home(l, n)]]| == 512 && Index(n) == n % 512
    ensures Word(t, l, n) == t.mem[t.tab[Home(l, n)]][Index(n)]
  {
  }

  lemma LeafAt(t: Tree, g: nat)
    requires TreeOk(t) && WordsOk(t) && HasSlot(t, 1, Slot(1, g))
    ensures t.tab[Home(1, Slot(1, g))] in t.mem && Index(Slot(1, g)) < |t.mem[t.tab[Home(1, Slot(1, g))]]|
    ensures LeafWordOk(t.mem[t.tab[Home(1, Slot(1, g))]][Index(Slot(1, g))])
  {
    hide TreeOk, LeafWordOk, Word;
    WordAt(t, 1, g);
  }

  lemma RootSlot(t: Tree, g: nat)
    requires TreeOk(t) && g < LIMIT
    ensures var n := Slot(4, g);
            && HasSlot(t, 4, n) && t.tab[Home(4, n)] == RootPage(t.root, n / 512) && Index(n) == n % 512
            && t.tab[Home(4, n)] in t.mem && |t.mem[t.tab[Home(4, n)]]| == 512
            && Word(t, 4, n) == t.mem[t.tab[Home(4, n)]][Index(n)]
  {
    SlotInRange(4, g);
    assert Home(4, Slot(4, g)) == Node(4, Slot(4, g) / 512);
  }

  /** A pointer to a table leads to the table of the level below, and there is none at level 1. */
  lemma Descends(t: Tree, l: nat, g: nat)
    requires TreeOk(t) && g < LIMIT && 1 <= l <= 4 && HasSlot(t, l, Slot(l, g)) && EntryOf(t, l, Slot(l, g)).Table?
    ensures l > 1 && HasSlot(t, l - 1, Slot(l - 1, g))
    ensures t.tab[Home(l - 1, Slot(l - 1, g))] == EntryOf(t, l, Slot(l, g)).pfn
  {
    hide Decode, Word;
    if l > 1 {
      PointsIff(t, l, Slot(l, g));
      SlotUp(l - 1, g);
      assert Node(l - 1, Slot(l, g)) == Home(l - 1, Slot(l - 1, g));
    }
  }

  /** Above level 1, the entries that point to tables are those of the tables there are. */
  lemma PointsIff(t: Tree, l: nat, n: nat)
    requires TreeOk(t) && 1 < l <= 4 && HasSlot(t, l, n)
    ensures EntryOf(t, l, n).Table? <==> Node(l - 1, n) in t.tab
    ensures Node(l - 1, n) in t.tab ==> EntryOf(t, l, n) == Table(t.tab[Node(l - 1, n)])
    ensures Node(l - 1, n) !in t.tab ==> EntryOf(t, l, n) == Unused
  {
    hide Decode, Word;
  }

  /** An entry that is no pointer to a table says what the table says about the guest page. */
  lemma Arrived(t: Tree, l: nat, g: nat)
    requires TreeOk(t) && g < LIMIT && 1 <= l <= 4 && HasSlot(t, l, Slot(l, g)) && !EntryOf(t, l, Slot(l, g)).Table?
    ensures EntryOf(t, l, Slot(l, g)) == Abs(t, g)
    ensures l > 1 ==> Abs(t, g) == Unused
  {
    hide Decode, Word;
    if l > 1 {
      SlotUp(l - 1, g);
      PointsIff(t, l, Slot(l, g));
      NoTableBelow(t, l - 1, g);
    }
  }

  lemma {:induction false} NoTableBelow(t: Tree, l: nat, g: nat)
    requires TreeOk(t) && g < LIMIT && 1 <= l < 4 && Home(l, Slot(l, g)) !in t.tab
    ensures !HasSlot(t, 1, g)
    decreases l
  {
    if l > 1 {
      SlotUp(l - 1, g);
      SlotUp(l, g);
      var d := Home(l - 1, Slot(l - 1, g));
      assert d == Node(l - 1, Slot(l, g));
      assert d in t.tab ==> HasSlot(t, d.level + 1, d.number);
      NoTableBelow(t, l - 1, g);
    }
  }

  lemma PutKeepsIn(t: Tree, g: nat)
    requires TreeOk(t) && HasSlot(t, 1, g)
    ensures PagesOk(t) && t.tab[Home(1, g)] in t.mem && |t.mem[t.tab[Home(1, g)]]| == 512
  {
  }

  lemma Stored(t: Tree, g: nat, pte: bv64)
    requires TreeOk(t) && PagesOk(t) && NoZeroLeaf(t) && HasSlot(t, 1, g)
    requires !Decode(pte).Table? && (Decode(pte).Leaf? || Decode(pte).LockedMapped? || Decode(pte).Invalidated? ==>
                                     Mappable(Decode(pte).pfn))
    ensures TreeOk(Put(t, 1, g, pte)) && NoZeroLeaf(Put(t, 1, g, pte))
            && Becomes(t, Put(t, 1, g, pte), g, Ok(Decode(pte)))
  {
    hide Decode, Abs, TreeOk;
    PutLeaf(t, g, pte);
  }

  /* ---------------- Tables on the way to an entry ---------------- */

  /** How many tables on the way to the entry of `g` there are not. */
  ghost function Missing(t: Tree, g: nat): (n: nat) {
    if Home(3, Slot(3, g)) !in t.tab then 3
    else if Home(2, Slot(2, g)) !in t.tab then 2
    else if Home(1, Slot(1, g)) !in t.tab then 1
    else 0
  }

  lemma MissingByTables(t: Tree, r: Tree, g: nat)
    requires t.tab == r.tab
    ensures Missing(t, g) == Missing(r, g)
  {
  }

  ghost predicate SameAbs(t: Tree, r: Tree) {
    forall h :: Abs(r, h) == Abs(t, h)
  }

  /** Tables may have been added, from the front of the pool, but none has gone or moved. */
  ghost predicate Grown(t: Tree, r: Tree) {
    && (forall d | d in t.tab :: d in r.tab && r.tab[d] == t.tab[d])
    && |r.pool| <= |t.pool| && r.pool == t.pool[|t.pool| - |r.pool|..]
    && r.root == t.root && r.mem.Keys == t.mem.Keys
  }

  /** The tables that have been added are on the way to `g`. */
  ghost predicate NewOnPath(t: Tree, r: Tree, g: nat) {
    forall d | d in r.tab && d !in t.tab :: 1 <= d.level < 4 && d == Node(d.level, Slot(d.level + 1, g))
  }

  lemma GrownTrans(t: Tree, r: Tree, s: Tree)
    requires Grown(t, r) && Grown(r, s)
    ensures Grown(t, s)
  {
  }

  lemma GrownSelf(t: Tree)
    ensures Grown(t, t) && SameAbs(t, t)
  {
  }

  lemma GrownStore(t: Tree, r: Tree, s: Tree)
    requires Grown(t, r) && s.tab == r.tab && s.pool == r.pool && s.root == r.root && s.mem.Keys == r.mem.Keys
    ensures Grown(t, s)
  {
  }

  lemma SlotHome(l: nat, g: nat)
    requires 1 <= l < 4
    ensures Home(l, Slot(l, g)) == Node(l, Slot(l + 1, g))
  {
    SlotUp(l, g);
  }

  lemma Above(t: Tree, l: nat, g: nat)
    requires TreeOk(t) && 1 <= l < 3 && Home(l, Slot(l, g)) in t.tab
    ensures Home(l + 1, Slot(l + 1, g)) in t.tab
  {
    hide Decode, Word;
    SlotHome(l, g);
    assert HasSlot(t, l + 1, Slot(l + 1, g));
  }

  lemma MissingSome(t: Tree, l: nat, g: nat)
    requires 1 <= l < 4 && Home(l, Slot(l, g)) !in t.tab
    ensures Missing(t, g) > 0
  {
    hide Home, Slot;
  }

  lemma MissingNone(t: Tree, g: nat)
    requires TreeOk(t) && HasSlot(t, 1, Slot(1, g))
    ensures Missing(t, g) == 0
  {
    hide Home, Slot, TreeOk;
    Above(t, 1, g);
    Above(t, 2, g);
  }

  lemma Arrived1(t: Tree, g: nat)
    requires TreeOk(t) && HasSlot(t, 1, Slot(1, g))
    ensures Slot(1, g) == g && EntryOf(t, 1, Slot(1, g)) == Abs(t, g) && !Abs(t, g).Table?
  {
  }

  /** Putting in the highest missing table on the way to `g`. */
  lemma Filled(t: Tree, l: nat, g: nat, d: Node)
    requires TreeOk(t) && NoZeroLeaf(t) && g < LIMIT && 1 <= l < 4 && t.pool != []
    requires d == Node(l, Slot(l + 1, g)) && d !in t.tab && CanPut(t, d.level + 1, d.number)
    ensures var r := AddTable(t, d);
            && TreeOk(r) && NoZeroLeaf(r) && SameAbs(t, r) && Grown(t, r) && Missing(r, g) == Missing(t, g) - 1
            && HasSlot(r, l, Slot(l, g))
  {
    hide Decode, Word, Abs, SetPte, Slot, TreeOk, Home;
    FilledInRange(t, l, g);
    SlotHome(l, g);
    AddTableOk(t, d);
    FilledMissing(t, l, g);
  }

  lemma FilledInRange(t: Tree, l: nat, g: nat)
    requires TreeOk(t) && g < LIMIT && 1 <= l < 4 && HasSlot(t, l + 1, Slot(l + 1, g))
    ensures CanPut(t, l + 1, Slot(l + 1, g)) && Slot(l + 1, g) < MaxTables(l)
  {
    hide Decode, Word;
    SlotInRange(l, g);
    SlotUp(l, g);
  }

  lemma FilledMissing(t: Tree, l: nat, g: nat)
    requires TreeOk(t) && 1 <= l < 4 && t.pool != [] && CanPut(t, l + 1, Slot(l + 1, g))
    requires Node(l, Slot(l + 1, g)) !in t.tab
    ensures Missing(AddTable(t, Node(l, Slot(l + 1, g))), g) == Missing(t, g) - 1
  {
    hide Decode, Word, Abs, SetPte, Slot, TreeOk, Home;
    SlotHome(1, g);
    SlotHome(2, g);
    SlotHome(3, g);
    if Home(1, Slot(1, g)) in t.tab { Above(t, 1, g); }
    if Home(2, Slot(2, g)) in t.tab { Above(t, 2, g); }
  }

  /* ---------------- The empty table ---------------- */

  ghost function RootTab(root: Pfn): (tab: map<Node, Pfn>) {
    map[Node(4, 0) := RootPage(root, 0), Node(4, 1) := RootPage(root, 1),
        Node(4, 2) := RootPage(root, 2), Node(4, 3) := RootPage(root, 3)]
  }

  /** The pages of the root and of the pool are in memory, clean, and all different. */
  predicate Clean(root: Pfn, mem: map<Pfn, seq<bv64>>, pool: seq<Pfn>) {
    && (forall p | p in mem :: |mem[p]| == 512 && InRange(p))
    && (forall k | 0 <= k < 4 :: RootPage(root, k) in mem && forall w | w in mem[RootPage(root, k)] :: w == 0)
    && (forall i | 0 <= i < |pool| :: pool[i] in mem && forall w | w in mem[pool[i]] :: w == 0)
    && (forall i, j | 0 <= i < j < |pool| :: pool[i] != pool[j])
    && (forall i, k | 0 <= i < |pool| && 0 <= k < 4 :: pool[i] != RootPage(root, k))
  }

  lemma NextLow(p: Pfn)
    ensures p.bits & 3 == 0 ==> NextFrame(p).bits & 3 == 1
    ensures p.bits & 3 == 1 ==> NextFrame(p).bits & 3 == 2
    ensures p.bits & 3 == 2 ==> NextFrame(p).bits & 3 == 3
  {
  }

  lemma RootPagesDiffer(root: Pfn)
    requires root.bits & 3 == 0
    ensures forall j, k | 0 <= j < k < 4 :: RootPage(root, j) != RootPage(root, k)
  {
    hide NextFrame;
    NextLow(root);
    NextLow(NextFrame(root));
    NextLow(NextFrame(NextFrame(root)));
  }

  lemma EmptyTree(root: Pfn, mem: map<Pfn, seq<bv64>>, pool: seq<Pfn>)
    requires root.bits & 3 == 0 && InRange(root) && Clean(root, mem, pool)
    ensures var t := Tree(mem, root, RootTab(root), pool);
            TreeOk(t) && NoZeroLeaf(t) && WordsOk(t) && forall g :: Abs(t, g) == Unused
  {
    hide Decode, InRange, NodesOk, Distinct, PoolOk, PagesOk, LeafWordOk, PointerWord;
    var t := Tree(mem, root, RootTab(root), pool);
    EmptyPages(root, mem, pool);
    InvalidWords(0);
    RootLevels(root);
    forall l: nat, n: nat | HasSlot(t, l, n) ensures EntryOf(t, l, n) == Unused && Word(t, l, n) == 0 {
      EmptySlot(root, mem, pool, l, n);
    }
  }

  lemma EmptySlot(root: Pfn, mem: map<Pfn, seq<bv64>>, pool: seq<Pfn>, l: nat, n: nat)
    requires Clean(root, mem, pool) && HasSlot(Tree(mem, root, RootTab(root), pool), l, n)
    ensures EntryOf(Tree(mem, root, RootTab(root), pool), l, n) == Unused
    ensures Word(Tree(mem, root, RootTab(root), pool), l, n) == 0
  {
    hide Decode, InRange;
    var t := Tree(mem, root, RootTab(root), pool);
    ZeroDecodes();
    assert t.mem[t.tab[Home(l, n)]][Index(n)] in t.mem[t.tab[Home(l, n)]];
  }

  lemma EmptyPages(root: Pfn, mem: map<Pfn, seq<bv64>>, pool: seq<Pfn>)
    requires root.bits & 3 == 0 && InRange(root) && Clean(root, mem, pool)
    ensures var t := Tree(mem, root, RootTab(root), pool); PagesOk(t) && NodesOk(t) && Distinct(t) && PoolOk(t)
  {
    RootPagesDiffer(root);
    hide InRange, RootPage, RootTab, Clean, PagesOk, NodesOk, Distinct, PoolOk;
    EmptyPagesOk(root, mem, pool);
    EmptyNodesOk(root, mem, pool);
    EmptyDistinct(root, mem, pool);
    EmptyPoolOk(root, mem, pool);
  }

  lemma RootLevels(root: Pfn)
    ensures forall d | d in RootTab(root) :: d.level == 4
  {
  }

  /** A table from `len` clean pages in a row: the root takes four of them, and the first has to be aligned. */
  method NewTable(root: Pfn, len: nat, mem: map<Pfn, seq<bv64>>, pool: seq<Pfn>) returns (r: Result<PageTableInner>)
    requires len >= 4 ==> InRange(root) && Clean(root, mem, pool)
    ensures r == Err(MisalignedPages) <==> root.bits & 3 != 0
    ensures r == Err(InsufficientPages) <==> root.bits & 3 == 0 && len < 4
    ensures r.Ok? <==> root.bits & 3 == 0 && len >= 4
    ensures r.Ok? ==> fresh(r.value) && r.value.Valid() && r.value.root == root && forall g ::
                      Abs(r.value.View(), g) == Unused
  {
    hide TreeOk, NoZeroLeaf, Abs, Clean, InRange, WordsOk;
    if root.bits & 3 != 0 { return Err(MisalignedPages); }
    if len < 4 { return Err(InsufficientPages); }
    var t := new PageTableInner(root, mem, pool);
    return Ok(t);
  }

  lemma RootTabIs(root: Pfn, d: Node)
    ensures d in RootTab(root) <==> d.level == 4 && d.number < 4
    ensures d in RootTab(root) ==> RootTab(root)[d] == RootPage(root, d.number)
  {
  }

  lemma EmptyPagesOk(root: Pfn, mem: map<Pfn, seq<bv64>>, pool: seq<Pfn>)
    requires Clean(root, mem, pool)
    ensures PagesOk(Tree(mem, root, RootTab(root), pool))
  {
    hide InRange, RootPage, RootTab;
    forall d | d in RootTab(root) ensures RootTab(root)[d] in mem {
      RootTabIs(root, d);
    }
  }

  lemma EmptyNodesOk(root: Pfn, mem: map<Pfn, seq<bv64>>, pool: seq<Pfn>)
    ensures NodesOk(Tree(mem, root, RootTab(root), pool))
  {
    hide InRange, RootPage, RootTab;
    forall d | d in RootTab(root) ensures 1 <= d.level <= 4 && d.number < MaxTables(d.level) {
      RootTabIs(root, d);
    }
    forall k | 0 <= k < 4 ensures Node(4, k) in RootTab(root) && RootTab(root)[Node(4, k)] == RootPage(root, k) {
      RootTabIs(root, Node(4, k));
    }
  }

  lemma EmptyDistinct(root: Pfn, mem: map<Pfn, seq<bv64>>, pool: seq<Pfn>)
    requires Clean(root, mem, pool) && forall j, k | 0 <= j < k < 4 :: RootPage(root, j) != RootPage(root, k)
    ensures Distinct(Tree(mem, root, RootTab(root), pool))
  {
    hide InRange, RootPage, RootTab;
    var tab := RootTab(root);
    forall d, e | d in tab && e in tab && tab[d] == tab[e] ensures d == e {
      RootTabIs(root, d);
      RootTabIs(root, e);
    }
    forall i, d | 0 <= i < |pool| && d in tab ensures pool[i] != tab[d] {
      RootTabIs(root, d);
    }
  }

  lemma EmptyPoolOk(root: Pfn, mem: map<Pfn, seq<bv64>>, pool: seq<Pfn>)
    requires Clean(root, mem, pool)
    ensures PoolOk(Tree(mem, root, RootTab(root), pool))
  {
  }
}
