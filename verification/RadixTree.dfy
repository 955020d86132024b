/** The guest-stage page table as it lies in memory: four levels of tables of 512 words, except that the root
    has four pages. A walk takes 11 bits of the guest page number at the root and 9 at each further level. */
module RadixTrees {
  import opened Ptes

  /** Guest page numbers have 11 + 9 + 9 + 9 bits. */
  const LIMIT: nat := 0x40_0000_0000

  /** The entry at level `l` that the walk for guest page `g` reads, numbered through the whole level. */
  function Slot(l: nat, g: nat): (n: nat)
    requires 1 <= l <= 4
  {
    if l == 1 then g else if l == 2 then g / 512 else if l == 3 then g / 0x4_0000 else g / 0x800_0000
  }

  lemma SlotUp(l: nat, g: nat)
    requires 1 <= l < 4
    ensures Slot(l, g) / 512 == Slot(l + 1, g)
  {
  }

  /** How many tables a level can have. */
  function MaxTables(l: nat): (n: nat)
    requires 1 <= l <= 4
  {
    if l == 1 then 0x2000_0000 else if l == 2 then 0x10_0000 else if l == 3 then 0x800 else 4
  }

  lemma SlotInRange(l: nat, g: nat)
    requires 1 <= l <= 4 && g < LIMIT
    ensures Slot(l, g) / 512 < MaxTables(l)
  {
  }

  /** A table: table `number` at `level` holds the entries 512 * number and following of that level. The pages
      of the root are tables 0 to 3 of level 4; any other table is pointed to by the entry of the level
      above that has the same number. */
  datatype Node = Node(level: nat, number: nat)

  datatype Tree = Tree(mem: map<Pfn, seq<bv64>>, root: Pfn, tab: map<Node, Pfn>, pool: seq<Pfn>)

  ghost predicate PagesOk(t: Tree) {
    && (forall p | p in t.mem :: |t.mem[p]| == 512 && InRange(p))
    && (forall d | d in t.tab :: t.tab[d] in t.mem)
    && (forall i | 0 <= i < |t.pool| :: t.pool[i] in t.mem)
  }

  /** The four pages of the root follow one another. */
  function RootPage(root: Pfn, k: nat): (p: Pfn) {
    if k == 0 then root
    else if k == 1 then NextFrame(root)
    else if k == 2 then NextFrame(NextFrame(root))
    else NextFrame(NextFrame(NextFrame(root)))
  }

  ghost predicate NodesOk(t: Tree) {
    && (forall d | d in t.tab :: 1 <= d.level <= 4 && d.number < MaxTables(d.level))
    && (forall k | 0 <= k < 4 :: Node(4, k) in t.tab && t.tab[Node(4, k)] == RootPage(t.root, k))
  }

  /** No page is used twice, and none has number zero. */
  ghost predicate Distinct(t: Tree) {
    && (forall d, e | d in t.tab && e in t.tab && t.tab[d] == t.tab[e] :: d == e)
    && (forall i, d | 0 <= i < |t.pool| && d in t.tab :: t.pool[i] != t.tab[d])
    && (forall i, j | 0 <= i < j < |t.pool| :: t.pool[i] != t.pool[j])
  }

  /** The table that holds entry `n` of level `l`, and the place of the entry in it. */
  function Home(l: nat, n: nat): (d: Node) { Node(l, n / 512) }
  function Index(n: nat): (i: nat) ensures i < 512 { n % 512 }

  lemma SlotsApart(l: nat, n: nat, k: nat, m: nat)
    ensures Home(l, n) == Home(k, m) && Index(n) == Index(m) <==> l == k && n == m
  {
  }

  predicate HasSlot(t: Tree, l: nat, n: nat) {
    Home(l, n) in t.tab
  }

  /** Entry `n` of level `l`. */
  function Word(t: Tree, l: nat, n: nat): (w: bv64) {
    if Home(l, n) in t.tab && t.tab[Home(l, n)] in t.mem && Index(n) < |t.mem[t.tab[Home(l, n)]]|
    then t.mem[t.tab[Home(l, n)]][Index(n)] else 0
  }

  function EntryOf(t: Tree, l: nat, n: nat): (e: Entry) {
    Decode(Word(t, l, n))
  }

  /** Every table is pointed to by its entry in the level above. */
  ghost predicate LinksOk(t: Tree) {
    forall d | d in t.tab && d.level < 4 ::
      HasSlot(t, d.level + 1, d.number) && EntryOf(t, d.level + 1, d.number) == Table(t.tab[d])
  }

  /** Above level 1, an entry that points to no table is unused. */
  ghost predicate HolesOk(t: Tree) {
    forall l: nat, n: nat | 1 < l <= 4 && HasSlot(t, l, n) && Node(l - 1, n) !in t.tab :: EntryOf(t, l, n) == Unused
  }

  ghost predicate LeavesOk(t: Tree) {
    forall g: nat | HasSlot(t, 1, g) :: !EntryOf(t, 1, g).Table?
  }

  /** The pages waiting to become tables are clean. */
  ghost predicate PoolOk(t: Tree) {
    forall p | p in t.pool && p in t.mem :: forall w | w in t.mem[p] :: w == 0
  }

  ghost predicate TreeOk(t: Tree) {
    PagesOk(t) && NodesOk(t) && Distinct(t) && LinksOk(t) && HolesOk(t) && LeavesOk(t) && PoolOk(t)
  }

  /** The words of the tables are such as the hardware accepts: pointers with no other bit set, and leaves with all
      permissions. */
  ghost predicate WordsOk(t: Tree) {
    && (forall d | d in t.tab && d.level < 4 :: Word(t, d.level + 1, d.number) == PointerWord(t.tab[d]))
    && (forall g: nat | HasSlot(t, 1, g) :: LeafWordOk(Word(t, 1, g)))
  }

  /** What the table says about guest page `g`. */
  ghost function Abs(t: Tree, g: nat): (e: Entry) {
    if HasSlot(t, 1, g) then EntryOf(t, 1, g) else Unused
  }

  /* ---------------- Writing one word ---------------- */

  predicate CanPut(t: Tree, l: nat, n: nat) {
    HasSlot(t, l, n) && t.tab[Home(l, n)] in t.mem && |t.mem[t.tab[Home(l, n)]]| == 512
  }

  function Put(t: Tree, l: nat, n: nat, pte: bv64): (r: Tree)
    requires CanPut(t, l, n)
  {
    var p := t.tab[Home(l, n)];
    t.(mem := t.mem[p := t.mem[p][Index(n) := pte]])
  }

  /** The entries of the tables in `r` are those in `t`, except for one. */
  ghost predicate WordsBut(t: Tree, r: Tree, l: nat, n: nat, pte: bv64) {
    forall k, m | HasSlot(t, k, m) :: HasSlot(r, k, m) && Word(r, k, m) ==
                                      if k == l && m == n then pte else Word(t, k, m)
  }

  lemma PutWords(t: Tree, l: nat, n: nat, pte: bv64)
    requires PagesOk(t) && Distinct(t) && HasSlot(t, l, n)
    ensures PagesOk(Put(t, l, n, pte)) && WordsBut(t, Put(t, l, n, pte), l, n, pte)
  {
    hide Home, Index;
    var r := Put(t, l, n, pte);
    forall k, m | HasSlot(t, k, m) ensures Word(r, k, m) == if k == l && m == n then pte else Word(t, k, m) {
      SlotsApart(l, n, k, m);
      var p, q := t.tab[Home(l, n)], t.tab[Home(k, m)];
      assert |t.mem[p]| == 512 && |t.mem[q]| == 512;
      if p == q {
        assert Home(k, m) == Home(l, n);
        assert r.mem[q] == t.mem[p][Index(n) := pte];
      } else {
        assert r.mem[q] == t.mem[q];
      }
    }
  }

  lemma PutPool(t: Tree, l: nat, n: nat, pte: bv64)
    requires PagesOk(t) && Distinct(t) && PoolOk(t) && HasSlot(t, l, n)
    ensures PoolOk(Put(t, l, n, pte))
  {
    hide Home, Index;
    var r := Put(t, l, n, pte);
    forall p | p in t.pool ensures p in t.mem && r.mem[p] == t.mem[p] {
      var i :| 0 <= i < |t.pool| && t.pool[i] == p;
    }
  }

  /** Writing the entry of one guest page changes what the table says about that page, and about no other. */
  lemma PutLeaf(t: Tree, g: nat, pte: bv64)
    requires TreeOk(t) && HasSlot(t, 1, g) && !Decode(pte).Table?
    ensures TreeOk(Put(t, 1, g, pte))
    ensures forall h :: Abs(Put(t, 1, g, pte), h) == if h == g then Decode(pte) else Abs(t, h)
  {
    hide Decode, Home, Word, PagesOk, PoolOk, LinksOk, HolesOk, LeavesOk, NodesOk, Distinct;
    PutKeeps(t, 1, g);
    PutWords(t, 1, g, pte);
    PutPool(t, 1, g, pte);
    var r := Put(t, 1, g, pte);
    LeafLinks(t, r, g, pte);
    LeafNodes(t, r);
    forall h ensures Abs(r, h) == if h == g then Decode(pte) else Abs(t, h) {
    }
  }

  lemma PutWordsOk(t: Tree, g: nat, pte: bv64)
    requires TreeOk(t) && WordsOk(t) && HasSlot(t, 1, g) && LeafWordOk(pte)
    ensures CanPut(t, 1, g) && WordsOk(Put(t, 1, g, pte))
  {
    hide Decode, Home, Word, PagesOk, PoolOk, HolesOk, LeavesOk, NodesOk, Distinct, LeafWordOk, PointerWord;
    PutKeeps(t, 1, g);
    PutWords(t, 1, g, pte);
    NodeLevels(t);
  }

  lemma NodeLevels(t: Tree)
    requires NodesOk(t)
    ensures forall d | d in t.tab :: 1 <= d.level <= 4
  {
  }

  lemma LeafLinks(t: Tree, r: Tree, g: nat, pte: bv64)
    requires LinksOk(t) && HolesOk(t) && LeavesOk(t) && r.tab == t.tab && WordsBut(t, r, 1, g, pte)
             && !Decode(pte).Table?
    ensures LinksOk(r) && HolesOk(r) && LeavesOk(r)
  {
    hide Decode, Home, Word;
    forall l: nat, n: nat | HasSlot(t, l, n) ensures EntryOf(r, l, n) ==
           if l == 1 && n == g then Decode(pte) else EntryOf(t, l, n) {
    }
  }

  lemma LeafNodes(t: Tree, r: Tree)
    requires NodesOk(t) && Distinct(t) && r.tab == t.tab && r.pool == t.pool && r.root == t.root
    ensures NodesOk(r) && Distinct(r)
  {
  }

  lemma PutKeeps(t: Tree, l: nat, n: nat)
    requires PagesOk(t) && HasSlot(t, l, n)
    ensures CanPut(t, l, n)
  {
  }

  /* ---------------- Adding a table ---------------- */

  /** The first page of the pool becomes table `d`. */
  function AddTable(t: Tree, d: Node): (r: Tree)
    requires CanPut(t, d.level + 1, d.number) && t.pool != []
  {
    Put(t, d.level + 1, d.number, SetPte(t.pool[0], NON_LEAF)).(tab := t.tab[d := t.pool[0]], pool := t.pool[1..])
  }

  /** The entries of the new table are clear. */
  lemma NewTableClear(t: Tree, d: Node)
    requires PagesOk(t) && Distinct(t) && PoolOk(t) && HasSlot(t, d.level + 1, d.number) && d !in t.tab && t.pool != []
    ensures var r := AddTable(t, d);
            && PagesOk(r) && PoolOk(r)
            && (forall k, m | HasSlot(r, k, m) && !HasSlot(t, k, m) :: Home(k, m) == d && Word(r, k, m) == 0)
  {
    hide Home, Index, SetPte;
    var w := SetPte(t.pool[0], NON_LEAF);
    PutWords(t, d.level + 1, d.number, w);
    PutPool(t, d.level + 1, d.number, w);
    var p, r := Put(t, d.level + 1, d.number, w), AddTable(t, d);
    assert t.pool[0] in t.pool && p.pool[0] == t.pool[0];
    forall k, m | HasSlot(r, k, m) && !HasSlot(t, k, m) ensures Home(k, m) == d && Word(r, k, m) == 0 {
      assert p.mem[t.pool[0]][Index(m)] in p.mem[t.pool[0]];
    }
  }

  lemma OldTablesKept(t: Tree, d: Node)
    requires PagesOk(t) && Distinct(t) && HasSlot(t, d.level + 1, d.number) && d !in t.tab && t.pool != []
    ensures WordsBut(t, AddTable(t, d), d.level + 1, d.number, SetPte(t.pool[0], NON_LEAF))
  {
    hide Home, Index, SetPte;
    var w := SetPte(t.pool[0], NON_LEAF);
    PutWords(t, d.level + 1, d.number, w);
    var p, r := Put(t, d.level + 1, d.number, w), AddTable(t, d);
    forall k, m | HasSlot(t, k, m) ensures HasSlot(r, k, m) && Word(r, k, m) == Word(p, k, m) {
    }
  }

  lemma AddTableDistinct(t: Tree, d: Node)
    requires PagesOk(t) && Distinct(t) && HasSlot(t, d.level + 1, d.number) && d !in t.tab && t.pool != []
    ensures Distinct(AddTable(t, d))
  {
    hide Home, Index, SetPte;
  }

  /** Adding a table keeps the tree in order, and changes nothing that the table says. */
  lemma AddTableOk(t: Tree, d: Node)
    requires TreeOk(t) && 1 <= d.level < 4 && d.number < MaxTables(d.level)
    requires HasSlot(t, d.level + 1, d.number) && d !in t.tab && t.pool != []
    ensures TreeOk(AddTable(t, d))
    ensures forall h :: Abs(AddTable(t, d), h) == Abs(t, h)
  {
    hide SetPte, Word, PagesOk, PoolOk, Distinct, LinksOk, HolesOk, LeavesOk, NodesOk, Home;
    PutKeeps(t, d.level + 1, d.number);
    NewTableClear(t, d);
    OldTablesKept(t, d);
    AddTableDistinct(t, d);
    AddTableNodes(t, d);
    PoolInRange(t);
    AddTableLinks(t, AddTable(t, d), d);
  }

  lemma AddTableWordsOk(t: Tree, d: Node)
    requires TreeOk(t) && WordsOk(t) && 1 <= d.level < 4 && HasSlot(t, d.level + 1, d.number) && d !in t.tab
    requires t.pool != []
    ensures CanPut(t, d.level + 1, d.number) && WordsOk(AddTable(t, d))
  {
    hide Decode, SetPte, Word, PagesOk, PoolOk, Distinct, HolesOk, LeavesOk, NodesOk, Home, LeafWordOk, PointerWord;
    PutKeeps(t, d.level + 1, d.number);
    NewTableClear(t, d);
    OldTablesKept(t, d);
    PoolInRange(t);
    SetWords(t.pool[0]);
    InvalidWords(0);
    NodeLevels(t);
    var r := AddTable(t, d);
    forall e | e in r.tab && e.level < 4 ensures Word(r, e.level + 1, e.number) == PointerWord(r.tab[e]) {
      if e != d { assert HasSlot(t, e.level + 1, e.number); }
    }
  }

  lemma PoolInRange(t: Tree)
    requires PagesOk(t) && t.pool != []
    ensures InRange(t.pool[0])
  {
  }

  lemma AddTableLinks(t: Tree, r: Tree, d: Node)
    requires LinksOk(t) && HolesOk(t) && LeavesOk(t) && 1 <= d.level < 4 && t.pool != [] && InRange(t.pool[0])
    requires r.tab == t.tab[d := t.pool[0]] && d !in t.tab && HasSlot(t, d.level + 1, d.number)
    requires WordsBut(t, r, d.level + 1, d.number, SetPte(t.pool[0], NON_LEAF))
    requires forall k, m | HasSlot(r, k, m) && !HasSlot(t, k, m) :: Home(k, m) == d && Word(r, k, m) == 0
    ensures LinksOk(r) && HolesOk(r) && LeavesOk(r)
    ensures forall h :: Abs(r, h) == Abs(t, h)
  {
    SetDecodes(t.pool[0]);
    ZeroDecodes();
    hide Decode, SetPte, Word;
    forall l: nat, n: nat | HasSlot(t, l, n)
      ensures EntryOf(r, l, n) == if l == d.level + 1 && n == d.number then Table(t.pool[0]) else EntryOf(t, l, n)
    {
    }
    forall l: nat, n: nat | HasSlot(r, l, n) && !HasSlot(t, l, n) ensures EntryOf(r, l, n) == Unused && l == d.level {
    }
    assert LinksOk(r) by {
      forall e | e in r.tab && e.level < 4
        ensures HasSlot(r, e.level + 1, e.number) && EntryOf(r, e.level + 1, e.number) == Table(r.tab[e])
      {
      }
    }
  }

  lemma AddTableNodes(t: Tree, d: Node)
    requires PagesOk(t) && NodesOk(t) && 1 <= d.level < 4 && d.number < MaxTables(d.level)
    requires HasSlot(t, d.level + 1, d.number) && d !in t.tab && t.pool != []
    ensures NodesOk(AddTable(t, d))
  {
  }
}
