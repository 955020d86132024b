/** The guest-stage page table as the hardware reads it: address translation after sections 4.3.2 and 8.5.1 of the
    RISC-V Privileged Architecture, version 20211203, for Sv48x4, on a machine that sets the accessed and dirty bits
    by itself. */
module GuestTranslations {
  import opened Basics
  import opened Ptes
  import opened RadixTrees
  import opened GuestPageTables

  type Memory = map<Pfn, seq<bv64>>

  datatype Access = Read | Write | Fetch

  /** The page that comes `k` pages behind another. */
  function Behind(p: Pfn, k: nat): (r: Pfn)
    decreases k
  {
    if k == 0 then p else Behind(NextFrame(p), k - 1)
  }

  /** The word that lies `offset` bytes behind the start of a page. */
  function Load(mem: Memory, base: Pfn, offset: nat): (w: Option<bv64>) {
    var page := Behind(base, offset / 4096);
    if page in mem && offset % 4096 / 8 < |mem[page]| then Some(mem[page][offset % 4096 / 8]) else None
  }

  /** The bits of the guest page number that select the entry at level `i`: 11 at the root, and 9 at each other
      level. */
  function Vpn(g: nat, i: nat): (n: nat)
    requires i <= 3
    ensures n < 2048
  {
    if i == 3 then g / 0x800_0000 % 2048
    else if i == 2 then g / 0x4_0000 % 512
    else if i == 1 then g / 512 % 512
    else g % 512
  }

  /** The bits of a page number that are zero if the page is aligned to the span of an entry at level `i`. */
  function LowBits(i: nat): (b: bv64)
    requires i <= 3
  {
    if i == 3 then 0x7FF_FFFF else if i == 2 then 0x3_FFFF else if i == 1 then 0x1FF else 0
  }

  /** How many pages an entry at level `i` covers. */
  function Span(i: nat): (n: nat)
    requires i <= 3
  {
    if i == 3 then 0x800_0000 else if i == 2 then 0x4_0000 else if i == 1 then 512 else 1
  }

  /** Bits 1 to 3 are the permissions to read, write and execute. */
  predicate Permits(w: bv64, access: Access) {
    match access
    case Read => w & 0x2 != 0
    case Write => w & 0x4 != 0
    case Fetch => w & 0x8 != 0
  }

  /** The page number, from bit 10 on. */
  function Ppn(w: bv64): (p: Pfn) { Pfn((w >> 10) & 0xFFF_FFFF_FFFF) }

  /** The page that the hardware reaches from the table at `base`, if the access does not fault. Bit 0 says that an
      entry is valid and bit 4 that it is for the guest; bits 54 and up are reserved, and so are bits 4, 6 and 7 of
      a pointer. */
  function Translate(mem: Memory, base: Pfn, g: nat, i: nat, access: Access): (r: Option<Pfn>)
    requires i <= 3
    decreases i
  {
    match Load(mem, base, 8 * Vpn(g, i))
    case None => None
    case Some(w) =>
      if w & 0x1 == 0 || (w & 0x2 == 0 && w & 0x4 != 0) || w >> 54 != 0 then None
      else if w & 0x2 != 0 || w & 0x8 != 0 then
        if w & 0x10 == 0 || !Permits(w, access) || Ppn(w).bits & LowBits(i) != 0 then None
        else Some(Behind(Ppn(w), g % Span(i)))
      else if i == 0 || w & 0xD0 != 0 then None
      else Translate(mem, Ppn(w), g, i - 1, access)
  }

  /* ---------------- Words ---------------- */

  lemma PointerReads(p: Pfn)
    requires InRange(p)
    ensures var w := PointerWord(p);
            w & 0x1 != 0 && w & 0x2 == 0 && w & 0x4 == 0 && w & 0x8 == 0 && w & 0xD0 == 0 && w >> 54 == 0 && Ppn(w) == p
  {
  }

  lemma LeafReads(w: bv64)
    requires LeafWordOk(w) && w & 0x1 != 0
    ensures w & 0x2 != 0 && w & 0x4 != 0 && w & 0x8 != 0 && w & 0x10 != 0 && w >> 54 == 0
  {
    assert w & 0x2 == (w & 0xFF) & 0x2;
    assert w & 0x4 == (w & 0xFF) & 0x4;
    assert w & 0x8 == (w & 0xFF) & 0x8;
    assert w & 0x10 == (w & 0xFF) & 0x10;
  }

  lemma Decoded(w: bv64)
    ensures w & 0x1 != 0 <==> Decode(w).Leaf? || Decode(w).LockedMapped? || Decode(w).Table?
    ensures !Decode(w).Unused? ==> Decode(w).pfn == Ppn(w)
  {
  }

  /* ---------------- Places ---------------- */

  lemma VpnIs(g: nat, l: nat)
    requires g < LIMIT && 1 <= l <= 4
    ensures Vpn(g, l - 1) == if l == 4 then Slot(4, g) else Slot(l, g) % 512
  {
  }

  lemma LoadHere(mem: Memory, base: Pfn, index: nat)
    requires index < 512 && base in mem && |mem[base]| == 512
    ensures Load(mem, base, 8 * index) == Some(mem[base][index])
  {
    assert 8 * index / 4096 == 0 && 8 * index % 4096 / 8 == index;
  }

  lemma LoadRoot(mem: Memory, root: Pfn, index: nat)
    requires index < 2048
    requires RootPage(root, index / 512) in mem && |mem[RootPage(root, index / 512)]| == 512
    ensures Load(mem, root, 8 * index) == Some(mem[RootPage(root, index / 512)][index % 512])
  {
    hide RootPage, Behind;
    assert 8 * index / 4096 == index / 512 && 8 * index % 4096 / 8 == index % 512;
    RootBase(root, index / 512);
  }

  lemma BehindNext(p: Pfn, k: nat)
    ensures Behind(p, k + 1) == Behind(NextFrame(p), k) && Behind(p, 0) == p
  {
  }

  lemma RootBase(root: Pfn, k: nat)
    requires k < 4
    ensures Behind(root, k) == RootPage(root, k)
  {
    hide Behind, NextFrame;
    if k > 0 { BehindNext(root, k - 1); }
    if k > 1 { BehindNext(NextFrame(root), k - 2); }
    if k > 2 { BehindNext(NextFrame(NextFrame(root)), k - 3); }
    BehindNext(RootPage(root, k), 0);
  }

  /** The hardware finds the word of the tree at every level it comes to. */
  lemma LoadsWord(t: Tree, l: nat, g: nat, base: Pfn)
    requires TreeOk(t) && g < LIMIT && 1 <= l <= 4 && HasSlot(t, l, Slot(l, g))
    requires base == if l == 4 then t.root else t.tab[Home(l, Slot(l, g))]
    ensures Load(t.mem, base, 8 * Vpn(g, l - 1)) == Some(Word(t, l, Slot(l, g)))
  {
    hide TreeOk, Load, Vpn, Slot, Word, Home, Index, RootPage;
    VpnIs(g, l);
    if l == 4 {
      RootSlot(t, g);
      SlotInRange(4, g);
      LoadRoot(t.mem, t.root, Slot(4, g));
    } else {
      WordAt(t, l, Slot(l, g));
      LoadHere(t.mem, base, Slot(l, g) % 512);
    }
  }

  /* ---------------- The theorem ---------------- */

  /** What the table says about a page, as far as the hardware can tell. */
  function Reaches(e: Entry): (r: Option<Pfn>) {
    match e
    case Leaf(p) => Some(p)
    case LockedMapped(p) => Some(p)
    case _ => None
  }

  lemma AtPointer(mem: Memory, base: Pfn, g: nat, i: nat, access: Access, p: Pfn)
    requires 0 < i <= 3 && InRange(p) && Load(mem, base, 8 * Vpn(g, i)) == Some(PointerWord(p))
    ensures Translate(mem, base, g, i, access) == Translate(mem, p, g, i - 1, access)
  {
    PointerReads(p);
    hide PointerWord, Ppn, Load, Vpn;
  }

  lemma AtLeaf(mem: Memory, base: Pfn, g: nat, access: Access, w: bv64)
    requires Load(mem, base, 8 * Vpn(g, 0)) == Some(w) && LeafWordOk(w) && w & 0x1 != 0
    ensures Translate(mem, base, g, 0, access) == Some(Ppn(w))
  {
    LeafReads(w);
    hide Ppn, Load, Vpn, LeafWordOk;
    assert g % 1 == 0;
  }

  lemma AtFault(mem: Memory, base: Pfn, g: nat, i: nat, access: Access, w: bv64)
    requires i <= 3 && Load(mem, base, 8 * Vpn(g, i)) == Some(w) && w & 0x1 == 0
    ensures Translate(mem, base, g, i, access) == None
  {
    hide Ppn, Load, Vpn;
  }

  lemma {:induction false} TranslateAt(t: Tree, l: nat, g: nat, base: Pfn, access: Access)
    requires TreeOk(t) && WordsOk(t) && g < LIMIT && 1 <= l <= 4 && HasSlot(t, l, Slot(l, g))
    requires base == if l == 4 then t.root else t.tab[Home(l, Slot(l, g))]
    ensures Translate(t.mem, base, g, l - 1, access) == Reaches(Abs(t, g))
    decreases l
  {
    hide TreeOk, WordsOk, Load, Vpn, Slot, Word, Home, Abs, Decode, LeafWordOk, PointerWord, Ppn, InRange, Translate;
    LoadsWord(t, l, g, base);
    var w := Word(t, l, Slot(l, g));
    Decoded(w);
    if EntryOf(t, l, Slot(l, g)).Table? {
      var p := EntryOf(t, l, Slot(l, g)).pfn;
      Descends(t, l, g);
      Pointer(t, l, g);
      AtPointer(t.mem, base, g, l - 1, access, p);
      TranslateAt(t, l - 1, g, p, access);
    } else {
      Arrived(t, l, g);
      if w & 0x1 == 0 {
        AtFault(t.mem, base, g, l - 1, access, w);
      } else {
        WordIsOk(t, g);
        AtLeaf(t.mem, base, g, access, w);
      }
    }
  }

  lemma Pointer(t: Tree, l: nat, g: nat)
    requires TreeOk(t) && WordsOk(t) && g < LIMIT && 1 < l <= 4 && HasSlot(t, l, Slot(l, g))
    requires EntryOf(t, l, Slot(l, g)).Table?
    ensures Word(t, l, Slot(l, g)) == PointerWord(EntryOf(t, l, Slot(l, g)).pfn)
    ensures InRange(EntryOf(t, l, Slot(l, g)).pfn)
  {
    hide TreeOk, Decode, Word, PointerWord, LeafWordOk;
    PointsIff(t, l, Slot(l, g));
    assert Node(l - 1, Slot(l, g)) in t.tab;
  }

  lemma WordIsOk(t: Tree, g: nat)
    requires WordsOk(t) && HasSlot(t, 1, Slot(1, g))
    ensures LeafWordOk(Word(t, 1, Slot(1, g)))
  {
    hide LeafWordOk, Word;
  }

  /** On every table that is in order, the hardware translates every access of the guest, to read, to write and to
      execute, to exactly the page that the table is said to map there, and faults on all other pages. */
  lemma TableTranslates(t: Tree, g: nat, access: Access)
    requires TreeOk(t) && WordsOk(t) && g < LIMIT
    ensures Translate(t.mem, t.root, g, 3, access) == Reaches(Abs(t, g))
  {
    hide TreeOk, WordsOk, Translate, Abs, Slot;
    RootSlot(t, g);
    TranslateAt(t, 4, g, t.root, access);
  }

  lemma ValidTranslates(table: PageTableInner, g: nat, access: Access)
    requires table.Valid() && g < LIMIT
    ensures Translate(table.mem, table.root, g, 3, access) == Reaches(Abs(table.View(), g))
  {
    hide TreeOk, WordsOk, Translate, Abs, NoZeroLeaf;
    TableTranslates(table.View(), g, access);
  }
}
