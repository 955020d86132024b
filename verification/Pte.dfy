/** Page table entries as 64-bit words, following section 8.5.1 (Guest Physical Address Translation) of the
    RISC-V Privileged Architecture, version 20211203, with bit 8 used by software as a lock. */
module Ptes {
  const VALID: bv64 := 0x1
  const MASK_RWX: bv64 := 0xE
  const USER: bv64 := 0x10
  const LOCKED: bv64 := 0x100
  const PFN_MASK: bv64 := 0xFFF_FFFF_FFFF

  /** The number of a page frame. */
  datatype Pfn = Pfn(bits: bv64)

  /** The page frame that follows. */
  function NextFrame(p: Pfn): (q: Pfn) { Pfn(p.bits + 1) }

  /** Page frame numbers have 44 bits. */
  predicate InRange(p: Pfn) { p.bits <= PFN_MASK }

  /** The field bits of a mapping with all permissions for a guest, and of a pointer to a table. */
  const USER_RWX: bv64 := MASK_RWX | USER
  const NON_LEAF: bv64 := 0

  /** What an entry says, as `from_pte` tells them apart. */
  datatype Entry =
    | Unused
    | Invalidated(pfn: Pfn)
    | LockedUnmapped(pfn: Pfn)
    | Leaf(pfn: Pfn)
    | LockedMapped(pfn: Pfn)
    | Table(pfn: Pfn)

  predicate IsValid(pte: bv64) { pte & VALID != 0 }
  predicate IsLocked(pte: bv64) { pte & LOCKED != 0 }
  predicate IsLeaf(pte: bv64) { pte & MASK_RWX != 0 }
  function PfnOf(pte: bv64): (n: Pfn) ensures InRange(n) { Pfn((pte >> 10) & PFN_MASK) }

  function Classify(valid: bool, locked: bool, leaf: bool, pfn: Pfn): (e: Entry)
    ensures !e.Unused? ==> e.pfn == pfn
  {
    if !valid then
      if locked then LockedUnmapped(pfn) else if pfn.bits != 0 then Invalidated(pfn) else Unused
    else if !leaf then Table(pfn)
    else if locked then LockedMapped(pfn)
    else Leaf(pfn)
  }

  function Decode(pte: bv64): (e: Entry)
    ensures !e.Unused? ==> InRange(e.pfn)
  {
    Classify(IsValid(pte), IsLocked(pte), IsLeaf(pte), PfnOf(pte))
  }

  function SetPte(pfn: Pfn, status: bv64): (pte: bv64) { (pfn.bits << 10) | status | VALID }
  function UpdatePfn(pte: bv64, pfn: Pfn): (r: bv64) { (pte & !(PFN_MASK << 10)) | (pfn.bits << 10) }
  function InvalidatePte(pte: bv64): (r: bv64) { pte & !VALID }
  function LockPte(pte: bv64): (r: bv64) { pte | LOCKED }
  function UnlockPte(pte: bv64): (r: bv64) { pte & !LOCKED }

  /** Setting an entry makes it a leaf with that page, or a pointer to that table. */
  lemma SetDecodes(pfn: Pfn)
    requires InRange(pfn)
    ensures Decode(SetPte(pfn, USER_RWX)) == Leaf(pfn)
    ensures Decode(SetPte(pfn, NON_LEAF)) == Table(pfn)
  {
    SetFields(pfn, USER_RWX);
    SetFields(pfn, NON_LEAF);
  }

  lemma SetFields(pfn: Pfn, status: bv64)
    requires InRange(pfn) && status <= 0x3FF
    ensures var p := SetPte(pfn, status);
            PfnOf(p) == pfn && IsValid(p) && (IsLeaf(p) <==> status & MASK_RWX != 0)
              && (IsLocked(p) <==> status & LOCKED != 0)
  {
  }

  lemma LockKeepsPfn(pte: bv64)
    ensures PfnOf(LockPte(pte)) == PfnOf(pte)
  {
  }

  lemma LockKeepsBits(pte: bv64)
    ensures IsLocked(LockPte(pte))
    ensures (IsValid(LockPte(pte)) <==> IsValid(pte)) && (IsLeaf(LockPte(pte)) <==> IsLeaf(pte))
  {
    assert (pte | LOCKED) & LOCKED == LOCKED;
    assert (pte | LOCKED) & VALID == pte & VALID;
    assert (pte | LOCKED) & MASK_RWX == pte & MASK_RWX;
  }

  lemma UnlockKeepsPfn(pte: bv64)
    ensures PfnOf(UnlockPte(pte)) == PfnOf(pte)
  {
  }

  lemma UnlockKeepsBits(pte: bv64)
    ensures !IsLocked(UnlockPte(pte))
    ensures (IsValid(UnlockPte(pte)) <==> IsValid(pte)) && (IsLeaf(UnlockPte(pte)) <==> IsLeaf(pte))
  {
    assert UnlockPte(pte) & LOCKED == 0;
    assert UnlockPte(pte) & VALID == pte & VALID;
    assert UnlockPte(pte) & MASK_RWX == pte & MASK_RWX;
  }

  lemma InvalidateKeepsPfn(pte: bv64)
    ensures PfnOf(pte & !VALID) == PfnOf(pte)
  {
  }

  lemma InvalidateKeepsBits(pte: bv64)
    ensures !IsValid(pte & !VALID) && (IsLocked(pte & !VALID) <==> IsLocked(pte))
  {
    assert (pte & !VALID) & VALID == 0;
    assert (pte & !VALID) & LOCKED == pte & LOCKED;
  }

  lemma UpdateSetsPfn(pte: bv64, pfn: Pfn)
    requires InRange(pfn)
    ensures PfnOf(UpdatePfn(pte, pfn)) == pfn
  {
  }

  lemma UpdateKeepsBits(pte: bv64, pfn: Pfn)
    requires InRange(pfn)
    ensures IsValid(UpdatePfn(pte, pfn)) <==> IsValid(pte)
    ensures IsLeaf(UpdatePfn(pte, pfn)) <==> IsLeaf(pte)
    ensures IsLocked(UpdatePfn(pte, pfn)) <==> IsLocked(pte)
  {
    assert UpdatePfn(pte, pfn) & VALID == pte & VALID;
    assert UpdatePfn(pte, pfn) & MASK_RWX == pte & MASK_RWX;
    assert UpdatePfn(pte, pfn) & LOCKED == pte & LOCKED;
  }

  /** The lock on an entry, with what the entry holds otherwise. */
  function Lock(e: Entry): (r: Entry) {
    match e
    case Unused => LockedUnmapped(Pfn(0))
    case Invalidated(pfn) => LockedUnmapped(pfn)
    case Leaf(pfn) => LockedMapped(pfn)
    case _ => e
  }

  function Unlock(e: Entry): (r: Entry) {
    match e
    case LockedUnmapped(pfn) => if pfn.bits == 0 then Unused else Invalidated(pfn)
    case LockedMapped(pfn) => Leaf(pfn)
    case _ => e
  }

  /** Unlocking gives back exactly the entry that was locked. */
  lemma UnlockUndoesLock(e: Entry)
    requires e.Unused? || e.Leaf? || (e.Invalidated? && e.pfn.bits != 0)
    ensures Unlock(Lock(e)) == e
  {
  }

  lemma LockDecodes(pte: bv64)
    ensures !Decode(pte).Table? ==> Decode(LockPte(pte)) == Lock(Decode(pte))
    ensures Decode(pte).LockedUnmapped? || Decode(pte).LockedMapped? ==> Decode(UnlockPte(pte)) == Unlock(Decode(pte))
  {
    hide InRange, PfnOf, IsValid, IsLeaf, IsLocked, LockPte, UnlockPte;
    LockKeepsPfn(pte);
    LockKeepsBits(pte);
    UnlockKeepsPfn(pte);
    UnlockKeepsBits(pte);
  }

  lemma InvalidateDecodes(pte: bv64)
    requires Decode(pte).Leaf? && Decode(pte).pfn.bits != 0
    ensures Decode(InvalidatePte(pte)) == Invalidated(Decode(pte).pfn)
  {
    InvalidateKeepsPfn(pte);
    InvalidateKeepsBits(pte);
  }

  lemma UpdateDecodes(pte: bv64, pfn: Pfn)
    requires Decode(pte).LockedMapped? && InRange(pfn)
    ensures Decode(UpdatePfn(pte, pfn)) == LockedMapped(pfn)
  {
    UpdateSetsPfn(pte, pfn);
    UpdateKeepsBits(pte, pfn);
  }

  /* ---------------- What the hardware reads ---------------- */

  /** A word for a guest page: if it is valid, it allows the guest to read, write and execute, and no reserved bit
      is set. */
  predicate LeafWordOk(pte: bv64) {
    pte & 0x1 != 0 ==> pte & 0xFF == 0x1F && pte >> 54 == 0
  }

  /** The word that points to a table. */
  function PointerWord(pfn: Pfn): (pte: bv64) { (pfn.bits << 10) | 0x1 }

  lemma SetWords(pfn: Pfn)
    requires InRange(pfn)
    ensures LeafWordOk(SetPte(pfn, USER_RWX)) && SetPte(pfn, NON_LEAF) == PointerWord(pfn)
  {
  }

  lemma LockWords(pte: bv64)
    requires LeafWordOk(pte)
    ensures LeafWordOk(LockPte(pte)) && LeafWordOk(UnlockPte(pte))
  {
    LockedLow(pte);
    LockedHigh(pte);
  }

  lemma LockedLow(pte: bv64)
    ensures LockPte(pte) & 0x1 == pte & 0x1 && LockPte(pte) & 0xFF == pte & 0xFF
    ensures UnlockPte(pte) & 0x1 == pte & 0x1 && UnlockPte(pte) & 0xFF == pte & 0xFF
  {
  }

  lemma LockedHigh(pte: bv64)
    ensures LockPte(pte) >> 54 == pte >> 54 && UnlockPte(pte) >> 54 == pte >> 54
  {
  }

  lemma InvalidWords(pte: bv64)
    ensures LeafWordOk(InvalidatePte(pte)) && LeafWordOk(0)
  {
    assert (pte & !VALID) & 0x1 == 0;
  }

  lemma UpdateWords(pte: bv64, pfn: Pfn)
    requires LeafWordOk(pte) && InRange(pfn)
    ensures LeafWordOk(UpdatePfn(pte, pfn))
  {
    assert UpdatePfn(pte, pfn) & 0xFF == pte & 0xFF;
    assert UpdatePfn(pte, pfn) & 0x1 == pte & 0x1;
    assert UpdatePfn(pte, pfn) >> 54 == pte >> 54;
  }

  lemma ZeroDecodes()
    ensures Decode(0) == Unused
  {
  }
}
