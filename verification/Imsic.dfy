/** The layout of the interrupt files of a system, as in section 3.6 of the RISC-V Advanced Interrupt
    Architecture: the number of a file within its hart, of a hart within its group, and of a group are fields of
    the bits of its address. */
module Imsics {
  import opened Basics
  import opened Bits

  datatype Error = InvalidGuestsPerHart | InvalidGroupIndexShift | InvalidAddressPattern

  type Result<+T> = Fallible<T, Error>

  datatype File = Supervisor | Guest(guest: nat)

  datatype Location = Location(group: nat, hart: nat, file: File)

  datatype Geometry = Geometry(base: nat, groupBits: nat, groupShift: nat, hartBits: nat, guestBits: nat,
                               guestsPerHart: nat)

  const PAGE_SHIFT: nat := 12
  const MIN_GROUP_SHIFT: nat := 24

  /* ---------------- Words of 64 bits ---------------- */

  function Shl(x: nat, s: nat): (r: nat) {
    Scale(x, Pow2(s)) % Pow2(64)
  }

  function GenMask(n: nat, s: nat): (r: nat) {
    Shl(Pow2(n) - 1, s)
  }

  function Extract(x: nat, n: nat, s: nat): (r: nat) {
    And(Quotient(x, Pow2(s)), Pow2(n) - 1)
  }

  function Not(x: nat): (r: nat) {
    if x < Pow2(64) then Pow2(64) - 1 - x else 0
  }

  /* ---------------- The geometry ---------------- */

  function IndexMask(g: Geometry): (m: nat) {
    Or(GenMask(g.hartBits + g.guestBits, PAGE_SHIFT), GenMask(g.groupBits, g.groupShift))
  }

  function New(base: nat, groupBits: nat, groupShift: nat, hartBits: nat, guestBits: nat,
               guestsPerHart: nat): (r: Result<Geometry>) {
    if guestsPerHart >= Pow2(guestBits) then Err(InvalidGuestsPerHart)
    else if groupShift + groupBits >= 64 || groupShift < MIN_GROUP_SHIFT
            || groupShift < PAGE_SHIFT + hartBits + guestBits
    then Err(InvalidGroupIndexShift)
    else var g := Geometry(base, groupBits, groupShift, hartBits, guestBits, guestsPerHart);
      if And(base, IndexMask(g)) != 0 then Err(InvalidAddressPattern) else Ok(g)
  }

  /** The geometries there are: accepted by New, at the address of a page. */
  predicate Accepted(g: Geometry) {
    && IsPage(g.base)
    && New(g.base, g.groupBits, g.groupShift, g.hartBits, g.guestBits, g.guestsPerHart) == Ok(g)
  }

  predicate IsPage(a: nat) {
    a < Pow2(64) && a % Pow2(PAGE_SHIFT) == 0
  }

  function FileIndex(f: File): (i: nat) {
    match f case Supervisor => 0 case Guest(g) => g + 1
  }

  function FromIndex(i: nat): (f: File)
    ensures FileIndex(f) == i
  {
    if i == 0 then Supervisor else Guest(i - 1)
  }

  /** The number of a file is a number of 32 bits. */
  predicate LocationOk(loc: Location) {
    FileIndex(loc.file) < Pow2(32)
  }

  predicate IsValid(g: Geometry, loc: Location) {
    loc.group < Pow2(g.groupBits) && loc.hart < Pow2(g.hartBits) && FileIndex(loc.file) <= g.guestsPerHart
  }

  function CheckedAddPages(base: nat, n: nat): (r: Option<nat>) {
    if base + Scale(n, Pow2(PAGE_SHIFT)) < Pow2(64) then Some(base + Scale(n, Pow2(PAGE_SHIFT))) else None
  }

  function NumPages(g: Geometry, loc: Location): (n: nat) {
    Or(Or(FileIndex(loc.file), Shl(loc.hart, g.guestBits)),
       Shl(loc.group, if g.groupShift >= PAGE_SHIFT then g.groupShift - PAGE_SHIFT else 0))
  }

  function LocationToAddr(g: Geometry, loc: Location): (r: Option<nat>) {
    if !IsValid(g, loc) then None else CheckedAddPages(g.base, NumPages(g, loc))
  }

  /** The low 32 bits. */
  function Truncate(x: nat): (r: nat) {
    x % Pow2(32)
  }

  function FileOf(g: Geometry, addr: nat): (i: nat) {
    Truncate(Extract(addr, g.guestBits, PAGE_SHIFT))
  }

  function AddrToLocation(g: Geometry, addr: nat): (r: Option<Location>) {
    if And(addr, Not(IndexMask(g))) != g.base || FileOf(g, addr) > g.guestsPerHart then None
    else Some(Location(Extract(addr, g.groupBits, g.groupShift), Extract(addr, g.hartBits, g.guestBits + PAGE_SHIFT),
                       FromIndex(FileOf(g, addr))))
  }

  /* ---------------- Arithmetic of fields ---------------- */

  lemma {:induction false} PowUp(m: nat, n: nat)
    requires m <= n
    ensures Pow2(m) <= Pow2(n)
  {
    if m < n { PowUp(m, n - 1); }
  }

  lemma ScaleBelow(x: nat, n: nat, s: nat)
    requires x < Pow2(n)
    ensures Scale(x, Pow2(s)) + Pow2(s) <= Pow2(n + s)
  {
    PowAdd(n, s);
    Times(x + 1, Pow2(n), Pow2(s));
    Distribute(x, 1, Pow2(s));
  }

  /** A shift that loses no bits. */
  lemma ShlIs(x: nat, n: nat, s: nat)
    requires x < Pow2(n) && n + s <= 64
    ensures Shl(x, s) == Scale(x, Pow2(s))
  {
    hide Pow2;
    ScaleBelow(x, n, s);
    PowUp(n + s, 64);
    SmallMod(Scale(x, Pow2(s)), Pow2(64));
  }

  lemma SmallMod(x: nat, d: nat)
    requires x < d
    ensures x % d == x
  {
  }

  lemma ScaleMod(x: nat, s: nat)
    ensures Scale(x, Pow2(s)) % Pow2(s) == 0
  {
    MultipleMod(x, Pow2(s));
  }

  lemma ExtractIs(x: nat, n: nat, s: nat)
    ensures Extract(x, n, s) == Field(x, n, s)
  {
    hide And, Pow2;
    AndLow(Quotient(x, Pow2(s)), n);
  }

  /** The fields of a geometry: `low` for file and hart together, and the group. */
  ghost function LowOf(g: Geometry, x: nat): nat {
    Field(x, g.hartBits + g.guestBits, PAGE_SHIFT)
  }

  ghost function GroupOf(g: Geometry, x: nat): nat {
    Field(x, g.groupBits, g.groupShift)
  }

  /** The part of an address that the fields account for. */
  ghost function Index(g: Geometry, low: nat, group: nat): nat {
    Scale(low, Pow2(PAGE_SHIFT)) + Scale(group, Pow2(g.groupShift))
  }

  ghost predicate Shape(g: Geometry) {
    && g.guestsPerHart < Pow2(g.guestBits) && g.groupShift + g.groupBits < 64
    && g.groupShift >= MIN_GROUP_SHIFT && g.groupShift >= PAGE_SHIFT + g.hartBits + g.guestBits
  }

  lemma MaskIs(g: Geometry)
    requires Shape(g)
    ensures IndexMask(g) == Or(Mask(g.hartBits + g.guestBits, PAGE_SHIFT), Mask(g.groupBits, g.groupShift))
    ensures IndexMask(g) < Pow2(64)
  {
    hide Pow2, Or, Shl, Scale;
    var n := g.hartBits + g.guestBits;
    ShlIs(Pow2(n) - 1, n, PAGE_SHIFT);
    ShlIs(Pow2(g.groupBits) - 1, g.groupBits, g.groupShift);
    ScaleBelow(Pow2(n) - 1, n, PAGE_SHIFT);
    ScaleBelow(Pow2(g.groupBits) - 1, g.groupBits, g.groupShift);
    PowUp(n + PAGE_SHIFT, g.groupShift);
    PowUp(g.groupBits + g.groupShift, 64);
    ScaleMod(Pow2(g.groupBits) - 1, g.groupShift);
    OrIsSum(Mask(n, PAGE_SHIFT), Mask(g.groupBits, g.groupShift), g.groupShift);
  }

  lemma LowBelow(g: Geometry, low: nat)
    requires Shape(g) && low < Pow2(g.hartBits + g.guestBits)
    ensures Scale(low, Pow2(PAGE_SHIFT)) < Pow2(g.groupShift)
  {
    ScaleBelow(low, g.hartBits + g.guestBits, PAGE_SHIFT);
    PowUp(g.hartBits + g.guestBits + PAGE_SHIFT, g.groupShift);
  }

  /** The masked bits of a number are its two fields in place. */
  lemma AndMask(g: Geometry, x: nat)
    requires Shape(g)
    ensures And(x, IndexMask(g)) == Index(g, LowOf(g, x), GroupOf(g, x))
  {
    hide And, Or, Pow2, Scale, Field;
    var n := g.hartBits + g.guestBits;
    MaskIs(g);
    AndOr(x, Mask(n, PAGE_SHIFT), Mask(g.groupBits, g.groupShift));
    AndField(x, n, PAGE_SHIFT);
    AndField(x, g.groupBits, g.groupShift);
    ScaleIs(LowOf(g, x), Pow2(PAGE_SHIFT));
    ScaleIs(GroupOf(g, x), Pow2(g.groupShift));
    LowBelow(g, LowOf(g, x));
    ScaleMod(GroupOf(g, x), g.groupShift);
    OrIsSum(Scale(LowOf(g, x), Pow2(PAGE_SHIFT)), Scale(GroupOf(g, x), Pow2(g.groupShift)), g.groupShift);
  }

  lemma ScaleIs(a: nat, b: nat)
    ensures Scale(a, b) == a * b
  {
  }

  /** The unmasked bits are those of the base exactly when the number is the base and the fields together. */
  lemma AndNotMask(g: Geometry, x: nat)
    requires Shape(g) && x < Pow2(64)
    ensures And(x, Not(IndexMask(g))) == g.base <==> x == g.base + Index(g, LowOf(g, x), GroupOf(g, x))
  {
    hide And, Pow2, Index;
    MaskIs(g);
    AndMask(g, x);
    AndNot(x, IndexMask(g), 64);
  }

  lemma AcceptedShape(g: Geometry)
    requires Accepted(g)
    ensures Shape(g) && LowOf(g, g.base) == 0 && GroupOf(g, g.base) == 0
  {
    AndMask(g, g.base);
    ScaleZero(LowOf(g, g.base), Pow2(PAGE_SHIFT));
    ScaleZero(GroupOf(g, g.base), Pow2(g.groupShift));
  }

  /** What New accepts: geometries whose fields fit in an address without overlap, at a page whose address has
      no bits in them. */
  lemma AcceptedIff(g: Geometry)
    ensures Accepted(g) <==> IsPage(g.base) && Shape(g) && LowOf(g, g.base) == 0 && GroupOf(g, g.base) == 0
  {
    if Accepted(g) { AcceptedShape(g); }
    if Shape(g) {
      AndMask(g, g.base);
      ScaleIs(0, Pow2(PAGE_SHIFT));
      ScaleIs(0, Pow2(g.groupShift));
    }
  }

  lemma ScaleZero(a: nat, d: nat)
    requires d > 0
    ensures Scale(a, d) == 0 ==> a == 0
  {
    if a > 0 { Positive(a, d); }
  }

  /** Numbers in fields: with `u` the size of a page, `w` and `g` the numbers of values of the two fields and `m`
      that of the bits between them, the fields of a base with zero fields can be filled in. */
  lemma Compose(base: nat, u: nat, w: nat, m: nat, g: nat, low: nat, group: nat)
    requires u > 0 && w > 0 && m > 0 && g > 0 && low < w && group < g
    requires base % u == 0 && base / u % w == 0 && base / u / w / m % g == 0
    ensures var x := base + low * u + group * (u * w * m);
            x % u == 0 && x / u % w == low && x / u / w / m % g == group && x / u / w / m / g == base / u / w / m / g
  {
    var b := base / u / w;
    DivMul(base, u, w, b);
    DivMul(b, m, g, b / m / g);
    ComposeFrom(base, u, w, m, g, low, group, b / m / g, b % m);
  }

  lemma DivMul(x: nat, u: nat, w: nat, q: nat)
    requires u > 0 && w > 0 && x / u % w == 0 && q == x / u / w
    ensures x == q * w * u + x % u && x / u == q * w
  {
  }

  lemma ComposeFrom(base: nat, u: nat, w: nat, m: nat, g: nat, low: nat, group: nat, t: nat, c: nat)
    requires low < w && group < g && c < m && u > 0 && base == (t * g * m + c) * w * u
    ensures var x := base + low * u + group * (u * w * m);
            x % u == 0 && x / u % w == low && x / u / w / m % g == group && x / u / w / m / g == t
  {
    var q := t * g + group;
    Regroup(base, u, w, m, t * g, c, low, group);
    Digits(base + low * u + group * (u * w * m), u, w, m, g, (q * m + c) * w + low, q * m + c, q, t, low, c, group);
  }

  /** Division takes the digits of a number off one by one. */
  lemma Digits(x: nat, u: nat, w: nat, m: nat, g: nat, x1: nat, x2: nat, x3: nat, t: nat, low: nat, c: nat, group: nat)
    requires u > 0 && low < w && c < m && group < g
    requires x == x1 * u && x1 == x2 * w + low && x2 == x3 * m + c && x3 == t * g + group
    ensures x % u == 0 && x / u % w == low && x / u / w / m % g == group && x / u / w / m / g == t
  {
    DivIs(x, x1, u, 0);
    DivIs(x1, x2, w, low);
    DivIs(x2, x3, m, c);
    DivIs(x3, t, g, group);
  }

  lemma Regroup(base: nat, u: nat, w: nat, m: nat, tg: nat, c: nat, low: nat, group: nat)
    requires base == (tg * m + c) * w * u
    ensures base + low * u + group * (u * w * m) == (((tg + group) * m + c) * w + low) * u
  {
    Distribute(tg, group, m);
    Distribute(tg * m + c, group * m, w);
    Distribute((tg * m + c) * w + group * m * w, low, u);
    Distribute((tg * m + c) * w, group * m * w, u);
    assert group * (u * w * m) == group * m * w * u;
  }

  /** Filling in the fields of the base gives the address of a page with those fields. */
  lemma FieldsOf(g: Geometry, low: nat, group: nat)
    requires Accepted(g) && low < Pow2(g.hartBits + g.guestBits) && group < Pow2(g.groupBits)
    ensures var x := g.base + Index(g, low, group);
            IsPage(x) && LowOf(g, x) == low && GroupOf(g, x) == group
  {
    hide Pow2, New;
    AcceptedShape(g);
    var n := g.hartBits + g.guestBits;
    var k := g.groupShift - PAGE_SHIFT - n;
    var rest := 64 - g.groupShift - g.groupBits;
    var u, w, m, gr := Pow2(PAGE_SHIFT), Pow2(n), Pow2(k), Pow2(g.groupBits);
    PowAdd(PAGE_SHIFT + n, k);
    PowAdd(PAGE_SHIFT, n);
    assert Pow2(g.groupShift) == u * w * m;
    var x := g.base + Index(g, low, group);
    assert x == g.base + low * u + group * (u * w * m);
    Quotients(g.base, u, w, m);
    Quotients(x, u, w, m);
    Compose(g.base, u, w, m, gr, low, group);
    PowAdd(g.groupShift, g.groupBits);
    PowAdd(g.groupShift + g.groupBits, rest);
    Fits(g.base, x, Pow2(g.groupShift), gr, Pow2(rest));
  }

  lemma Quotients(x: nat, u: nat, w: nat, m: nat)
    requires u > 0 && w > 0 && m > 0
    ensures u * w * m > 0 && x / (u * w * m) == x / u / w / m
  {
    Positive(u, w);
    Positive(u * w, m);
    DivDiv(x, u, w);
    DivDiv(x, u * w, m);
  }

  /** Numbers that agree above the fields are both in a range that is a multiple of their size, or neither is. */
  lemma Fits(b: nat, x: nat, s: nat, g: nat, q: nat)
    requires s > 0 && g > 0 && q > 0 && b < s * g * q && x / s / g == b / s / g
    ensures x < s * g * q
  {
    Positive(s, g);
    DivDiv(b, s, g);
    DivDiv(x, s, g);
    DivBelow(b, s * g, q);
    DivBelow(x, s * g, q);
  }

  lemma DivBelow(x: nat, d: nat, q: nat)
    requires d > 0
    ensures x < d * q <==> x / d < q
  {
    var p := x / d;
    if p < q {
      Times(p + 1, q, d);
      Distribute(p, 1, d);
    } else {
      Times(q, p, d);
    }
  }

  /* ---------------- Locations ---------------- */

  /** The number of a file among those of its group. */
  ghost function LowAt(g: Geometry, loc: Location): nat {
    FileIndex(loc.file) + Scale(loc.hart, Pow2(g.guestBits))
  }

  lemma LowAtBelow(g: Geometry, loc: Location)
    requires Shape(g) && IsValid(g, loc)
    ensures LowAt(g, loc) < Pow2(g.hartBits + g.guestBits)
  {
    ScaleBelow(loc.hart, g.hartBits, g.guestBits);
  }

  lemma NumPagesIs(g: Geometry, loc: Location)
    requires Shape(g) && IsValid(g, loc)
    ensures NumPages(g, loc) == LowAt(g, loc) + Scale(loc.group, Pow2(g.groupShift - PAGE_SHIFT))
  {
    hide Pow2, Or, Shl, Scale;
    var f := FileIndex(loc.file);
    ShlIs(loc.hart, g.hartBits, g.guestBits);
    ScaleMod(loc.hart, g.guestBits);
    OrIsSum(f, Scale(loc.hart, Pow2(g.guestBits)), g.guestBits);
    var s := g.groupShift - PAGE_SHIFT;
    ShlIs(loc.group, g.groupBits, s);
    ScaleMod(loc.group, s);
    LowAtBelow(g, loc);
    PowUp(g.hartBits + g.guestBits, s);
    OrIsSum(LowAt(g, loc), Scale(loc.group, Pow2(s)), s);
  }

  /** Every valid location has an address, in the address space. */
  lemma AddrOf(g: Geometry, loc: Location)
    requires Accepted(g) && IsValid(g, loc)
    ensures LocationToAddr(g, loc) == Some(g.base + Index(g, LowAt(g, loc), loc.group))
    ensures IsPage(g.base + Index(g, LowAt(g, loc), loc.group))
  {
    hide Pow2, NumPages, New;
    AcceptedShape(g);
    NumPagesIs(g, loc);
    LowAtBelow(g, loc);
    FieldsOf(g, LowAt(g, loc), loc.group);
    PowAdd(g.groupShift - PAGE_SHIFT, PAGE_SHIFT);
    Distribute(LowAt(g, loc), Scale(loc.group, Pow2(g.groupShift - PAGE_SHIFT)), Pow2(PAGE_SHIFT));
    Product(loc.group, Pow2(g.groupShift - PAGE_SHIFT), Pow2(PAGE_SHIFT));
  }

  /** The field of file and hart is made of the two. */
  lemma SplitLow(g: Geometry, x: nat)
    ensures LowOf(g, x) == Field(x, g.guestBits, PAGE_SHIFT) + Scale(Field(x, g.hartBits, g.guestBits + PAGE_SHIFT),
                                                                     Pow2(g.guestBits))
  {
    hide Pow2;
    PowAdd(g.guestBits, g.hartBits);
    PowAdd(PAGE_SHIFT, g.guestBits);
    SplitRem(x, Pow2(PAGE_SHIFT), Pow2(g.guestBits), Pow2(g.hartBits));
  }

  lemma SplitRem(x: nat, u: nat, a: nat, b: nat)
    requires u > 0 && a > 0 && b > 0
    ensures a * b > 0 && u * a > 0 && x / u % (a * b) == x / u % a + Scale(x / (u * a) % b, a)
  {
    DivDiv(x / u, a, b);
    DivDiv(x, u, a);
  }

  /** A pair of numbers in one is unique. */
  lemma UniqueLow(f: nat, h: nat, i: nat, j: nat, a: nat)
    requires f < a && i < a && f + Scale(h, a) == i + Scale(j, a)
    ensures f == i && h == j
  {
    DivIs(f + Scale(h, a), h, a, f);
    DivIs(i + Scale(j, a), j, a, i);
  }

  ghost predicate InGeometry(g: Geometry, addr: nat) {
    And(addr, Not(IndexMask(g))) == g.base
  }

  /** What an address is translated to. */
  lemma LocationOf(g: Geometry, addr: nat)
    requires Accepted(g) && IsPage(addr)
    ensures AddrToLocation(g, addr).Some? <==> InGeometry(g, addr) && FileOf(g, addr) <= g.guestsPerHart
    ensures AddrToLocation(g, addr).Some? ==>
              var loc := AddrToLocation(g, addr).value;
              && loc.group == GroupOf(g, addr) && loc.hart == Field(addr, g.hartBits, g.guestBits + PAGE_SHIFT)
              && FileIndex(loc.file) == Truncate(Field(addr, g.guestBits, PAGE_SHIFT))
              && IsValid(g, loc)
  {
    hide And, Pow2, New;
    ExtractIs(addr, g.groupBits, g.groupShift);
    ExtractIs(addr, g.hartBits, g.guestBits + PAGE_SHIFT);
    ExtractIs(addr, g.guestBits, PAGE_SHIFT);
  }

  /** Translating a location to an address and back gives the location. */
  lemma LocationRoundTrip(g: Geometry, loc: Location)
    requires Accepted(g) && IsValid(g, loc) && LocationOk(loc)
    ensures LocationToAddr(g, loc).Some?
    ensures AddrToLocation(g, LocationToAddr(g, loc).value) == Some(loc)
  {
    hide And, Pow2, New, Field, Scale, Index, FileOf, Truncate, Extract, NumPages, IndexMask, IsPage;
    AcceptedShape(g);
    AddrOf(g, loc);
    var x := LocationToAddr(g, loc).value;
    LowAtBelow(g, loc);
    FieldsOf(g, LowAt(g, loc), loc.group);
    AndNotMask(g, x);
    SplitLow(g, x);
    UniqueLow(FileIndex(loc.file), loc.hart, Field(x, g.guestBits, PAGE_SHIFT),
              Field(x, g.hartBits, g.guestBits + PAGE_SHIFT), Pow2(g.guestBits));
    LocationOf(g, x);
    FileIs(g, x);
    TruncateSmall(FileIndex(loc.file));
  }

  lemma TruncateSmall(x: nat)
    requires x < Pow2(32)
    ensures Truncate(x) == x
  {
    hide Pow2;
    SmallMod(x, Pow2(32));
  }

  lemma FileIs(g: Geometry, addr: nat)
    ensures FileOf(g, addr) == Truncate(Field(addr, g.guestBits, PAGE_SHIFT))
  {
    ExtractIs(addr, g.guestBits, PAGE_SHIFT);
  }

  /** Translating an address to a location and back gives the address, if the numbers of files have 32 bits at
      most. */
  lemma AddrRoundTrip(g: Geometry, addr: nat)
    requires Accepted(g) && IsPage(addr) && g.guestBits <= 32 && AddrToLocation(g, addr).Some?
    ensures LocationToAddr(g, AddrToLocation(g, addr).value) == Some(addr)
  {
    hide And, Pow2, New, Field, Scale, Index, FileOf, Truncate, Extract, NumPages, IndexMask;
    AcceptedShape(g);
    LocationOf(g, addr);
    var loc := AddrToLocation(g, addr).value;
    AddrOf(g, loc);
    AndNotMask(g, addr);
    SplitLow(g, addr);
    PowUp(g.guestBits, 32);
    TruncateSmall(Field(addr, g.guestBits, PAGE_SHIFT));
  }

  /** The two translations are inverse. */
  ghost predicate Inverse(g: Geometry) {
    forall addr: nat, loc: Location | IsPage(addr) && LocationOk(loc) ::
      AddrToLocation(g, addr) == Some(loc) <==> LocationToAddr(g, loc) == Some(addr)
  }

  /** In a geometry with more bits for files, the page with number 2^32 is taken for that with number 0. */
  lemma TruncatedFile(g: Geometry)
    requires Accepted(g) && g.guestBits > 32
    ensures var addr := g.base + Index(g, Pow2(32), 0);
            && IsPage(addr) && AddrToLocation(g, addr) == Some(Location(0, 0, Supervisor))
            && LocationToAddr(g, Location(0, 0, Supervisor)) == Some(g.base) && addr != g.base
  {
    hide And, Pow2, New, Field, FileOf;
    AcceptedShape(g);
    var low := Pow2(32);
    PowUp(33, g.guestBits);
    PowUp(g.guestBits, g.hartBits + g.guestBits);
    PowTwice(32);
    FieldsOf(g, low, 0);
    var addr := g.base + Index(g, low, 0);
    AndNotMask(g, addr);
    SplitLow(g, addr);
    UniqueLow(low, 0, Field(addr, g.guestBits, PAGE_SHIFT), Field(addr, g.hartBits, g.guestBits + PAGE_SHIFT),
              Pow2(g.guestBits));
    FileIs(g, addr);
    TruncateAll();
    LocationOf(g, addr);
    AddrOf(g, Location(0, 0, Supervisor));
    Positive(low, Pow2(PAGE_SHIFT));
  }

  lemma TruncateAll()
    ensures Truncate(Pow2(32)) == 0
  {
    hide Pow2;
    DivIs(Pow2(32), 1, Pow2(32), 0);
  }

  lemma PowTwice(n: nat)
    ensures Pow2(n + 1) == 2 * Pow2(n)
  {
  }

  lemma InverseIff(g: Geometry)
    requires Accepted(g)
    ensures Inverse(g) <==> g.guestBits <= 32
  {
    hide AddrToLocation, LocationToAddr, Accepted, IsPage, Index, IsValid;
    if g.guestBits <= 32 {
      forall addr: nat, loc: Location | IsPage(addr) && LocationOk(loc)
        ensures AddrToLocation(g, addr) == Some(loc) <==> LocationToAddr(g, loc) == Some(addr)
      {
        if AddrToLocation(g, addr) == Some(loc) { AddrRoundTrip(g, addr); }
        if LocationToAddr(g, loc) == Some(addr) {
          HasAddr(g, loc);
          LocationRoundTrip(g, loc);
        }
      }
    } else {
      TruncatedFile(g);
    }
  }

  lemma HasAddr(g: Geometry, loc: Location)
    ensures LocationToAddr(g, loc).Some? ==> IsValid(g, loc)
  {
  }

  /* ---------------- The ranges of the groups ---------------- */

  datatype Range = Range(base: nat, pages: nat)

  ghost function RangeAt(g: Geometry, i: nat): Range {
    Range(g.base + Scale(i, Pow2(g.groupShift)), Pow2(g.hartBits + g.guestBits))
  }

  ghost predicate Within(r: Range, x: nat) {
    r.base <= x < r.base + Scale(r.pages, Pow2(PAGE_SHIFT))
  }

  /** The range of a group has exactly the pages with the number of that group, and it is in the address space. */
  lemma RangeHolds(g: Geometry, i: nat, x: nat)
    requires Accepted(g) && i < Pow2(g.groupBits) && x % Pow2(PAGE_SHIFT) == 0
    ensures Within(RangeAt(g, i), x) <==> IsPage(x) && InGeometry(g, x) && GroupOf(g, x) == i
  {
    hide And, Pow2, New, Field, Not, IndexMask;
    AcceptedShape(g);
    var u := Pow2(PAGE_SHIFT);
    if Within(RangeAt(g, i), x) {
      FieldsOf(g, 0, i);
      var low := LowIn(g, i, x);
      FieldsOf(g, low, i);
      AndNotMask(g, x);
    }
    if IsPage(x) && InGeometry(g, x) && GroupOf(g, x) == i {
      AndNotMask(g, x);
      Times(LowOf(g, x) + 1, Pow2(g.hartBits + g.guestBits), u);
      Distribute(LowOf(g, x), 1, u);
    }
  }

  lemma LowIn(g: Geometry, i: nat, x: nat) returns (low: nat)
    requires x % Pow2(PAGE_SHIFT) == 0 && Within(RangeAt(g, i), x) && g.base % Pow2(PAGE_SHIFT) == 0
             && g.groupShift >= PAGE_SHIFT
    ensures low < Pow2(g.hartBits + g.guestBits) && x == g.base + Index(g, low, i)
  {
    hide Pow2;
    var u := Pow2(PAGE_SHIFT);
    var s := g.groupShift - PAGE_SHIFT;
    PowAdd(s, PAGE_SHIFT);
    Product(i, Pow2(s), u);
    var c := Exactly(g.base, u);
    var y := Exactly(x, u);
    var b := c + i * Pow2(s);
    Distribute(c, i * Pow2(s), u);
    assert RangeAt(g, i).base == b * u;
    low := Between(y, b, Pow2(g.hartBits + g.guestBits), u);
  }

  lemma Exactly(x: nat, u: nat) returns (q: nat)
    requires u > 0 && x % u == 0
    ensures x == q * u
  {
    q := x / u;
  }

  lemma Between(y: nat, b: nat, n: nat, u: nat) returns (low: nat)
    requires u > 0 && b * u <= y * u < b * u + n * u
    ensures low < n && y * u == b * u + low * u
  {
    Distribute(b, n, u);
    Distribute(y, 1, u);
    Less(b, y + 1, u);
    Less(y, b + n, u);
    low := y - b;
    Distribute(b, low, u);
  }

  lemma Less(p: nat, q: nat, d: nat)
    requires p * d < q * d
    ensures p < q
  {
    if p >= q { Times(q, p, d); }
  }

  /** The ranges of different groups are disjoint, and every file is in that of its group. */
  lemma RangesPartition(g: Geometry, loc: Location, x: nat, i: nat, j: nat)
    requires Accepted(g) && i < Pow2(g.groupBits) && j < Pow2(g.groupBits) && x % Pow2(PAGE_SHIFT) == 0
    ensures Within(RangeAt(g, i), x) && Within(RangeAt(g, j), x) ==> i == j
    ensures LocationToAddr(g, loc) == Some(x) ==> (Within(RangeAt(g, i), x) <==> i == loc.group)
  {
    hide And, Pow2, New, Field, RangeAt, Within, InGeometry;
    RangeHolds(g, i, x);
    RangeHolds(g, j, x);
    if LocationToAddr(g, loc) == Some(x) {
      AcceptedShape(g);
      AddrOf(g, loc);
      LowAtBelow(g, loc);
      FieldsOf(g, LowAt(g, loc), loc.group);
      InIff(g, x);
    }
  }

  lemma InIff(g: Geometry, x: nat)
    requires Shape(g) && x < Pow2(64)
    ensures InGeometry(g, x) <==> x == g.base + Index(g, LowOf(g, x), GroupOf(g, x))
  {
    AndNotMask(g, x);
  }

  /** An iterator over the ranges of the groups. */
  class GroupRangeIter {
    ghost const geometry: Geometry
    const base: nat
    const groupShift: nat
    var index: nat
    const total: nat
    const groupPages: nat

    ghost predicate Valid()
      reads this
    {
      && Accepted(geometry) && base == geometry.base && groupShift == geometry.groupShift
      && total == Pow2(geometry.groupBits) && groupPages == Pow2(geometry.hartBits + geometry.guestBits)
      && index <= total
    }

    constructor (g: Geometry)
      requires Accepted(g)
      ensures Valid() && geometry == g && index == 0
    {
      geometry, base, groupShift, index := g, g.base, g.groupShift, 0;
      total, groupPages := Pow2(g.groupBits), Pow2(g.hartBits + g.guestBits);
    }

    /** Returns the range of each group in turn, and nothing once there are none left. */
    method NextRange() returns (r: Option<Range>)
      requires Valid()
      modifies this`index
      ensures Valid()
      ensures if old(index) < Pow2(geometry.groupBits)
              then r == Some(RangeAt(geometry, old(index))) && index == old(index) + 1
              else r == None && index == old(index)
    {
      if index >= total { return None; }
      IterAddr(geometry, index);
      var pages := Shl(index, groupShift - PAGE_SHIFT);
      var start := CheckedAddPages(base, pages);
      if start.None? { return None; }
      index := index + 1;
      return Some(Range(start.value, groupPages));
    }
  }

  lemma IterAddr(g: Geometry, i: nat)
    requires Accepted(g) && i < Pow2(g.groupBits)
    ensures Shape(g)
    ensures CheckedAddPages(g.base, Shl(i, g.groupShift - PAGE_SHIFT)) == Some(RangeAt(g, i).base)
  {
    hide Pow2, New, Shl, Scale, Field, IndexMask;
    AcceptedShape(g);
    ShlIs(i, g.groupBits, g.groupShift - PAGE_SHIFT);
    ScaleTwice(i, g.groupShift - PAGE_SHIFT, PAGE_SHIFT);
    FieldsOf(g, 0, i);
    ScaleIs(0, Pow2(PAGE_SHIFT));
  }

  lemma ScaleTwice(i: nat, s: nat, k: nat)
    ensures Scale(Scale(i, Pow2(s)), Pow2(k)) == Scale(i, Pow2(s + k))
  {
    hide Pow2;
    PowAdd(s, k);
    Product(i, Pow2(s), Pow2(k));
  }
}
