/** The hardware memory map: regions of pages are added and parts of them reserved. */
module HwMemMaps {
  import opened PageMaps

  const MAX_HW_MEM_REGIONS: nat := 32

  datatype MapError = UnalignedRegion | OverlappingRegion | InvalidReservedRegion | OutOfSpace

  datatype Outcome = Reserved | Refused(error: MapError)

  datatype Found = NotFound | At(index: nat)

  /** Page `a` lies in a region of the given kind. */
  predicate KindAt(rs: seq<HwRegion>, a: nat, k: RegionKind) {
    exists i | 0 <= i < |rs| :: InRegion(rs[i], a) && rs[i].kind == k
  }

  lemma KindParts(rs: seq<HwRegion>, ts: seq<HwRegion>, a: nat, k: RegionKind)
    ensures KindAt(rs + ts, a, k) <==> KindAt(rs, a, k) || KindAt(ts, a, k)
  {
    if KindAt(rs, a, k) {
      var i :| 0 <= i < |rs| && InRegion(rs[i], a) && rs[i].kind == k;
      assert (rs + ts)[i] == rs[i];
    }
    if KindAt(ts, a, k) {
      var i :| 0 <= i < |ts| && InRegion(ts[i], a) && ts[i].kind == k;
      assert (rs + ts)[|rs| + i] == ts[i];
    }
    if KindAt(rs + ts, a, k) {
      var i :| 0 <= i < |rs + ts| && InRegion((rs + ts)[i], a) && (rs + ts)[i].kind == k;
      assert (rs + ts)[i] == if i < |rs| then rs[i] else ts[i - |rs|];
    }
  }

  lemma KindOne(r: HwRegion, a: nat, k: RegionKind)
    ensures KindAt([r], a, k) <==> InRegion(r, a) && r.kind == k
  {
    assert [r][0] == r;
  }

  function End(r: HwRegion): (n: nat) { r.base + r.count }

  predicate Fits(r: HwRegion, base: nat, count: nat) {
    r.kind == Available && r.base <= base && base + count <= End(r)
  }

  /** The first available region that holds the range. */
  function Find(rs: seq<HwRegion>, base: nat, count: nat, i: nat): (r: Found)
    requires i <= |rs|
    ensures r.At? ==> i <= r.index < |rs| && Fits(rs[r.index], base, count)
    ensures r.NotFound? ==> forall j | i <= j < |rs| :: !Fits(rs[j], base, count)
    decreases |rs| - i
  {
    if i == |rs| then NotFound else if Fits(rs[i], base, count) then At(i) else Find(rs, base, count, i + 1)
  }

  function Insert(rs: seq<HwRegion>, i: nat, r: HwRegion): (ts: seq<HwRegion>)
    requires i <= |rs|
  {
    rs[..i] + [r] + rs[i..]
  }

  /** reserve_region: the list afterwards and the outcome. The region is split as needed; if there is no room
      for its last part, that part is gone when the call fails. */
  function Reserve(rs: seq<HwRegion>, base: nat, count: nat, kind: RegionKind): (r: (seq<HwRegion>, Outcome)) {
    match Find(rs, base, count, 0)
    case NotFound => (rs, Refused(InvalidReservedRegion))
    case At(i) =>
      var other := rs[i];
      if base > other.base && |rs| >= MAX_HW_MEM_REGIONS then (rs, Refused(OutOfSpace))
      else
        var (us, j) := if base > other.base
            then (Insert(rs, i, HwRegion(other.base, base - other.base, Available)), i + 1) else (rs, i);
        var vs := us[j := HwRegion(base, count, kind)];
        if base + count < End(other) then
          if |vs| >= MAX_HW_MEM_REGIONS then (vs, Refused(OutOfSpace))
          else (Insert(vs, j + 1, HwRegion(base + count, End(other) - (base + count), Available)), Reserved)
        else (vs, Reserved)
  }

  function Front(r: HwRegion, base: nat): (s: seq<HwRegion>) {
    if base > r.base then [HwRegion(r.base, base - r.base, Available)] else []
  }

  function Back(r: HwRegion, end: nat): (s: seq<HwRegion>) {
    if end < End(r) then [HwRegion(end, End(r) - end, Available)] else []
  }

  /** The list with region `i` replaced by its front, the reservation and, perhaps, its back. */
  function Cut(rs: seq<HwRegion>, i: nat, mid: HwRegion, back: seq<HwRegion>): (ts: seq<HwRegion>)
    requires i < |rs|
  {
    rs[..i] + Front(rs[i], mid.base) + [mid] + back + rs[i + 1..]
  }

  lemma ReserveIsCut(rs: seq<HwRegion>, base: nat, count: nat, kind: RegionKind)
    ensures var (ts, o) := Reserve(rs, base, count, kind);
            match Find(rs, base, count, 0)
            case NotFound => ts == rs && o == Refused(InvalidReservedRegion)
            case At(i) =>
              var mid := HwRegion(base, count, kind);
              if o.Reserved? then ts == Cut(rs, i, mid, Back(rs[i], base + count))
              else o == Refused(OutOfSpace) && (ts == rs || (base + count < End(rs[i]) && ts == Cut(rs, i, mid, [])))
  {
    if Find(rs, base, count, 0).At? {
      var i, mid := Find(rs, base, count, 0).index, HwRegion(base, count, kind);
      hide Find, Fits, Insert, Front;
      SetMid(rs, i, mid);
      CutParts(rs, i, mid);
    }
  }

  /** The list after the reservation is set, with and without what is left behind it. */
  lemma CutParts(rs: seq<HwRegion>, i: nat, mid: HwRegion)
    requires i < |rs|
    ensures var xs, end := rs[..i] + Front(rs[i], mid.base), End(mid);
            && xs + [mid] + rs[i + 1..] == Cut(rs, i, mid, [])
            && (end >= End(rs[i]) ==> Cut(rs, i, mid, []) == Cut(rs, i, mid, Back(rs[i], end)))
            && (end < End(rs[i]) ==>
                  Insert(xs + [mid] + rs[i + 1..], |xs| + 1, HwRegion(end, End(rs[i]) - end, Available)) ==
                    Cut(rs, i, mid, Back(rs[i], end)))
  {
    hide Front;
    var xs, end := rs[..i] + Front(rs[i], mid.base), End(mid);
    InsertBehind(xs, mid, rs[i + 1..], HwRegion(end, if End(rs[i]) > end then End(rs[i]) - end else 0, Available));
  }

  lemma SetMid(rs: seq<HwRegion>, i: nat, mid: HwRegion)
    requires i < |rs|
    ensures var ts := rs[..i] + Front(rs[i], mid.base) + [mid] + rs[i + 1..];
            if mid.base > rs[i].base
            then var us := Insert(rs, i, HwRegion(rs[i].base, mid.base - rs[i].base, Available));
              |us| == |rs| + 1 && us[i + 1 := mid] == ts && |rs[..i] + Front(rs[i], mid.base)| == i + 1
            else rs[i := mid] == ts && |rs[..i] + Front(rs[i], mid.base)| == i
  {
  }

  lemma InsertBehind(xs: seq<HwRegion>, mid: HwRegion, ys: seq<HwRegion>, back: HwRegion)
    ensures Insert(xs + [mid] + ys, |xs| + 1, back) == xs + [mid] + [back] + ys
    ensures xs + [mid] + [] + ys == xs + [mid] + ys
  {
  }

  lemma CutMeans(rs: seq<HwRegion>, i: nat, mid: HwRegion, back: seq<HwRegion>, a: nat, k: RegionKind)
    requires InOrder(rs) && i < |rs| && Fits(rs[i], mid.base, mid.count)
             && (back == [] || back == Back(rs[i], End(mid)))
    ensures KindAt(Cut(rs, i, mid, back), a, k) <==>
            if InRegion(mid, a) then k == mid.kind
            else KindAt(rs, a, k) && (back == Back(rs[i], End(mid)) || !(End(mid) <= a < End(rs[i])))
  {
    var f := Front(rs[i], mid.base);
    KindParts(rs[..i] + f + [mid] + back, rs[i + 1..], a, k);
    KindParts(rs[..i] + f + [mid], back, a, k);
    KindParts(rs[..i] + f, [mid], a, k);
    KindParts(rs[..i], f, a, k);
    KindOne(mid, a, k);
    KindOne(HwRegion(rs[i].base, if mid.base > rs[i].base then mid.base - rs[i].base else 0, Available), a, k);
    KindOne(HwRegion(End(mid), End(rs[i]) - End(mid), Available), a, k);
    assert rs == rs[..i] + [rs[i]] + rs[i + 1..];
    KindParts(rs[..i] + [rs[i]], rs[i + 1..], a, k);
    KindParts(rs[..i], [rs[i]], a, k);
    KindOne(rs[i], a, k);
    if InRegion(rs[i], a) { Elsewhere(rs, i, a, k); }
  }

  /** Pages of one region are in no other. */
  lemma Elsewhere(rs: seq<HwRegion>, i: nat, a: nat, k: RegionKind)
    requires InOrder(rs) && i < |rs| && InRegion(rs[i], a)
    ensures !KindAt(rs[..i], a, k) && !KindAt(rs[i + 1..], a, k)
  {
  }

  lemma CutOk(rs: seq<HwRegion>, i: nat, mid: HwRegion, back: seq<HwRegion>)
    requires InOrder(rs) && i < |rs| && Fits(rs[i], mid.base, mid.count)
             && (back == [] || back == Back(rs[i], End(mid)))
    ensures InOrder(Cut(rs, i, mid, back))
    ensures RegionsOk(rs) && mid.count > 0 ==> RegionsOk(Cut(rs, i, mid, back))
  {
    var f := Front(rs[i], mid.base);
    Join(rs[..i], f, rs[i].base);
    Join(rs[..i] + f, [mid], mid.base);
    Join(rs[..i] + f + [mid], back, End(mid));
    Join(rs[..i] + f + [mid] + back, rs[i + 1..], End(rs[i]));
  }

  lemma Join(rs: seq<HwRegion>, ts: seq<HwRegion>, p: nat)
    requires InOrder(rs) && InOrder(ts)
    requires (forall i | 0 <= i < |rs| :: End(rs[i]) <= p) && (forall i | 0 <= i < |ts| :: p <= ts[i].base)
    ensures InOrder(rs + ts)
    ensures RegionsOk(rs) && RegionsOk(ts) ==> RegionsOk(rs + ts)
  {
  }

  /** Each outcome of a reservation: it is refused exactly if no available region holds the range, or if what the
      region is cut into does not fit. */
  lemma ReserveOutcomes(rs: seq<HwRegion>, base: nat, count: nat, kind: RegionKind)
    ensures Reserve(rs, base, count, kind).1 == Refused(InvalidReservedRegion) <==>
            forall i | 0 <= i < |rs| :: !Fits(rs[i], base, count)
    ensures Find(rs, base, count, 0).At? ==>
              var i := Find(rs, base, count, 0).index;
              (Reserve(rs, base, count, kind).1.Reserved? <==>
               |rs| + |Front(rs[i], base)| + |Back(rs[i], base + count)| <= MAX_HW_MEM_REGIONS
               || (Front(rs[i], base) == [] && Back(rs[i], base + count) == []))
  {
  }

  /** A reservation that succeeds gives the range its kind, leaves every other page as it was, and so keeps
      the set of pages that the map covers. */
  lemma ReserveMeans(rs: seq<HwRegion>, base: nat, count: nat, kind: RegionKind)
    requires InOrder(rs) && Reserve(rs, base, count, kind).1.Reserved?
    ensures var ts := Reserve(rs, base, count, kind).0;
            && InOrder(ts) && (RegionsOk(rs) && count > 0 ==> RegionsOk(ts))
            && (forall a: nat, k :: KindAt(ts, a, k) <==>
                  if base <= a < base + count then k == kind else KindAt(rs, a, k))
            && (forall a: nat | base <= a < base + count :: KindAt(rs, a, Available))
            && (forall a: nat :: Covered(ts, a) <==> Covered(rs, a))
  {
    hide InOrder, RegionsOk, KindAt, Cut, Covered;
    ReserveIsCut(rs, base, count, kind);
    var i := Find(rs, base, count, 0).index;
    var mid := HwRegion(base, count, kind);
    CutOk(rs, i, mid, Back(rs[i], base + count));
    var ts := Reserve(rs, base, count, kind).0;
    forall a: nat, k ensures KindAt(ts, a, k) <==> if base <= a < base + count then k == kind else KindAt(rs, a, k) {
      CutMeans(rs, i, mid, Back(rs[i], base + count), a, k);
    }
    forall a: nat | base <= a < base + count ensures KindAt(rs, a, Available) {
      InItself(rs, i, a);
    }
    forall a: nat ensures Covered(ts, a) <==> Covered(rs, a) {
      CoveredIff(rs, a);
      CoveredIff(ts, a);
      if base <= a < base + count {
        assert KindAt(rs, a, Available) && KindAt(ts, a, kind);
      }
    }
  }

  lemma CoveredIff(rs: seq<HwRegion>, a: nat)
    ensures Covered(rs, a) <==> exists k :: KindAt(rs, a, k)
  {
    if Covered(rs, a) {
      var i :| 0 <= i < |rs| && InRegion(rs[i], a);
      assert KindAt(rs, a, rs[i].kind);
    }
  }

  lemma InItself(rs: seq<HwRegion>, i: nat, a: nat)
    requires i < |rs| && InRegion(rs[i], a)
    ensures KindAt(rs, a, rs[i].kind)
  {
  }

  /** A reservation that fails leaves the map as it was, except that if the last part of the split region
      found no room, its pages are covered no longer. */
  lemma ReserveFails(rs: seq<HwRegion>, base: nat, count: nat, kind: RegionKind)
    requires InOrder(rs) && Reserve(rs, base, count, kind).1.Refused?
    ensures InOrder(Reserve(rs, base, count, kind).0)
    ensures var ts := Reserve(rs, base, count, kind).0;
            || ts == rs
            || (&& Find(rs, base, count, 0).At?
                && var other := rs[Find(rs, base, count, 0).index];
                   && base + count < End(other)
                   && forall a: nat, k | base + count <= a < End(other) :: !KindAt(ts, a, k))
  {
    hide InOrder, KindAt, Cut;
    ReserveIsCut(rs, base, count, kind);
    var ts := Reserve(rs, base, count, kind).0;
    if ts != rs {
      var i := Find(rs, base, count, 0).index;
      CutOk(rs, i, HwRegion(base, count, kind), []);
      forall a: nat, k | base + count <= a < End(rs[i]) ensures !KindAt(ts, a, k) {
        CutMeans(rs, i, HwRegion(base, count, kind), [], a, k);
      }
    }
  }

  /** A reservation loses pages if and only if something is left behind the range and the list is full once what
      is left in front has been put back. */
  lemma ReserveLosesIff(rs: seq<HwRegion>, base: nat, count: nat, kind: RegionKind)
    requires InOrder(rs) && |rs| <= MAX_HW_MEM_REGIONS
    ensures (exists a: nat :: Covered(rs, a) && !Covered(Reserve(rs, base, count, kind).0, a)) <==>
            && Find(rs, base, count, 0).At?
            && var other := rs[Find(rs, base, count, 0).index];
               base + count < End(other) && |rs| == MAX_HW_MEM_REGIONS - if base > other.base then 1 else 0
  {
    hide InOrder, Cut, Covered;
    ReserveIsCut(rs, base, count, kind);
    var (ts, o) := Reserve(rs, base, count, kind);
    if o.Reserved? {
      ReserveMeans(rs, base, count, kind);
    } else if ts != rs {
      var i := Find(rs, base, count, 0).index;
      var a := base + count;
      assert InRegion(rs[i], a);
      InItself(rs, i, a);
      CoveredIff(rs, a);
      forall k ensures !KindAt(ts, a, k) {
        CutMeans(rs, i, HwRegion(base, count, kind), [], a, k);
      }
      CoveredIff(ts, a);
    }
  }

  /** Regions of five pages with gaps between them. */
  function Spaced(n: nat): (rs: seq<HwRegion>) {
    seq(n, i requires 0 <= i => HwRegion(10 * i, 5, Available))
  }

  /** A full map: reserving the first two pages of a region loses the other three. */
  lemma FullMapLosesPages()
    ensures var rs := Spaced(MAX_HW_MEM_REGIONS);
            RegionsOk(rs) && exists a: nat :: Covered(rs, a) && !Covered(Reserve(rs, 0, 2, OtherReserved).0, a)
  {
    var rs := Spaced(MAX_HW_MEM_REGIONS);
    assert rs[0] == HwRegion(0, 5, Available) && Find(rs, 0, 2, 0) == At(0);
    ReserveLosesIff(rs, 0, 2, OtherReserved);
  }

  /* ---------------- Rounding ---------------- */

  function AlignDown(v: nat, align: nat): (r: nat)
    requires align > 0
  {
    v / align * align
  }

  function AlignUp(v: nat, align: nat): (r: nat)
    requires align > 0
  {
    (v + align - 1) / align * align
  }

  lemma Rounding(v: nat, align: nat)
    requires align > 0
    ensures AlignDown(v, align) <= v < AlignDown(v, align) + align
    ensures v <= AlignUp(v, align) < v + align
    ensures v - AlignDown(v, align) == v % align
  {
    var q := (v + align - 1) / align;
    assert v + align - 1 == q * align + (v + align - 1) % align;
    assert v == v / align * align + v % align;
  }

  const PAGE: nat := 4096

  /** The base is rounded down and the size up, each by itself: the pages that are reserved hold all bytes that were
      asked for if and only if what was lost at the front was won at the end. */
  lemma RoundedCoversIff(base: nat, size: nat, align: nat)
    requires align > 0 && align % PAGE == 0 && size > 0
    ensures (forall x | base <= x < base + size ::
             Holds(AlignDown(base, align) / PAGE, AlignUp(size, align) / PAGE, x)) <==>
            base % align <= AlignUp(size, align) - size
  {
    Rounding(base, align);
    Rounding(size, align);
    var down, up := AlignDown(base, align), AlignUp(size, align);
    WholePages(base / align, align);
    WholePages((size + align - 1) / align, align);
    if base + size <= down + up {
      forall x | base <= x < base + size ensures Holds(down / PAGE, up / PAGE, x) {
        PageIn(down / PAGE, up / PAGE, x);
      }
    } else {
      PageIn(down / PAGE, up / PAGE, base + size - 1);
    }
  }

  /** Byte `x` lies in one of `count` pages from `first` on. */
  predicate Holds(first: nat, count: nat, x: nat) {
    first <= x / PAGE < first + count
  }

  lemma PageIn(first: nat, count: nat, x: nat)
    ensures Holds(first, count, x) <==> first * PAGE <= x < first * PAGE + count * PAGE
  {
  }

  lemma WholePages(q: nat, align: nat)
    requires align % PAGE == 0
    ensures q * align / PAGE * PAGE == q * align
  {
    var k := align / PAGE;
    assert q * align == q * k * PAGE;
  }

  /** Two bytes on either side of a page boundary: only the first page is reserved. */
  lemma RoundingMisses()
    ensures var rs := [HwRegion(0, 4, Available)];
            var (ts, o) := Reserve(rs, AlignDown(0xFFF, 0x1000) / PAGE, AlignUp(2, 0x1000) / PAGE, OtherReserved);
            o.Reserved? && KindAt(ts, 0xFFF / PAGE, OtherReserved) && KindAt(ts, 0x1000 / PAGE, Available)
  {
    var rs := [HwRegion(0, 4, Available)];
    assert Find(rs, 0, 1, 0) == At(0);
    var ts := Reserve(rs, 0, 1, OtherReserved).0;
    assert ts[0] == HwRegion(0, 1, OtherReserved) && ts[1] == HwRegion(1, 3, Available);
  }

  /* ---------------- Adding regions ---------------- */

  /** Where a new region goes, if it overlaps none from the `i`-th on. */
  function HwSlot(rs: seq<HwRegion>, base: nat, count: nat, i: nat): (r: Found)
    requires i <= |rs|
    ensures r.At? ==> i <= r.index <= |rs|
    decreases |rs| - i
  {
    if i == |rs| then At(i)
    else if rs[i].base > base then (if base + count > rs[i].base then NotFound else At(i))
    else if base < End(rs[i]) then NotFound
    else HwSlot(rs, base, count, i + 1)
  }

  function AddHw(rs: seq<HwRegion>, base: nat, count: nat, kind: RegionKind): (r: (seq<HwRegion>, Outcome)) {
    match HwSlot(rs, base, count, 0)
    case NotFound => (rs, Refused(OverlappingRegion))
    case At(i) =>
      if |rs| >= MAX_HW_MEM_REGIONS then (rs, Refused(OutOfSpace))
      else (Insert(rs, i, HwRegion(base, count, kind)), Reserved)
  }

  /** The two have a page in common, or the new region begins inside the other, or an empty one lies inside it. */
  predicate Clash(r: HwRegion, base: nat, count: nat) {
    (r.base < base + count && base < End(r)) || InRegion(r, base)
  }

  /** The regions before the slot end at the new one or before, and those after it begin at its end or later;
      without a slot, some page of the new region is taken, or it lies at a page that is. */
  lemma {:induction false} HwSlotIs(rs: seq<HwRegion>, base: nat, count: nat, i: nat)
    requires InOrder(rs) && i <= |rs| && forall j | 0 <= j < i :: End(rs[j]) <= base
    ensures match HwSlot(rs, base, count, i)
            case At(k) => (forall j | 0 <= j < k :: End(rs[j]) <= base)
                          && (forall j | k <= j < |rs| :: base + count <= rs[j].base && base < rs[j].base)
            case NotFound => exists j | 0 <= j < |rs| :: Clash(rs[j], base, count)
    decreases |rs| - i
  {
    if i < |rs| && !(rs[i].base > base) && !(base < End(rs[i])) {
      HwSlotIs(rs, base, count, i + 1);
    }
  }

  /** A region that is added covers pages that no other did, and changes nothing else. The map stays in order. A map of
      non-empty regions stays one exactly if the region is not empty. */
  lemma AddHwMeans(rs: seq<HwRegion>, base: nat, count: nat, kind: RegionKind)
    requires InOrder(rs) && AddHw(rs, base, count, kind).1.Reserved?
    ensures var ts := AddHw(rs, base, count, kind).0;
            && InOrder(ts) && (RegionsOk(rs) ==> (RegionsOk(ts) <==> count > 0))
            && (forall a: nat, k :: KindAt(ts, a, k) <==>
                  if base <= a < base + count then k == kind else KindAt(rs, a, k))
            && (forall a: nat | base <= a < base + count :: !Covered(rs, a))
  {
    hide InOrder, RegionsOk, KindAt, Insert, Covered, HwSlot;
    HwSlotIs(rs, base, count, 0);
    var i, r := HwSlot(rs, base, count, 0).index, HwRegion(base, count, kind);
    InsertOk(rs, i, r);
    forall a: nat, k ensures KindAt(Insert(rs, i, r), a, k) <==>
             if base <= a < base + count then k == kind else KindAt(rs, a, k) {
      InsertKinds(rs, i, r, a, k);
    }
    forall a: nat | base <= a < base + count ensures !Covered(rs, a) {
      Between(rs, i, r, a);
    }
  }

  /** The place of `r` in the list is at `i`. */
  ghost predicate Placed(rs: seq<HwRegion>, i: nat, r: HwRegion) {
    i <= |rs| && (forall j | 0 <= j < i :: End(rs[j]) <= r.base) && (forall j | i <= j < |rs| :: End(r) <= rs[j].base)
  }

  lemma InsertOk(rs: seq<HwRegion>, i: nat, r: HwRegion)
    requires InOrder(rs) && Placed(rs, i, r)
    ensures InOrder(Insert(rs, i, r)) && (RegionsOk(rs) ==> (RegionsOk(Insert(rs, i, r)) <==> r.count > 0))
  {
    assert Insert(rs, i, r)[i] == r;
    Join(rs[..i], [r], r.base);
    Join(rs[..i] + [r], rs[i..], End(r));
  }

  lemma Between(rs: seq<HwRegion>, i: nat, r: HwRegion, a: nat)
    requires Placed(rs, i, r) && InRegion(r, a)
    ensures !Covered(rs, a)
  {
  }

  lemma InsertKinds(rs: seq<HwRegion>, i: nat, r: HwRegion, a: nat, k: RegionKind)
    requires Placed(rs, i, r)
    ensures KindAt(Insert(rs, i, r), a, k) <==> if InRegion(r, a) then k == r.kind else KindAt(rs, a, k)
  {
    hide KindAt;
    KindParts(rs[..i] + [r], rs[i..], a, k);
    KindParts(rs[..i], [r], a, k);
    KindOne(r, a, k);
    KindParts(rs[..i], rs[i..], a, k);
    assert rs[..i] + rs[i..] == rs;
    if InRegion(r, a) {
      Between(rs, i, r, a);
      CoveredIff(rs, a);
    }
  }

  /** A region is refused for overlapping exactly if it clashes with another; among regions that are not empty, that is
      if one of its pages is taken. */
  lemma AddHwOverlapsIff(rs: seq<HwRegion>, base: nat, count: nat, kind: RegionKind)
    requires InOrder(rs)
    ensures AddHw(rs, base, count, kind).1 == Refused(OverlappingRegion) <==>
            exists j | 0 <= j < |rs| :: Clash(rs[j], base, count)
    ensures AddHw(rs, base, count, kind).1.Reserved? <==>
            |rs| < MAX_HW_MEM_REGIONS && forall j | 0 <= j < |rs| :: !Clash(rs[j], base, count)
    ensures RegionsOk(rs) && count > 0 ==>
              (AddHw(rs, base, count, kind).1 == Refused(OverlappingRegion) <==>
               exists a: nat | base <= a < base + count :: Covered(rs, a))
  {
    HwSlotIs(rs, base, count, 0);
    if HwSlot(rs, base, count, 0).NotFound? && RegionsOk(rs) && count > 0 {
      var j :| 0 <= j < |rs| && Clash(rs[j], base, count);
      var a := if rs[j].base > base then rs[j].base else base;
      assert InRegion(rs[j], a);
      assert Covered(rs, a);
    }
  }

  lemma {:induction false} SpacedSlot(n: nat, i: nat)
    requires i <= n
    ensures HwSlot(Spaced(n), 10 * n, 5, i) == At(n)
    decreases n - i
  {
    if i < n { SpacedSlot(n, i + 1); }
  }

  /** Each further region is accepted until the list is full, and each is one more contiguous run: the builder takes
      more runs than a page map has room for. */
  lemma SpacedRuns(n: nat)
    requires 0 < n <= MAX_HW_MEM_REGIONS
    ensures RegionsOk(Spaced(n)) && Gaps(Spaced(n)) + 1 == n
    ensures AddHw(Spaced(n - 1), 10 * (n - 1), 5, Available) == (Spaced(n), Reserved)
  {
    hide Spaced, HwSlot, Insert, Gaps, RegionsOk;
    SpacedSlot(n - 1, 0);
    SpacedNext(n);
    SpacedGaps(n);
  }

  lemma SpacedNext(n: nat)
    requires n > 0
    ensures |Spaced(n - 1)| == n - 1 && RegionsOk(Spaced(n))
    ensures Insert(Spaced(n - 1), n - 1, HwRegion(10 * (n - 1), 5, Available)) == Spaced(n)
  {
  }

  lemma {:induction false} SpacedGaps(n: nat)
    requires n > 0
    ensures Gaps(Spaced(n)) + 1 == n
  {
    if n > 1 {
      SpacedGaps(n - 1);
      assert Spaced(n)[..n - 1] == Spaced(n - 1);
    }
  }

  /** A memory map that the builder accepts, and a page map cannot be made of. */
  lemma TooManyRuns()
    ensures var rs := Spaced(17); RegionsOk(rs) && |rs| <= MAX_HW_MEM_REGIONS && Gaps(rs) + 1 > MAX_CHUNKS
  {
    SpacedRuns(17);
  }

  /** A reservation of no pages leaves an empty region in the map. */
  lemma ReserveKeepsOkIff(rs: seq<HwRegion>, base: nat, count: nat, kind: RegionKind)
    requires RegionsOk(rs) && Reserve(rs, base, count, kind).1.Reserved?
    ensures RegionsOk(Reserve(rs, base, count, kind).0) <==> count > 0
  {
    if count > 0 {
      ReserveMeans(rs, base, count, kind);
    } else {
      hide Reserve;
      ReserveIsCut(rs, base, count, kind);
      var i, mid := Find(rs, base, count, 0).index, HwRegion(base, count, kind);
      var ts := Reserve(rs, base, count, kind).0;
      assert ts[i + |Front(rs[i], base)|] == mid;
    }
  }

  /** Whatever is added and reserved, the regions stay in order. */
  lemma StaysInOrder(rs: seq<HwRegion>, base: nat, count: nat, kind: RegionKind)
    requires InOrder(rs)
    ensures InOrder(AddHw(rs, base, count, kind).0) && InOrder(Reserve(rs, base, count, kind).0)
  {
    hide InOrder, Reserve, HwSlot;
    if AddHw(rs, base, count, kind).1.Reserved? { AddHwMeans(rs, base, count, kind); }
    if Reserve(rs, base, count, kind).1.Reserved? {
      ReserveMeans(rs, base, count, kind);
    } else {
      ReserveFails(rs, base, count, kind);
    }
  }

  /* ---------------- The object ---------------- */

  /** Addresses and sizes are in bytes here; regions are in pages. */
  class HwMemMap {
    const minAlign: nat
    var regions: seq<HwRegion>

    ghost predicate Valid()
      reads this
    {
      minAlign > 0 && minAlign % PAGE == 0 && |regions| <= MAX_HW_MEM_REGIONS && InOrder(regions)
    }

    constructor (minAlign: nat)
      requires minAlign > 0 && minAlign % PAGE == 0
      ensures Valid() && regions == [] && this.minAlign == minAlign
    {
      this.minAlign, regions := minAlign, [];
    }

    /** Puts a region between the others, in the order of their addresses. */
    method InsertRegion(base: nat, count: nat, kind: RegionKind) returns (r: Outcome)
      requires Valid()
      modifies this`regions
      ensures Valid() && (regions, r) == AddHw(old(regions), base, count, kind)
    {
      hide InOrder;
      StaysInOrder(regions, base, count, kind);
      var index := 0;
      while index < |regions|
        invariant index <= |regions| && regions == old(regions)
        invariant HwSlot(regions, base, count, 0) == HwSlot(regions, base, count, index)
      {
        var other := regions[index];
        if other.base > base {
          if base + count > other.base { return Refused(OverlappingRegion); }
          break;
        } else if base < End(other) {
          return Refused(OverlappingRegion);
        }
        index := index + 1;
      }
      if |regions| >= MAX_HW_MEM_REGIONS { return Refused(OutOfSpace); }
      regions := regions[..index] + [HwRegion(base, count, kind)] + regions[index..];
      return Reserved;
    }

    method AddMemoryRegion(base: nat, size: nat) returns (r: Outcome)
      requires Valid()
      modifies this`regions
      ensures Valid()
      ensures (regions, r) == if base % minAlign != 0 then (old(regions), Refused(UnalignedRegion))
                              else AddHw(old(regions), base / PAGE, AlignDown(size, minAlign) / PAGE, Available)
    {
      if base % minAlign != 0 { return Refused(UnalignedRegion); }
      r := InsertRegion(base / PAGE, AlignDown(size, minAlign) / PAGE, Available);
    }

    method AddMmioRegion(base: nat, size: nat) returns (r: Outcome)
      requires Valid()
      modifies this`regions
      ensures Valid() && (regions, r) == AddHw(old(regions), base / PAGE, AlignUp(size, PAGE) / PAGE, Device)
    {
      r := InsertRegion(base / PAGE, AlignUp(size, PAGE) / PAGE, Device);
    }

    method ReserveRegion(kind: RegionKind, base: nat, size: nat) returns (r: Outcome)
      requires Valid()
      modifies this`regions
      ensures Valid()
      ensures (regions, r) ==
              Reserve(old(regions), AlignDown(base, minAlign) / PAGE, AlignUp(size, minAlign) / PAGE, kind)
    {
      r := ReservePages(AlignDown(base, minAlign) / PAGE, AlignUp(size, minAlign) / PAGE, kind);
    }

    /** The first region that can hold the range. */
    method Position(first: nat, count: nat) returns (r: Found)
      ensures r == Find(regions, first, count, 0)
    {
      var index := 0;
      while index < |regions|
        invariant index <= |regions| && Find(regions, first, count, 0) == Find(regions, first, count, index)
      {
        if Fits(regions[index], first, count) { return At(index); }
        index := index + 1;
      }
      return NotFound;
    }

    /** Splits the region that holds the range, in place. */
    method ReservePages(first: nat, count: nat, kind: RegionKind) returns (r: Outcome)
      requires Valid()
      modifies this`regions
      ensures Valid() && (regions, r) == Reserve(old(regions), first, count, kind)
    {
      hide Find, Fits, InOrder;
      StaysInOrder(regions, first, count, kind);
      var found := Position(first, count);
      if found.NotFound? { return Refused(InvalidReservedRegion); }
      var index := found.index;
      var other := regions[index];
      if first > other.base {
        if |regions| >= MAX_HW_MEM_REGIONS { return Refused(OutOfSpace); }
        regions := regions[..index] + [HwRegion(other.base, first - other.base, Available)] + regions[index..];
        index := index + 1;
      }
      var end := End(regions[index]);
      regions := regions[index := HwRegion(first, count, kind)];
      index := index + 1;
      if first + count < end {
        if |regions| >= MAX_HW_MEM_REGIONS { return Refused(OutOfSpace); }
        regions := regions[..index] + [HwRegion(first + count, end - (first + count), Available)] + regions[index..];
      }
      return Reserved;
    }
  }
}
