/** The regions of a VM's guest physical address space: a sorted list of intervals, each with a type, in which
    neighbours of the same type are merged. Addresses are page numbers. */
module RegionLists {
  import opened Basics

  const MAX_MEM_REGIONS: nat := 128

  datatype Kind = Confidential | Shared | Mmio | Imsic | Pci | Sharing(version: nat) | Unsharing(version: nat)
    | Updating

  datatype Region = Region(start: nat, end: nat, kind: Kind)

  datatype Error = OverlappingVmRegion | InsufficientVmRegionSpace | InvalidMapRegion | VmRegionNotFound

  type Result<+T> = Fallible<T, Error>

  /* ---------------- What a list means ---------------- */

  predicate Sorted(rs: seq<Region>) {
    && (forall i | 0 <= i < |rs| :: rs[i].start <= rs[i].end)
    && (forall i, j | 0 <= i < j < |rs| :: rs[i].end <= rs[j].start)
  }

  predicate NonEmpty(rs: seq<Region>) {
    forall i | 0 <= i < |rs| :: rs[i].start < rs[i].end
  }

  predicate Mergeable(a: Region, b: Region) {
    a.end == b.start && a.kind == b.kind
  }

  predicate Coalesced(rs: seq<Region>) {
    forall i | 0 < i < |rs| :: !Mergeable(rs[i - 1], rs[i])
  }

  predicate Canonical(rs: seq<Region>) {
    Sorted(rs) && NonEmpty(rs) && Coalesced(rs)
  }

  predicate InRegion(r: Region, a: nat) {
    r.start <= a < r.end
  }

  /** Page `a` has type `k`. */
  predicate Has(rs: seq<Region>, a: nat, k: Kind) {
    exists i | 0 <= i < |rs| :: InRegion(rs[i], a) && rs[i].kind == k
  }

  /** The two lists give every page the same type. */
  ghost predicate Same(rs: seq<Region>, ts: seq<Region>) {
    forall a, k :: Has(rs, a, k) <==> Has(ts, a, k)
  }

  lemma HasParts(rs: seq<Region>, ts: seq<Region>, a: nat, k: Kind)
    ensures Has(rs + ts, a, k) <==> Has(rs, a, k) || Has(ts, a, k)
  {
    if Has(rs, a, k) {
      var i :| 0 <= i < |rs| && InRegion(rs[i], a) && rs[i].kind == k;
      assert (rs + ts)[i] == rs[i];
    }
    if Has(ts, a, k) {
      var i :| 0 <= i < |ts| && InRegion(ts[i], a) && ts[i].kind == k;
      assert (rs + ts)[|rs| + i] == ts[i];
    }
    if Has(rs + ts, a, k) {
      var i :| 0 <= i < |rs + ts| && InRegion((rs + ts)[i], a) && (rs + ts)[i].kind == k;
      assert (rs + ts)[i] == if i < |rs| then rs[i] else ts[i - |rs|];
    }
  }

  lemma HasOne(r: Region, a: nat, k: Kind)
    ensures Has([r], a, k) <==> InRegion(r, a) && r.kind == k
  {
    assert [r][0] == r;
  }

  /** A page has at most one type. */
  lemma OneKind(rs: seq<Region>, a: nat, k: Kind, l: Kind)
    requires Sorted(rs) && Has(rs, a, k) && Has(rs, a, l)
    ensures k == l
  {
  }

  /* ---------------- Canonical lists are unique ---------------- */

  lemma TailOf(rs: seq<Region>, a: nat, k: Kind)
    requires Sorted(rs) && rs != []
    ensures Has(rs[1..], a, k) <==> Has(rs, a, k) && rs[0].end <= a
  {
    HasParts([rs[0]], rs[1..], a, k);
    assert [rs[0]] + rs[1..] == rs;
    HasOne(rs[0], a, k);
  }

  lemma CanonicalTail(rs: seq<Region>)
    requires Canonical(rs) && rs != []
    ensures Canonical(rs[1..])
  {
    forall i | 0 < i < |rs[1..]| ensures !Mergeable(rs[1..][i - 1], rs[1..][i]) {
      assert !Mergeable(rs[i], rs[i + 1]);
    }
  }

  /** The first region starts at the first page that has a type, and ends where that type ends. */
  lemma FirstStart(rs: seq<Region>, ts: seq<Region>)
    requires Canonical(rs) && Canonical(ts) && Same(rs, ts) && rs != []
    ensures ts != [] && ts[0].start <= rs[0].start && (ts[0].start == rs[0].start ==> ts[0].kind == rs[0].kind)
  {
    assert InRegion(rs[0], rs[0].start);
    assert Has(rs, rs[0].start, rs[0].kind);
    assert Has(ts, rs[0].start, rs[0].kind);
    var i :| 0 <= i < |ts| && InRegion(ts[i], rs[0].start) && ts[i].kind == rs[0].kind;
    if ts[0].start == rs[0].start {
      assert InRegion(ts[0], rs[0].start);
      assert Has(ts, rs[0].start, ts[0].kind);
      OneKind(ts, rs[0].start, rs[0].kind, ts[0].kind);
    }
  }

  lemma FirstEnd(rs: seq<Region>, ts: seq<Region>)
    requires Canonical(rs) && Canonical(ts) && Same(rs, ts) && rs != [] && ts != []
    requires rs[0].start == ts[0].start && rs[0].kind == ts[0].kind
    ensures rs[0].end <= ts[0].end
  {
    if ts[0].end < rs[0].end {
      assert InRegion(rs[0], ts[0].end);
      assert Has(rs, ts[0].end, rs[0].kind);
      TypeEnds(ts);
    }
  }

  lemma TypeEnds(rs: seq<Region>)
    requires Canonical(rs) && rs != []
    ensures !Has(rs, rs[0].end, rs[0].kind)
  {
    forall i | 0 <= i < |rs| && InRegion(rs[i], rs[0].end) ensures rs[i].kind != rs[0].kind {
      assert !Mergeable(rs[0], rs[1]);
    }
  }

  /** Two canonical lists that give every page the same type are the same list. */
  lemma {:induction false} CanonicalUnique(rs: seq<Region>, ts: seq<Region>)
    requires Canonical(rs) && Canonical(ts) && Same(rs, ts)
    ensures rs == ts
    decreases |rs| + |ts|
  {
    if rs == [] {
      if ts != [] { FirstStart(ts, rs); }
    } else {
      FirstStart(rs, ts);
      FirstStart(ts, rs);
      FirstEnd(rs, ts);
      FirstEnd(ts, rs);
      forall a, k ensures Has(rs[1..], a, k) <==> Has(ts[1..], a, k) {
        TailOf(rs, a, k);
        TailOf(ts, a, k);
      }
      CanonicalTail(rs);
      CanonicalTail(ts);
      CanonicalUnique(rs[1..], ts[1..]);
      assert rs == [rs[0]] + rs[1..] && ts == [ts[0]] + ts[1..];
    }
  }

  /* ---------------- Merging ---------------- */

  function InsertAt(rs: seq<Region>, i: nat, r: Region): (ts: seq<Region>)
    requires i <= |rs|
  {
    rs[..i] + [r] + rs[i..]
  }

  function RemoveAt(rs: seq<Region>, i: nat): (ts: seq<Region>)
    requires i < |rs|
  {
    rs[..i] + rs[i + 1..]
  }

  /** Merges region `i` with the one before it, if that has the same type; the index of the result. */
  function MergeBefore(rs: seq<Region>, i: nat): (r: (seq<Region>, nat))
    requires i < |rs|
    ensures r.1 < |r.0| <= |rs| && |r.0| - r.1 <= |rs| - i
  {
    if i > 0 && Mergeable(rs[i - 1], rs[i]) then
      (RemoveAt(rs[i - 1 := Region(rs[i - 1].start, rs[i].end, rs[i].kind)], i), i - 1)
    else (rs, i)
  }

  /** Merges region `i` with the one after it, if that has the same type. */
  function MergeAfter(rs: seq<Region>, i: nat): (ts: seq<Region>)
    requires i < |rs|
    ensures i < |ts| <= |rs|
  {
    if i + 1 < |rs| && Mergeable(rs[i], rs[i + 1]) then
      RemoveAt(rs[i + 1 := Region(rs[i].start, rs[i + 1].end, rs[i].kind)], i)
    else rs
  }

  /** try_coalesce_at for an index in range. */
  function Coalesce(rs: seq<Region>, i: nat): (r: (seq<Region>, nat))
    requires i < |rs|
    ensures r.1 < |r.0| <= |rs| && |r.0| - r.1 <= |rs| - i
  {
    var (ts, j) := MergeBefore(rs, i);
    (MergeAfter(ts, j), j)
  }

  /** What merging two neighbours does to the list. */
  function Merged(rs: seq<Region>, i: nat): (ts: seq<Region>)
    requires i + 1 < |rs|
  {
    rs[..i] + [Region(rs[i].start, rs[i + 1].end, rs[i].kind)] + rs[i + 2..]
  }

  lemma MergedIs(rs: seq<Region>, i: nat)
    requires i + 1 < |rs| && Mergeable(rs[i], rs[i + 1])
    ensures MergeBefore(rs, i + 1) == (Merged(rs, i), i)
    ensures MergeAfter(rs, i) == Merged(rs, i)
  {
    var m := Region(rs[i].start, rs[i + 1].end, rs[i].kind);
    assert RemoveAt(rs[i := m], i + 1) == Merged(rs, i);
    assert RemoveAt(rs[i + 1 := m], i) == Merged(rs, i);
  }

  lemma MergedSame(rs: seq<Region>, i: nat)
    requires Sorted(rs) && i + 1 < |rs| && Mergeable(rs[i], rs[i + 1])
    ensures Same(rs, Merged(rs, i)) && Sorted(Merged(rs, i))
    ensures NonEmpty(rs) ==> NonEmpty(Merged(rs, i))
  {
    var m := Region(rs[i].start, rs[i + 1].end, rs[i].kind);
    forall a, k ensures Has(rs, a, k) <==> Has(Merged(rs, i), a, k) {
      assert rs == rs[..i] + [rs[i]] + [rs[i + 1]] + rs[i + 2..];
      HasParts(rs[..i] + [rs[i]] + [rs[i + 1]], rs[i + 2..], a, k);
      HasParts(rs[..i] + [rs[i]], [rs[i + 1]], a, k);
      HasParts(rs[..i], [rs[i]], a, k);
      HasParts(rs[..i] + [m], rs[i + 2..], a, k);
      HasParts(rs[..i], [m], a, k);
      HasOne(rs[i], a, k);
      HasOne(rs[i + 1], a, k);
      HasOne(m, a, k);
    }
  }

  /** Neighbours can be merged only next to region `i`, if at all. */
  predicate CoalescedBut(rs: seq<Region>, i: nat) {
    forall j | 0 < j < |rs| && j != i && j != i + 1 :: !Mergeable(rs[j - 1], rs[j])
  }

  /** Only the pair at `i` and the one after it may be mergeable. */
  predicate CoalescedButAfter(rs: seq<Region>, i: nat) {
    forall j | 0 < j < |rs| && j != i + 1 :: !Mergeable(rs[j - 1], rs[j])
  }

  lemma MergeBeforeDoes(rs: seq<Region>, i: nat)
    requires Sorted(rs) && i < |rs|
    ensures var (ts, j) := MergeBefore(rs, i);
            && Same(rs, ts) && Sorted(ts)
            && (NonEmpty(rs) ==> NonEmpty(ts))
            && (CoalescedBut(rs, i) ==> CoalescedButAfter(ts, j))
            && ts[j].end == rs[i].end && ts[j].kind == rs[i].kind && ts[j + 1..] == rs[i + 1..]
  {
    hide Same, Sorted;
    if i > 0 && Mergeable(rs[i - 1], rs[i]) {
      MergedIs(rs, i - 1);
      MergedSame(rs, i - 1);
      MergedRest(rs, i - 1);
    } else {
      SameSelf(rs);
    }
  }

  lemma MergedRest(rs: seq<Region>, i: nat)
    requires i + 1 < |rs| && Mergeable(rs[i], rs[i + 1])
    ensures Merged(rs, i)[i] == Region(rs[i].start, rs[i + 1].end, rs[i].kind) && Merged(rs, i)[i + 1..] == rs[i + 2..]
    ensures CoalescedBut(rs, i + 1) ==> CoalescedButAfter(Merged(rs, i), i)
    ensures CoalescedButAfter(rs, i) ==> Coalesced(Merged(rs, i))
  {
    var ts := Merged(rs, i);
    forall j | 0 < j < |ts| ensures Mergeable(ts[j - 1], ts[j]) <==>
             if j <= i then Mergeable(rs[j - 1], rs[j]) else Mergeable(rs[j], rs[j + 1]) {
    }
  }

  lemma SameSelf(rs: seq<Region>)
    ensures Same(rs, rs)
  {
  }

  lemma MergeAfterDoes(rs: seq<Region>, i: nat)
    requires Sorted(rs) && i < |rs|
    ensures var ts := MergeAfter(rs, i);
            && Same(rs, ts) && Sorted(ts)
            && (NonEmpty(rs) ==> NonEmpty(ts))
            && (CoalescedButAfter(rs, i) ==> Coalesced(ts))
            && ts[..i] == rs[..i]
            && (ts[i + 1..] == rs[i + 1..]
                || (i + 1 < |rs| && rs[i + 1].kind == rs[i].kind && ts[i + 1..] == rs[i + 2..]))
  {
    hide Same, Sorted;
    if i + 1 < |rs| && Mergeable(rs[i], rs[i + 1]) {
      MergedIs(rs, i);
      MergedSame(rs, i);
      MergedRest(rs, i);
    } else {
      SameSelf(rs);
    }
  }

  /** Merging around one region changes no page's type and leaves nothing to merge there. */
  lemma CoalesceDoes(rs: seq<Region>, i: nat)
    requires Sorted(rs) && i < |rs|
    ensures var (ts, j) := Coalesce(rs, i);
            && Same(rs, ts) && Sorted(ts)
            && (NonEmpty(rs) ==> NonEmpty(ts))
            && (CoalescedBut(rs, i) ==> Coalesced(ts))
            && (ts[j + 1..] == rs[i + 1..]
                || (i + 1 < |rs| && rs[i + 1].kind == rs[i].kind && ts[j + 1..] == rs[i + 2..]))
  {
    hide Same;
    MergeBeforeDoes(rs, i);
    var (ts, j) := MergeBefore(rs, i);
    MergeAfterDoes(ts, j);
    SameTrans(rs, ts, MergeAfter(ts, j));
    assert i + 1 < |rs| ==> rs[i + 1..][0] == rs[i + 1] && rs[i + 1..][1..] == rs[i + 2..];
    assert j + 1 < |ts| ==> ts[j + 1..][0] == ts[j + 1] && ts[j + 1..][1..] == ts[j + 2..];
  }

  lemma SameTrans(rs: seq<Region>, ts: seq<Region>, us: seq<Region>)
    requires Same(rs, ts) && Same(ts, us)
    ensures Same(rs, us)
  {
  }

  /* ---------------- add ---------------- */

  /** The check that `add` makes of each region it passes. */
  predicate Overlaps(r: Region, start: nat, end: nat) {
    if r.start > start then r.start < end else r.end > start
  }

  /** Where a region that overlaps no other belongs. */
  function Slot(rs: seq<Region>, start: nat, end: nat, i: nat): (r: Option<nat>)
    requires i <= |rs|
    ensures r.Some? ==> i <= r.value <= |rs|
    decreases |rs| - i
  {
    if i == |rs| then Some(i)
    else if rs[i].start > start then if rs[i].start < end then None else Some(i)
    else if rs[i].end > start then None
    else Slot(rs, start, end, i + 1)
  }

  lemma {:induction false} SlotDoes(rs: seq<Region>, start: nat, end: nat, i: nat)
    requires Sorted(rs) && i <= |rs| && start <= end
    requires forall j | 0 <= j < i :: rs[j].end <= start
    ensures match Slot(rs, start, end, i)
            case Some(n) => (forall j | 0 <= j < n :: rs[j].end <= start)
                            && (forall j | n <= j < |rs| :: end <= rs[j].start && start < rs[j].start)
            case None => exists j | 0 <= j < |rs| :: Overlaps(rs[j], start, end)
    decreases |rs| - i
  {
    if i < |rs| && rs[i].start <= start && rs[i].end <= start {
      SlotDoes(rs, start, end, i + 1);
    }
  }

  function AddList(rs: seq<Region>, start: nat, end: nat, kind: Kind): (r: Result<seq<Region>>) {
    match Slot(rs, start, end, 0)
    case None => Err(OverlappingVmRegion)
    case Some(i) =>
      if |rs| >= MAX_MEM_REGIONS then Err(InsufficientVmRegionSpace)
      else Ok(Coalesce(InsertAt(rs, i, Region(start, end, kind)), i).0)
  }

  lemma Inserted(rs: seq<Region>, i: nat, r: Region)
    requires Sorted(rs) && i <= |rs| && r.start <= r.end
    requires (forall j | 0 <= j < i :: rs[j].end <= r.start) && (forall j | i <= j < |rs| :: r.end <= rs[j].start)
    ensures Sorted(InsertAt(rs, i, r))
    ensures forall a, k :: Has(InsertAt(rs, i, r), a, k) <==> (InRegion(r, a) && k == r.kind) || Has(rs, a, k)
    ensures Coalesced(rs) ==> CoalescedBut(InsertAt(rs, i, r), i)
  {
    hide Has, Coalesced, CoalescedBut;
    forall a, k ensures Has(InsertAt(rs, i, r), a, k) <==> (InRegion(r, a) && k == r.kind) || Has(rs, a, k) {
      InsertedHas(rs, i, r, a, k);
    }
    if Coalesced(rs) { InsertedCoalesced(rs, i, r); }
  }

  lemma InsertedHas(rs: seq<Region>, i: nat, r: Region, a: nat, k: Kind)
    requires i <= |rs|
    ensures Has(InsertAt(rs, i, r), a, k) <==> (InRegion(r, a) && k == r.kind) || Has(rs, a, k)
  {
    hide Has;
    HasParts(rs[..i] + [r], rs[i..], a, k);
    HasParts(rs[..i], [r], a, k);
    HasParts(rs[..i], rs[i..], a, k);
    assert rs[..i] + rs[i..] == rs;
    HasOne(r, a, k);
  }

  lemma InsertedCoalesced(rs: seq<Region>, i: nat, r: Region)
    requires Coalesced(rs) && i <= |rs|
    ensures CoalescedBut(InsertAt(rs, i, r), i)
  {
    var ts := InsertAt(rs, i, r);
    forall j | 0 < j < |ts| && j != i && j != i + 1 ensures !Mergeable(ts[j - 1], ts[j]) {
      assert j < i ==> !Mergeable(rs[j - 1], rs[j]);
      assert j > i + 1 ==> !Mergeable(rs[j - 2], rs[j - 1]);
    }
  }

  /** The range gets the type, no other page changes its type, and the list stays sorted and merged. */
  lemma AddMeans(rs: seq<Region>, start: nat, end: nat, kind: Kind)
    requires Sorted(rs) && start <= end && AddList(rs, start, end, kind).Ok?
    ensures var ts := AddList(rs, start, end, kind).value;
            && Sorted(ts) && |ts| <= MAX_MEM_REGIONS
            && (Coalesced(rs) ==> Coalesced(ts))
            && forall a: nat, k :: Has(ts, a, k) <==> (start <= a < end && k == kind) || Has(rs, a, k)
  {
    SlotDoes(rs, start, end, 0);
    var i, r := Slot(rs, start, end, 0).value, Region(start, end, kind);
    Inserted(rs, i, r);
    CoalesceDoes(InsertAt(rs, i, r), i);
  }

  /** Each outcome of `add`, for every sorted list and range. */
  lemma AddOutcomes(rs: seq<Region>, start: nat, end: nat, kind: Kind)
    requires Sorted(rs) && start <= end
    ensures AddList(rs, start, end, kind) == Err(OverlappingVmRegion) <==>
            exists j | 0 <= j < |rs| :: Overlaps(rs[j], start, end)
    ensures AddList(rs, start, end, kind) == Err(InsufficientVmRegionSpace) <==>
            |rs| >= MAX_MEM_REGIONS && forall j | 0 <= j < |rs| :: !Overlaps(rs[j], start, end)
    ensures AddList(rs, start, end, kind).Ok? <==>
            |rs| < MAX_MEM_REGIONS && forall j | 0 <= j < |rs| :: !Overlaps(rs[j], start, end)
  {
    hide Coalesce;
    SlotDoes(rs, start, end, 0);
  }

  /** For a range that is not empty, `add` refuses exactly when some page of it has a type already. */
  lemma AddRefusesOverlap(rs: seq<Region>, start: nat, end: nat, kind: Kind)
    requires Sorted(rs) && NonEmpty(rs) && start < end
    ensures AddList(rs, start, end, kind) == Err(OverlappingVmRegion) <==>
            exists a, k | start <= a < end :: Has(rs, a, k)
  {
    SlotDoes(rs, start, end, 0);
    if Slot(rs, start, end, 0).None? {
      var j :| 0 <= j < |rs| && Overlaps(rs[j], start, end);
      var a := if rs[j].start > start then rs[j].start else start;
      assert InRegion(rs[j], a);
      assert Has(rs, a, rs[j].kind);
    }
  }

  /** An empty range is accepted too, and then stays in the list as an empty region, unless it is merged with
      a region that ends there. */
  lemma AddKeepsCanonicalIff(rs: seq<Region>, start: nat, end: nat, kind: Kind)
    requires Canonical(rs) && start <= end && AddList(rs, start, end, kind).Ok?
    ensures Canonical(AddList(rs, start, end, kind).value) <==>
            start < end || exists i | 0 <= i < |rs| :: rs[i].end == start && rs[i].kind == kind
  {
    hide Has, Same, Coalesce, Slot, Coalesced, Sorted, NonEmpty;
    AddMeans(rs, start, end, kind);
    SlotDoes(rs, start, end, 0);
    var i := Slot(rs, start, end, 0).value;
    if start < end {
      InsertedNonEmpty(rs, i, Region(start, end, kind));
      Inserted(rs, i, Region(start, end, kind));
      CoalesceDoes(InsertAt(rs, i, Region(start, end, kind)), i);
    } else if i > 0 && rs[i - 1].end == start && rs[i - 1].kind == kind {
      EmptyMerged(rs, i, kind);
    } else {
      EmptyStays(rs, i, start, kind);
    }
  }

  lemma InsertedNonEmpty(rs: seq<Region>, i: nat, r: Region)
    requires NonEmpty(rs) && i <= |rs| && r.start < r.end
    ensures NonEmpty(InsertAt(rs, i, r))
  {
  }

  lemma EmptyMerged(rs: seq<Region>, i: nat, kind: Kind)
    requires Coalesced(rs) && 0 < i <= |rs| && rs[i - 1].kind == kind
    ensures Coalesce(InsertAt(rs, i, Region(rs[i - 1].end, rs[i - 1].end, kind)), i).0 == rs
  {
    var e := Region(rs[i - 1].end, rs[i - 1].end, kind);
    var ts := InsertAt(rs, i, e);
    assert ts[i - 1] == rs[i - 1] && ts[i] == e;
    MergedIs(ts, i - 1);
    assert Merged(ts, i - 1) == rs[..i - 1] + [rs[i - 1]] + rs[i..] == rs;
  }

  lemma EmptyStays(rs: seq<Region>, i: nat, start: nat, kind: Kind)
    requires Canonical(rs) && i <= |rs|
    requires (forall j | 0 <= j < i :: rs[j].end <= start) && (forall j | i <= j < |rs| :: start < rs[j].start)
    requires !(i > 0 && rs[i - 1].end == start && rs[i - 1].kind == kind)
    ensures !NonEmpty(Coalesce(InsertAt(rs, i, Region(start, start, kind)), i).0)
    ensures forall j | 0 <= j < |rs| && rs[j].end == start :: rs[j].kind != kind
  {
    var ts := InsertAt(rs, i, Region(start, start, kind));
    assert ts[i] == Region(start, start, kind);
    assert i > 0 ==> ts[i - 1] == rs[i - 1];
    assert i < |rs| ==> ts[i + 1] == rs[i];
    assert Coalesce(ts, i).0 == ts;
    forall j | 0 <= j < |rs| && rs[j].end == start ensures rs[j].kind != kind {
      assert j == i - 1;
    }
  }

  /* ---------------- contains ---------------- */

  predicate Holds(r: Region, start: nat, end: nat, kind: Kind) {
    r.start <= start && end <= r.end && r.kind == kind
  }

  /** The first region from `i` on that has the type and holds the whole range. */
  function Holder(rs: seq<Region>, start: nat, end: nat, kind: Kind, i: nat): (r: Option<nat>)
    requires i <= |rs|
    ensures r.Some? ==> i <= r.value < |rs| && Holds(rs[r.value], start, end, kind)
    ensures r.None? ==> forall j | i <= j < |rs| :: !Holds(rs[j], start, end, kind)
    decreases |rs| - i
  {
    if i == |rs| then None
    else if Holds(rs[i], start, end, kind) then Some(i)
    else Holder(rs, start, end, kind, i + 1)
  }

  predicate ContainsList(rs: seq<Region>, start: nat, end: nat, kind: Kind) {
    exists i | 0 <= i < |rs| :: Holds(rs[i], start, end, kind)
  }

  ghost predicate AllHave(rs: seq<Region>, start: nat, end: nat, kind: Kind) {
    forall a | start <= a < end :: Has(rs, a, kind)
  }

  /** No two regions of the same type that are not empty touch. */
  predicate Separate(rs: seq<Region>) {
    forall i, j | 0 <= i < j < |rs| && rs[i].start < rs[i].end && rs[j].start < rs[j].end :: !Mergeable(rs[i], rs[j])
  }

  lemma KindEnds(rs: seq<Region>, i: nat)
    requires Sorted(rs) && Separate(rs) && i < |rs| && rs[i].start < rs[i].end
    ensures !Has(rs, rs[i].end, rs[i].kind)
  {
    forall j | 0 <= j < |rs| && InRegion(rs[j], rs[i].end) ensures rs[j].kind != rs[i].kind {
    }
  }

  lemma HeldWhole(rs: seq<Region>, start: nat, end: nat, kind: Kind)
    requires Sorted(rs) && Separate(rs) && start < end && AllHave(rs, start, end, kind)
    ensures ContainsList(rs, start, end, kind)
  {
    assert Has(rs, start, kind);
    var i :| 0 <= i < |rs| && InRegion(rs[i], start) && rs[i].kind == kind;
    KindEnds(rs, i);
    assert Holds(rs[i], start, end, kind);
  }

  lemma HeldHave(rs: seq<Region>, start: nat, end: nat, kind: Kind)
    requires ContainsList(rs, start, end, kind)
    ensures AllHave(rs, start, end, kind)
  {
    var i :| 0 <= i < |rs| && Holds(rs[i], start, end, kind);
    forall a | start <= a < end ensures Has(rs, a, kind) {
      assert InRegion(rs[i], a);
    }
  }

  /** On a canonical list, `contains` is true of a range exactly when every page of it has the type. */
  lemma ContainsExact(rs: seq<Region>, start: nat, end: nat, kind: Kind)
    requires Canonical(rs) && start < end
    ensures ContainsList(rs, start, end, kind) <==> AllHave(rs, start, end, kind)
  {
    CanonicalSeparate(rs);
    if AllHave(rs, start, end, kind) { HeldWhole(rs, start, end, kind); }
    if ContainsList(rs, start, end, kind) { HeldHave(rs, start, end, kind); }
  }

  lemma CanonicalSeparate(rs: seq<Region>)
    requires Canonical(rs)
    ensures Separate(rs)
  {
    forall i, j | 0 <= i < j < |rs| ensures !Mergeable(rs[i], rs[j]) {
      assert !Mergeable(rs[j - 1], rs[j]);
      assert i < j - 1 ==> rs[i].end <= rs[j - 1].start;
    }
  }

  /** In general, `contains` is exact for every range exactly when no two regions of one type touch, not
      counting the empty ones. */
  lemma ContainsExactIff(rs: seq<Region>)
    requires Sorted(rs)
    ensures Separate(rs) <==> forall start: nat, end: nat, kind | start < end ::
              ContainsList(rs, start, end, kind) <==> AllHave(rs, start, end, kind)
  {
    if Separate(rs) {
      forall start: nat, end: nat, kind | start < end ensures ContainsList(rs, start, end, kind) <==>
             AllHave(rs, start, end, kind) {
        if AllHave(rs, start, end, kind) { HeldWhole(rs, start, end, kind); }
        if ContainsList(rs, start, end, kind) { HeldHave(rs, start, end, kind); }
      }
    } else {
      var i, j :| 0 <= i < j < |rs| && rs[i].start < rs[i].end && rs[j].start < rs[j].end && Mergeable(rs[i], rs[j]);
      NotExact(rs, i, j);
    }
  }

  lemma NotExact(rs: seq<Region>, i: nat, j: nat)
    requires Sorted(rs) && i < j < |rs| && rs[i].start < rs[i].end && rs[j].start < rs[j].end && Mergeable(rs[i], rs[j])
    ensures AllHave(rs, rs[i].start, rs[j].end, rs[i].kind) && !ContainsList(rs, rs[i].start, rs[j].end, rs[i].kind)
  {
    forall a | rs[i].start <= a < rs[j].end ensures Has(rs, a, rs[i].kind) {
      assert InRegion(rs[i], a) || InRegion(rs[j], a);
    }
    forall l | 0 <= l < |rs| ensures !Holds(rs[l], rs[i].start, rs[j].end, rs[i].kind) {
    }
  }

  /** Empty ranges spoil this: an empty region of another type between two regions keeps them apart. */
  lemma EmptyRegionSpoilsContains()
    ensures var a := AddList([], 0, 2, Confidential);
            && a.Ok?
            && var b := AddList(a.value, 2, 2, Mmio);
               && b.Ok?
               && var c := AddList(b.value, 2, 4, Confidential);
                  && c.Ok?
                  && AllHave(c.value, 0, 4, Confidential) && !ContainsList(c.value, 0, 4, Confidential)
  {
    var ra, rb, rc := Region(0, 2, Confidential), Region(2, 2, Mmio), Region(2, 4, Confidential);
    assert InsertAt([], 0, ra) == [ra];
    assert AddList([], 0, 2, Confidential) == Ok([ra]);
    assert InsertAt([ra], 1, rb) == [ra, rb];
    assert AddList([ra], 2, 2, Mmio) == Ok([ra, rb]);
    assert InsertAt([ra, rb], 2, rc) == [ra, rb, rc];
    assert Slot([ra, rb], 2, 4, 0) == Some(2) by {
      assert Slot([ra, rb], 2, 4, 2) == Some(2);
      assert Slot([ra, rb], 2, 4, 1) == Some(2);
    }
    assert AddList([ra, rb], 2, 4, Confidential) == Ok([ra, rb, rc]);
    NotExact([ra, rb, rc], 0, 2);
  }
}
