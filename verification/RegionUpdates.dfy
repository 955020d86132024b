/** Changes to parts of regions: removal, the update of a range in two steps, and the update of all regions at
    once. */
module RegionUpdates {
  import opened Basics
  import opened RegionLists

  /* ---------------- Splitting a region ---------------- */

  function Before(r: Region, start: nat): (rs: seq<Region>) {
    if r.start < start then [Region(r.start, start, r.kind)] else []
  }

  function Behind(r: Region, end: nat): (rs: seq<Region>) {
    if r.end > end then [Region(end, r.end, r.kind)] else []
  }

  /** The list with the range cut out of region `i` and `mid` put there. */
  function Split(rs: seq<Region>, i: nat, start: nat, end: nat, mid: seq<Region>): (ts: seq<Region>)
    requires i < |rs|
  {
    rs[..i] + Before(rs[i], start) + mid + Behind(rs[i], end) + rs[i + 1..]
  }

  /** `mid` fills the range or is empty. */
  predicate Fills(mid: seq<Region>, start: nat, end: nat) {
    mid == [] || (|mid| == 1 && mid[0].start == start && mid[0].end == end)
  }

  lemma SplitHas(rs: seq<Region>, i: nat, start: nat, end: nat, mid: seq<Region>, a: nat, k: Kind)
    requires Sorted(rs) && i < |rs| && Holds(rs[i], start, end, rs[i].kind) && start <= end && Fills(mid, start, end)
    ensures Has(Split(rs, i, start, end, mid), a, k) <==> Has(mid, a, k) || (Has(rs, a, k) && !(start <= a < end))
  {
    var b, c := Before(rs[i], start), Behind(rs[i], end);
    HasParts(rs[..i] + b + mid + c, rs[i + 1..], a, k);
    HasParts(rs[..i] + b + mid, c, a, k);
    HasParts(rs[..i] + b, mid, a, k);
    HasParts(rs[..i], b, a, k);
    assert rs == rs[..i] + [rs[i]] + rs[i + 1..];
    HasParts(rs[..i] + [rs[i]], rs[i + 1..], a, k);
    HasParts(rs[..i], [rs[i]], a, k);
    HasOne(rs[i], a, k);
    HasOne(Region(rs[i].start, start, rs[i].kind), a, k);
    HasOne(Region(end, rs[i].end, rs[i].kind), a, k);
  }

  predicate Upto(rs: seq<Region>, p: nat) {
    forall i | 0 <= i < |rs| :: rs[i].end <= p
  }

  predicate From(rs: seq<Region>, p: nat) {
    forall i | 0 <= i < |rs| :: p <= rs[i].start
  }

  lemma SortedParts(rs: seq<Region>, ts: seq<Region>, p: nat)
    requires Sorted(rs) && Upto(rs, p) && Sorted(ts) && From(ts, p)
    ensures Sorted(rs + ts)
  {
  }

  lemma CoalescedParts(rs: seq<Region>, ts: seq<Region>)
    requires Coalesced(rs) && Coalesced(ts)
    requires rs != [] && ts != [] ==> !Mergeable(rs[|rs| - 1], ts[0])
    ensures Coalesced(rs + ts)
  {
    forall j | 0 < j < |rs + ts| ensures !Mergeable((rs + ts)[j - 1], (rs + ts)[j]) {
      assert j > |rs| ==> !Mergeable(ts[j - |rs| - 1], ts[j - |rs|]);
    }
  }

  lemma SplitSorted(rs: seq<Region>, i: nat, start: nat, end: nat, mid: seq<Region>)
    requires Sorted(rs) && i < |rs| && Holds(rs[i], start, end, rs[i].kind) && start <= end && Fills(mid, start, end)
    ensures Sorted(Split(rs, i, start, end, mid))
  {
    var b, c := Before(rs[i], start), Behind(rs[i], end);
    SortedParts(rs[..i], b, rs[i].start);
    SortedParts(rs[..i] + b, mid, start);
    SortedParts(rs[..i] + b + mid, c, end);
    SortedParts(rs[..i] + b + mid + c, rs[i + 1..], rs[i].end);
  }

  /* ---------------- remove ---------------- */

  /** The region that holds the range is taken out, and what is left of it on either side is put back. */
  function RemoveList(rs: seq<Region>, start: nat, end: nat, kind: Kind): (r: Result<seq<Region>>) {
    match Holder(rs, start, end, kind, 0)
    case None => Err(InvalidMapRegion)
    case Some(i) =>
      var r := rs[i];
      if r.start < start && r.end > end && |rs| >= MAX_MEM_REGIONS then Err(InsufficientVmRegionSpace)
      else
        var out := RemoveAt(rs, i);
        var (left, j) := if r.start < start then (InsertAt(out, i, Region(r.start, start, kind)), i + 1) else (out, i);
        Ok(if r.end > end then InsertAt(left, j, Region(end, r.end, kind)) else left)
  }

  lemma RemoveIsSplit(rs: seq<Region>, start: nat, end: nat, kind: Kind)
    requires RemoveList(rs, start, end, kind).Ok?
    ensures Holder(rs, start, end, kind, 0).Some?
    ensures RemoveList(rs, start, end, kind).value == Split(rs, Holder(rs, start, end, kind, 0).value, start, end, [])
  {
  }

  /** Each outcome of `remove`: it fails exactly if no region of the type holds the range, or if what would be left has
      more parts than there is room for. */
  lemma RemoveOutcomes(rs: seq<Region>, start: nat, end: nat, kind: Kind)
    requires start <= end && |rs| <= MAX_MEM_REGIONS
    ensures RemoveList(rs, start, end, kind) == Err(InvalidMapRegion) <==> !ContainsList(rs, start, end, kind)
    ensures ContainsList(rs, start, end, kind) ==>
              && Holder(rs, start, end, kind, 0).Some?
              && (RemoveList(rs, start, end, kind) == Err(InsufficientVmRegionSpace) <==>
                  |Split(rs, Holder(rs, start, end, kind, 0).value, start, end, [])| > MAX_MEM_REGIONS)
              && (RemoveList(rs, start, end, kind).Ok? <==>
                  |Split(rs, Holder(rs, start, end, kind, 0).value, start, end, [])| <= MAX_MEM_REGIONS)
  {
  }

  /** The pages of the range lose their type, and no other page does. */
  lemma RemoveMeans(rs: seq<Region>, start: nat, end: nat, kind: Kind)
    requires Sorted(rs) && start <= end && RemoveList(rs, start, end, kind).Ok?
    ensures var ts := RemoveList(rs, start, end, kind).value;
            && Sorted(ts) && (|rs| <= MAX_MEM_REGIONS ==> |ts| <= MAX_MEM_REGIONS)
            && forall a: nat, k :: Has(ts, a, k) <==> Has(rs, a, k) && !(start <= a < end)
  {
    hide Has, Sorted;
    RemoveIsSplit(rs, start, end, kind);
    var i := Holder(rs, start, end, kind, 0).value;
    SplitSorted(rs, i, start, end, []);
    forall a: nat, k ensures Has(Split(rs, i, start, end, []), a, k) <==> Has(rs, a, k) && !(start <= a < end) {
      SplitHas(rs, i, start, end, [], a, k);
      NothingHas(a, k);
    }
  }

  lemma NothingHas(a: nat, k: Kind)
    ensures !Has([], a, k)
  {
  }

  /** Removing a range that is not empty keeps the list canonical; removing an empty one does, unless it
      lies inside the region that holds it, which is then cut in two. */
  lemma RemoveKeepsCanonicalIff(rs: seq<Region>, start: nat, end: nat, kind: Kind)
    requires Canonical(rs) && start <= end && RemoveList(rs, start, end, kind).Ok?
    ensures Holder(rs, start, end, kind, 0).Some?
    ensures var r := rs[Holder(rs, start, end, kind, 0).value];
            Canonical(RemoveList(rs, start, end, kind).value) <==> !(r.start < start == end < r.end)
  {
    hide Has, Sorted, Split, RemoveList;
    RemoveIsSplit(rs, start, end, kind);
    var i := Holder(rs, start, end, kind, 0).value;
    SplitSorted(rs, i, start, end, []);
    SplitNonEmpty(rs, i, start, end);
    if rs[i].start < start == end < rs[i].end {
      CutInTwo(rs, i, start);
    } else {
      SplitCoalesced(rs, i, start, end);
    }
  }

  /** Removing a range that is not empty leaves nothing to merge if there was nothing before. */
  lemma RemoveKeepsCoalesced(rs: seq<Region>, start: nat, end: nat, kind: Kind)
    requires Sorted(rs) && Coalesced(rs) && start < end && RemoveList(rs, start, end, kind).Ok?
    ensures Coalesced(RemoveList(rs, start, end, kind).value)
  {
    RemoveIsSplit(rs, start, end, kind);
    SplitCoalesced(rs, Holder(rs, start, end, kind, 0).value, start, end);
  }

  lemma SplitNonEmpty(rs: seq<Region>, i: nat, start: nat, end: nat)
    requires NonEmpty(rs) && i < |rs|
    ensures NonEmpty(Split(rs, i, start, end, []))
  {
  }

  lemma CutInTwo(rs: seq<Region>, i: nat, at: nat)
    requires i < |rs| && rs[i].start < at < rs[i].end
    ensures !Coalesced(Split(rs, i, at, at, []))
  {
    var ts := Split(rs, i, at, at, []);
    assert ts[i] == Before(rs[i], at)[0] && ts[i + 1] == Behind(rs[i], at)[0];
    assert Mergeable(ts[i], ts[i + 1]);
  }

  lemma SplitCoalesced(rs: seq<Region>, i: nat, start: nat, end: nat)
    requires Sorted(rs) && Coalesced(rs) && i < |rs| && Holds(rs[i], start, end, rs[i].kind) && start <= end
    requires rs[i].start < rs[i].end && !(rs[i].start < start == end < rs[i].end)
    ensures Coalesced(Split(rs, i, start, end, []))
  {
    var b, c := Before(rs[i], start), Behind(rs[i], end);
    assert Split(rs, i, start, end, []) == rs[..i] + (b + c) + rs[i + 1..];
    assert i > 0 ==> !Mergeable(rs[i - 1], rs[i]) && rs[i - 1].end <= rs[i].start;
    assert i + 1 < |rs| ==> !Mergeable(rs[i], rs[i + 1]) && rs[i].end <= rs[i + 1].start;
    PartsCoalesced(rs, i);
    hide Coalesced, Sorted;
    assert Coalesced(b + c) by { PieceCoalesced(b, c, start, end); }
    CoalescedParts(rs[..i], b + c);
    CoalescedParts(rs[..i] + (b + c), rs[i + 1..]);
  }

  lemma PieceCoalesced(b: seq<Region>, c: seq<Region>, start: nat, end: nat)
    requires |b| <= 1 && |c| <= 1 && (b != [] && c != [] ==> b[0].end == start && c[0].start == end && start < end)
    ensures Coalesced(b + c)
  {
  }

  lemma PartsCoalesced(rs: seq<Region>, i: nat)
    requires Coalesced(rs) && i < |rs|
    ensures Coalesced(rs[..i]) && Coalesced(rs[i + 1..])
  {
    var ts := rs[i + 1..];
    forall j | 0 < j < |ts| ensures !Mergeable(ts[j - 1], ts[j]) {
      assert !Mergeable(rs[i + j], rs[i + 1 + j]);
    }
  }

  /* ---------------- update ---------------- */

  /** Splits the region that holds the range and marks the range as being updated; the list and the index of
      the range in it. */
  function UpdateList(rs: seq<Region>, start: nat, end: nat, kind: Kind): (r: Result<(seq<Region>, nat)>)
    ensures r.Ok? ==> r.value.1 < |r.value.0|
  {
    match Holder(rs, start, end, kind, 0)
    case None => Err(VmRegionNotFound)
    case Some(i) =>
      var r := rs[i];
      var reserve := (if r.start != start then 1 else 0) + (if r.end != end then 1 else 0);
      if |rs| + reserve > MAX_MEM_REGIONS then Err(InsufficientVmRegionSpace)
      else
        var (left, j) := if r.start != start then (InsertAt(rs, i, Region(r.start, start, kind)), i + 1) else (rs, i);
        var marked := left[j := Region(start, end, Updating)];
        Ok((if r.end != end then InsertAt(marked, j + 1, Region(end, r.end, kind)) else marked, j))
  }

  /** The end of an update: the range gets its type, and is merged with its neighbours. */
  function ResolveList(rs: seq<Region>, i: nat, kind: Kind): (ts: seq<Region>)
    requires i < |rs|
  {
    Coalesce(rs[i := rs[i].(kind := kind)], i).0
  }

  lemma UpdateIsSplit(rs: seq<Region>, start: nat, end: nat, kind: Kind)
    requires UpdateList(rs, start, end, kind).Ok?
    ensures Holder(rs, start, end, kind, 0).Some?
    ensures var i := Holder(rs, start, end, kind, 0).value;
            var (us, j) := UpdateList(rs, start, end, kind).value;
            && us == Split(rs, i, start, end, [Region(start, end, Updating)])
            && j == i + |Before(rs[i], start)|
  {
  }

  /** Each outcome of `update`: it fails exactly if no region of the type holds the range, or if the list, with that
      region split up, has more parts than there is room for. */
  lemma UpdateOutcomes(rs: seq<Region>, start: nat, end: nat, kind: Kind)
    requires start <= end
    ensures UpdateList(rs, start, end, kind) == Err(VmRegionNotFound) <==> !ContainsList(rs, start, end, kind)
    ensures ContainsList(rs, start, end, kind) ==>
              && Holder(rs, start, end, kind, 0).Some?
              && var split := Split(rs, Holder(rs, start, end, kind, 0).value, start, end,
                                    [Region(start, end, Updating)]);
                 && (UpdateList(rs, start, end, kind) == Err(InsufficientVmRegionSpace) <==> |split| > MAX_MEM_REGIONS)
                 && (UpdateList(rs, start, end, kind).Ok? <==> |split| <= MAX_MEM_REGIONS)
  {
  }

  /** Giving the range a type amounts to having split it off with that type. */
  lemma ResolveIsSplit(rs: seq<Region>, i: nat, start: nat, end: nat, kind: Kind)
    requires i < |rs|
    ensures var j := i + |Before(rs[i], start)|;
            var us := Split(rs, i, start, end, [Region(start, end, Updating)]);
            && j < |us|
            && us[j := us[j].(kind := kind)] == Split(rs, i, start, end, [Region(start, end, kind)])
  {
    var j := i + |Before(rs[i], start)|;
    var us := Split(rs, i, start, end, [Region(start, end, Updating)]);
    assert us[j] == Region(start, end, Updating);
    assert us[j := Region(start, end, kind)] == Split(rs, i, start, end, [Region(start, end, kind)]);
  }

  lemma SplitCoalescedBut(rs: seq<Region>, i: nat, start: nat, end: nat, r: Region)
    requires Sorted(rs) && Coalesced(rs) && i < |rs| && Holds(rs[i], start, end, rs[i].kind)
    ensures CoalescedBut(Split(rs, i, start, end, [r]), i + |Before(rs[i], start)|)
  {
    var b, c := Before(rs[i], start), Behind(rs[i], end);
    var left, right := rs[..i] + b, c + rs[i + 1..];
    var ts := Split(rs, i, start, end, [r]);
    assert ts == left + [r] + right;
    assert i > 0 ==> !Mergeable(rs[i - 1], rs[i]);
    assert i + 1 < |rs| ==> !Mergeable(rs[i], rs[i + 1]);
    PartsCoalesced(rs, i);
    CoalescedParts(rs[..i], b);
    CoalescedParts(c, rs[i + 1..]);
    forall j | 0 < j < |ts| && j != |left| && j != |left| + 1 ensures !Mergeable(ts[j - 1], ts[j]) {
      if j < |left| {
        assert !Mergeable(left[j - 1], left[j]);
      } else {
        assert !Mergeable(right[j - |left| - 2], right[j - |left| - 1]);
      }
    }
  }

  /** An update that is finished gives the range its new type and changes no other page; the list stays
      sorted and merged. */
  lemma UpdateMeans(rs: seq<Region>, start: nat, end: nat, was: Kind, now: Kind)
    requires Sorted(rs) && start <= end && UpdateList(rs, start, end, was).Ok?
    ensures var (us, i) := UpdateList(rs, start, end, was).value;
            var ts := ResolveList(us, i, now);
            && Sorted(us) && |us| <= MAX_MEM_REGIONS && us[i] == Region(start, end, Updating)
            && Sorted(ts) && |ts| <= |us|
            && (Coalesced(rs) ==> Coalesced(ts))
            && (NonEmpty(rs) && start < end ==> NonEmpty(ts))
            && forall a: nat, k :: Has(ts, a, k) <==> if start <= a < end then k == now else Has(rs, a, k)
  {
    hide Has, Sorted, Coalesced, CoalescedBut, Split, UpdateList, Coalesce;
    UpdateIsSplit(rs, start, end, was);
    var i := Holder(rs, start, end, was, 0).value;
    var (us, j) := UpdateList(rs, start, end, was).value;
    ResolveIsSplit(rs, i, start, end, now);
    var mid := [Region(start, end, now)];
    var ts := Split(rs, i, start, end, mid);
    UpdateFits(rs, start, end, was);
    SplitSorted(rs, i, start, end, [Region(start, end, Updating)]);
    SplitSorted(rs, i, start, end, mid);
    if Coalesced(rs) { SplitCoalescedBut(rs, i, start, end, mid[0]); }
    if NonEmpty(rs) && start < end { FilledNonEmpty(rs, i, start, end, mid[0]); }
    CoalesceDoes(ts, j);
    forall a: nat, k ensures Has(ts, a, k) <==> if start <= a < end then k == now else Has(rs, a, k) {
      SplitHas(rs, i, start, end, mid, a, k);
      HasOne(mid[0], a, k);
    }
  }

  lemma UpdateFits(rs: seq<Region>, start: nat, end: nat, kind: Kind)
    requires UpdateList(rs, start, end, kind).Ok?
    ensures var (us, i) := UpdateList(rs, start, end, kind).value;
              |us| <= MAX_MEM_REGIONS && us[i] == Region(start, end, Updating)
  {
  }

  lemma FilledNonEmpty(rs: seq<Region>, i: nat, start: nat, end: nat, r: Region)
    requires NonEmpty(rs) && i < |rs| && r.start < r.end
    ensures NonEmpty(Split(rs, i, start, end, [r]))
  {
  }

  /* ---------------- Empty updates ---------------- */

  /** The range is not empty, or is given a type that a region has which it touches there: the one that it is cut out
      of, or, at an end of that, the next one on this side. */
  predicate Blends(rs: seq<Region>, start: nat, end: nat, was: Kind, now: Kind) {
    || start < end || now == was
    || match Holder(rs, start, end, was, 0)
       case None => true
       case Some(i) =>
         || (start == rs[i].start && i > 0 && rs[i - 1].end == start && rs[i - 1].kind == now)
         || (end == rs[i].end && i + 1 < |rs| && rs[i + 1].start == end && rs[i + 1].kind == now)
  }

  /** An update keeps the list canonical if and only if the range blends in. An empty range that does not stays in the
      list as an empty region. */
  lemma UpdateKeepsCanonicalIff(rs: seq<Region>, start: nat, end: nat, was: Kind, now: Kind)
    requires Canonical(rs) && start <= end && UpdateList(rs, start, end, was).Ok?
    ensures var (us, i) := UpdateList(rs, start, end, was).value;
            Canonical(ResolveList(us, i, now)) <==> Blends(rs, start, end, was, now)
  {
    hide Has, Sorted, Coalesced, CoalescedBut, Split, UpdateList, Coalesce, Holder;
    UpdateMeans(rs, start, end, was, now);
    if start == end {
      UpdateIsSplit(rs, start, end, was);
      var i := Holder(rs, start, end, was, 0).value;
      ResolveIsSplit(rs, i, start, end, now);
      var mid := Region(start, end, now);
      var ts, j := Split(rs, i, start, end, [mid]), i + |Before(rs[i], start)|;
      SplitAround(rs, i, start, mid);
      EmptyStaysIff(ts, j);
    }
  }

  /** The neighbours of an empty region that is put into a list without any. */
  lemma SplitAround(rs: seq<Region>, i: nat, at: nat, mid: Region)
    requires NonEmpty(rs) && i < |rs| && rs[i].start <= at <= rs[i].end && mid.start == mid.end == at
    ensures var ts := Split(rs, i, at, at, [mid]);
            var j := i + |Before(rs[i], at)|;
            && j < |ts| && ts[j] == mid && (forall k | 0 <= k < |ts| && k != j :: ts[k].start < ts[k].end)
            && (if rs[i].start < at then j > 0 && ts[j - 1] == Region(rs[i].start, at, rs[i].kind)
                else j == i && (i > 0 ==> ts[j - 1] == rs[i - 1]))
            && (if at < rs[i].end then j + 1 < |ts| && ts[j + 1] == Region(at, rs[i].end, rs[i].kind)
                else |ts| - j == |rs| - i && (i + 1 < |rs| ==> ts[j + 1] == rs[i + 1]))
  {
  }

  lemma EmptyStaysIff(ts: seq<Region>, j: nat)
    requires j < |ts| && ts[j].start == ts[j].end && forall k | 0 <= k < |ts| && k != j :: ts[k].start < ts[k].end
    ensures NonEmpty(Coalesce(ts, j).0) <==>
            (j > 0 && Mergeable(ts[j - 1], ts[j])) || (j + 1 < |ts| && Mergeable(ts[j], ts[j + 1]))
  {
    hide Merged, NonEmpty;
    var (us, i) := MergeBefore(ts, j);
    if j > 0 && Mergeable(ts[j - 1], ts[j]) {
      MergedIs(ts, j - 1);
      MergedNonEmpty(ts, j - 1, j);
      if i + 1 < |us| && Mergeable(us[i], us[i + 1]) {
        MergedIs(us, i);
        MergedNonEmpty(us, i, i);
      }
    } else if j + 1 < |ts| && Mergeable(ts[j], ts[j + 1]) {
      MergedIs(ts, j);
      MergedNonEmpty(ts, j, j);
    } else {
      EmptyAt(ts, j);
    }
  }

  lemma EmptyAt(ts: seq<Region>, j: nat)
    requires j < |ts| && ts[j].start == ts[j].end
    ensures !NonEmpty(ts)
  {
  }

  lemma MergedNonEmpty(ts: seq<Region>, i: nat, j: nat)
    requires i + 1 < |ts| && i <= j <= i + 1 && Mergeable(ts[i], ts[i + 1]) && ts[j].start <= ts[j].end
    requires NonEmpty(ts) || forall k | 0 <= k < |ts| && k != j :: ts[k].start < ts[k].end
    ensures NonEmpty(Merged(ts, i))
  {
    var us := Merged(ts, i);
    forall k | 0 <= k < |us| ensures us[k].start < us[k].end {
      if k > i { assert us[k] == ts[k + 1]; }
    }
  }

  /** A call to share no memory at all splits the region it names in two, and then neither half can be joined with
      the other in a call, although every page still has its type. */
  lemma EmptyUpdateSpoilsContains(a: nat, at: nat, b: nat)
    requires a < at < b
    ensures var rs := [Region(a, b, Confidential)];
            && UpdateList(rs, at, at, Confidential).Ok?
            && var (us, i) := UpdateList(rs, at, at, Confidential).value;
               var ts := ResolveList(us, i, Shared);
               && ts == [Region(a, at, Confidential), Region(at, at, Shared), Region(at, b, Confidential)]
               && AllHave(ts, a, b, Confidential) && !ContainsList(ts, a, b, Confidential)
               && UpdateList(ts, a, b, Confidential) == Err(VmRegionNotFound)
  {
    hide Has;
    var rs := [Region(a, b, Confidential)];
    var x, y, z := Region(a, at, Confidential), Region(at, at, Updating), Region(at, b, Confidential);
    UpdateIsSplit(rs, at, at, Confidential);
    assert Split(rs, 0, at, at, [y]) == [x, y, z];
    var ts := [x, y.(kind := Shared), z];
    assert [x, y, z][1 := y.(kind := Shared)] == ts;
    NotExact(ts, 0, 2);
  }

  /* ---------------- Giving up ---------------- */

  /** Nothing of one type is left to merge. */
  predicate CoalescedOf(rs: seq<Region>, k: Kind) {
    forall i | 0 < i < |rs| && rs[i].kind == k :: !Mergeable(rs[i - 1], rs[i])
  }

  /** The range reaches an end of the region that holds it at which that region could be merged with the next. */
  predicate SticksOut(rs: seq<Region>, start: nat, end: nat, kind: Kind) {
    match Holder(rs, start, end, kind, 0)
    case None => false
    case Some(i) => SticksLeft(rs, i, start) || SticksRight(rs, i, end)
  }

  predicate SticksLeft(rs: seq<Region>, i: nat, start: nat)
    requires i < |rs|
  {
    start == rs[i].start && i > 0 && Mergeable(rs[i - 1], rs[i])
  }

  predicate SticksRight(rs: seq<Region>, i: nat, end: nat)
    requires i < |rs|
  {
    end == rs[i].end && i + 1 < |rs| && Mergeable(rs[i], rs[i + 1])
  }

  /** An update that is given up leaves the list exactly as it was, whatever the range, if and only if the range does
      not reach an end at which regions could be merged. No range does if nothing of the type is left to merge. */
  lemma DropRestoresIff(rs: seq<Region>, start: nat, end: nat, kind: Kind)
    requires start <= end && UpdateList(rs, start, end, kind).Ok?
    ensures var (us, i) := UpdateList(rs, start, end, kind).value;
            ResolveList(us, i, kind) == rs <==> !SticksOut(rs, start, end, kind)
    ensures CoalescedOf(rs, kind) ==> !SticksOut(rs, start, end, kind)
  {
    hide UpdateList, Split, Coalesce;
    UpdateIsSplit(rs, start, end, kind);
    var i := Holder(rs, start, end, kind, 0).value;
    ResolveIsSplit(rs, i, start, end, kind);
    if SticksOut(rs, start, end, kind) {
      Swallows(rs, i, start, end);
    } else {
      RejoinAll(rs, i, start, end);
    }
  }

  lemma CoalescedIsOf(rs: seq<Region>, k: Kind)
    requires Coalesced(rs)
    ensures CoalescedOf(rs, k)
  {
  }

  /** An empty region that kept two others apart can be removed, and then they could be merged: an update of one of them
      that is given up merges them. */
  lemma EmptyDropSpoilsRestore()
    ensures var rs := [Region(0, 2, Confidential), Region(2, 2, Mmio), Region(2, 4, Confidential)];
            var ts := [Region(0, 2, Confidential), Region(2, 4, Confidential)];
            && AddList(rs[..2], 2, 4, Confidential) == Ok(rs) && RemoveList(rs, 2, 2, Mmio) == Ok(ts)
            && SticksOut(ts, 2, 4, Confidential) && UpdateList(ts, 2, 4, Confidential).Ok?
            && var (us, i) := UpdateList(ts, 2, 4, Confidential).value;
               ResolveList(us, i, Confidential) == [Region(0, 4, Confidential)]
  {
    var a, e, b := Region(0, 2, Confidential), Region(2, 2, Mmio), Region(2, 4, Confidential);
    var rs, ts := [a, e, b], [a, b];
    assert rs[..2] == [a, e] && InsertAt([a, e], 2, b) == rs;
    assert Slot([a, e], 2, 4, 0) == Some(2) by {
      assert Slot([a, e], 2, 4, 2) == Some(2);
      assert Slot([a, e], 2, 4, 1) == Some(2);
    }
    assert AddList([a, e], 2, 4, Confidential) == Ok(rs);
    assert Holder(rs, 2, 2, Mmio, 0) == Some(1) by {
      assert Holder(rs, 2, 2, Mmio, 1) == Some(1);
    }
    RemoveIsSplit(rs, 2, 2, Mmio);
    assert Split(rs, 1, 2, 2, []) == ts;
    assert Holder(ts, 2, 4, Confidential, 0) == Some(1) by {
      assert Holder(ts, 2, 4, Confidential, 1) == Some(1);
    }
    assert ts[1 := Region(2, 4, Updating)] == [a, b.(kind := Updating)];
    assert UpdateList(ts, 2, 4, Confidential) == Ok(([a, b.(kind := Updating)], 1));
    assert [a, b.(kind := Updating)][1 := b] == ts;
    MergedIs(ts, 0);
    assert Merged(ts, 0) == [Region(0, 4, Confidential)];
  }

  /** The list with region `i` cut at `end`. */
  function Cut(rs: seq<Region>, i: nat, end: nat): (ts: seq<Region>)
    requires i < |rs|
  {
    rs[..i] + [Region(rs[i].start, end, rs[i].kind)] + Behind(rs[i], end) + rs[i + 1..]
  }

  lemma RejoinBefore(rs: seq<Region>, i: nat, start: nat, end: nat)
    requires i < |rs| && Holds(rs[i], start, end, rs[i].kind) && start <= end && !SticksLeft(rs, i, start)
    ensures var j := i + |Before(rs[i], start)|;
            var ts := Split(rs, i, start, end, [Region(start, end, rs[i].kind)]);
            j < |ts| && MergeBefore(ts, j) == (Cut(rs, i, end), i)
  {
    var b := Before(rs[i], start);
    var j := i + |b|;
    var ts := Split(rs, i, start, end, [Region(start, end, rs[i].kind)]);
    assert ts[j] == Region(start, end, rs[i].kind);
    if b != [] {
      assert ts[i] == b[0];
      MergedIs(ts, i);
      assert Merged(ts, i) == Cut(rs, i, end);
    } else {
      assert ts == Cut(rs, i, end);
      assert i > 0 ==> ts[i - 1] == rs[i - 1] && !Mergeable(rs[i - 1], rs[i]);
    }
  }

  lemma RejoinAfter(rs: seq<Region>, i: nat, end: nat)
    requires i < |rs| && end <= rs[i].end && !SticksRight(rs, i, end)
    ensures i < |Cut(rs, i, end)| && MergeAfter(Cut(rs, i, end), i) == rs
  {
    var c, ts := Behind(rs[i], end), Cut(rs, i, end);
    assert ts[i] == Region(rs[i].start, end, rs[i].kind);
    assert rs == rs[..i] + [rs[i]] + rs[i + 1..];
    if c != [] {
      assert ts[i + 1] == c[0];
      MergedIs(ts, i);
      assert Merged(ts, i) == rs;
    } else {
      assert ts == rs;
      assert i + 1 < |rs| ==> !Mergeable(rs[i], rs[i + 1]);
    }
  }

  lemma RejoinAll(rs: seq<Region>, i: nat, start: nat, end: nat)
    requires i < |rs| && Holds(rs[i], start, end, rs[i].kind) && start <= end
    requires !SticksLeft(rs, i, start) && !SticksRight(rs, i, end)
    ensures var j := i + |Before(rs[i], start)|;
            var ts := Split(rs, i, start, end, [Region(start, end, rs[i].kind)]);
            j < |ts| && Coalesce(ts, j).0 == rs
  {
    hide Split, Cut, MergeBefore, MergeAfter;
    RejoinBefore(rs, i, start, end);
    RejoinAfter(rs, i, end);
  }

  lemma Swallows(rs: seq<Region>, i: nat, start: nat, end: nat)
    requires i < |rs| && Holds(rs[i], start, end, rs[i].kind) && start <= end
    requires SticksLeft(rs, i, start) || SticksRight(rs, i, end)
    ensures var j := i + |Before(rs[i], start)|;
            var ts := Split(rs, i, start, end, [Region(start, end, rs[i].kind)]);
            j < |ts| && |Coalesce(ts, j).0| < |rs|
  {
    var ts := Split(rs, i, start, end, [Region(start, end, rs[i].kind)]);
    if SticksLeft(rs, i, start) {
      assert ts == Cut(rs, i, end);
      SwallowsLeft(rs, i, end);
    } else {
      RejoinBefore(rs, i, start, end);
      assert Cut(rs, i, end) == rs;
    }
  }

  lemma SwallowsLeft(rs: seq<Region>, i: nat, end: nat)
    requires 0 < i < |rs| && rs[i].start <= end <= rs[i].end && Mergeable(rs[i - 1], rs[i])
    ensures i < |Cut(rs, i, end)| && |Coalesce(Cut(rs, i, end), i).0| < |rs|
  {
    var c, ts := Behind(rs[i], end), Cut(rs, i, end);
    assert ts[i - 1] == rs[i - 1] && ts[i] == Region(rs[i].start, end, rs[i].kind);
    MergedIs(ts, i - 1);
    var us := Merged(ts, i - 1);
    assert |us| == |rs| + |c| - 1;
    if c != [] { assert ts[i + 1] == c[0] && us[i] == c[0]; }
  }

  /* ---------------- update_all ---------------- */

  type Change = Region -> Option<Kind>

  /** From region `i` on, every region that `f` gives a new type gets it, and is merged with its neighbours;
      the walk goes on behind the merged region. */
  function Sweep(rs: seq<Region>, i: nat, f: Change): (ts: seq<Region>)
    requires i <= |rs|
    ensures |ts| <= |rs|
    decreases |rs| - i
  {
    if i == |rs| then rs
    else match f(rs[i])
      case None => Sweep(rs, i + 1, f)
      case Some(k) =>
        var (ts, j) := Coalesce(rs[i := rs[i].(kind := k)], i);
        Sweep(ts, j + 1, f)
  }

  lemma Retyped(rs: seq<Region>, i: nat, k: Kind)
    requires Sorted(rs) && i < |rs|
    ensures Sorted(rs[i := rs[i].(kind := k)])
    ensures NonEmpty(rs) ==> NonEmpty(rs[i := rs[i].(kind := k)])
    ensures Coalesced(rs) ==> CoalescedBut(rs[i := rs[i].(kind := k)], i)
  {
    var ts := rs[i := rs[i].(kind := k)];
    if Coalesced(rs) {
      forall j | 0 < j < |ts| && j != i && j != i + 1 ensures !Mergeable(ts[j - 1], ts[j]) {
        assert !Mergeable(rs[j - 1], rs[j]);
      }
    }
  }

  /** Whatever the change, the list stays sorted, and merged if it was. */
  lemma {:induction false} SweepKeeps(rs: seq<Region>, i: nat, f: Change)
    requires Sorted(rs) && i <= |rs|
    ensures Sorted(Sweep(rs, i, f))
    ensures Coalesced(rs) ==> Coalesced(Sweep(rs, i, f))
    ensures NonEmpty(rs) ==> NonEmpty(Sweep(rs, i, f))
    decreases |rs| - i
  {
    hide Sorted, Coalesced, NonEmpty, CoalescedBut, Coalesce, Same;
    if i < |rs| {
      match f(rs[i])
      case None => SweepKeeps(rs, i + 1, f);
      case Some(k) =>
        Retyped(rs, i, k);
        var r := rs[i := rs[i].(kind := k)];
        CoalesceDoes(r, i);
        SweepKeeps(Coalesce(r, i).0, Coalesce(r, i).1 + 1, f);
    }
  }

  /** The change leaves alone the types that it gives. */
  ghost predicate Settles(f: Change) {
    forall r: Region, s: Region | f(r).Some? && s.kind == f(r).value :: f(s) == None
  }

  function Changed(r: Region, f: Change): (s: Region) {
    match f(r) case None => r case Some(k) => r.(kind := k)
  }

  /** Every region changed by itself, without merging. */
  function ChangeEach(rs: seq<Region>, f: Change): (ts: seq<Region>) {
    if rs == [] then [] else [Changed(rs[0], f)] + ChangeEach(rs[1..], f)
  }

  /** Two sorted lists with the same tail and the same meaning have heads with the same meaning. */
  lemma HeadsSame(a: seq<Region>, b: seq<Region>, tail: seq<Region>)
    requires Sorted(a + tail) && Sorted(b + tail) && Same(a + tail, b + tail)
    ensures Same(a, b)
  {
    forall x, k ensures Has(a, x, k) <==> Has(b, x, k) {
      HasParts(a, tail, x, k);
      HasParts(b, tail, x, k);
      NotInTail(a, tail, x, k);
      NotInTail(b, tail, x, k);
    }
  }

  lemma NotInTail(a: seq<Region>, tail: seq<Region>, x: nat, k: Kind)
    requires Sorted(a + tail)
    ensures Has(a, x, k) ==> !Has(tail, x, k)
  {
    if Has(a, x, k) {
      var i :| 0 <= i < |a| && InRegion(a[i], x);
      assert (a + tail)[i] == a[i];
      forall j | 0 <= j < |tail| ensures !InRegion(tail[j], x) {
        assert (a + tail)[|a| + j] == tail[j];
      }
    }
  }

  lemma {:induction false} SweepMeansAt(rs: seq<Region>, i: nat, f: Change, a: nat, k: Kind)
    requires Sorted(rs) && i <= |rs| && Settles(f)
    ensures Has(Sweep(rs, i, f), a, k) <==> Has(rs[..i], a, k) || Has(ChangeEach(rs[i..], f), a, k)
    decreases |rs| - i
  {
    hide Sorted, Has, Coalesce;
    if i == |rs| {
      assert rs[..i] == rs && rs[i..] == [];
      NothingHas(a, k);
    } else {
      assert rs[i..][0] == rs[i] && rs[i..][1..] == rs[i + 1..];
      var r := Changed(rs[i], f);
      HasParts([r], ChangeEach(rs[i + 1..], f), a, k);
      HasParts(rs[..i], [r], a, k);
      if f(rs[i]).None? {
        SweepMeansAt(rs, i + 1, f, a, k);
        assert rs[..i + 1] == rs[..i] + [r];
      } else {
        SweepStep(rs, i, f, a, k);
        var c := Coalesce(rs[i := r], i);
        CoalescedSorted(rs, i, r.kind);
        SweepMeansAt(c.0, c.1 + 1, f, a, k);
      }
    }
  }

  lemma CoalescedSorted(rs: seq<Region>, i: nat, k: Kind)
    requires Sorted(rs) && i < |rs|
    ensures Sorted(Coalesce(rs[i := rs[i].(kind := k)], i).0)
  {
    Retyped(rs, i, k);
    CoalesceDoes(rs[i := rs[i].(kind := k)], i);
  }

  /** One step of the walk, in terms of what is done and what is still to do. */
  lemma SweepStep(rs: seq<Region>, i: nat, f: Change, a: nat, k: Kind)
    requires Sorted(rs) && i < |rs| && Settles(f) && f(rs[i]).Some?
    ensures var r := Changed(rs[i], f);
            var (ts, j) := Coalesce(rs[i := r], i);
            Has(ts[..j + 1], a, k) || Has(ChangeEach(ts[j + 1..], f), a, k)
            <==> Has(rs[..i] + [r], a, k) || Has(ChangeEach(rs[i + 1..], f), a, k)
  {
    hide Sorted, Has, Coalesce;
    var r := Changed(rs[i], f);
    var us := rs[i := r];
    Retyped(rs, i, r.kind);
    CoalesceDoes(us, i);
    var (ts, j) := Coalesce(us, i);
    if ts[j + 1..] == us[i + 1..] {
      HeadSame(rs, i, r, ts, j);
    } else {
      assert us[i + 1] == rs[i + 1] && f(rs[i + 1]) == None;
      HeadMerged(rs, i, r, ts, j, f, a, k);
    }
  }

  lemma HeadSame(rs: seq<Region>, i: nat, r: Region, ts: seq<Region>, j: nat)
    requires i < |rs| && j < |ts| && Sorted(rs[i := r]) && Sorted(ts) && Same(rs[i := r], ts)
    requires ts[j + 1..] == rs[i := r][i + 1..]
    ensures Same(rs[..i] + [r], ts[..j + 1]) && ts[j + 1..] == rs[i + 1..]
  {
    hide Sorted, Same;
    var us := rs[i := r];
    assert us == (rs[..i] + [r]) + us[i + 1..] && ts == ts[..j + 1] + ts[j + 1..] && us[i + 1..] == rs[i + 1..];
    HeadsSame(rs[..i] + [r], ts[..j + 1], us[i + 1..]);
  }

  lemma HeadMerged(rs: seq<Region>, i: nat, r: Region, ts: seq<Region>, j: nat, f: Change, a: nat, k: Kind)
    requires i + 1 < |rs| && j < |ts| && Sorted(rs[i := r]) && Sorted(ts) && Same(rs[i := r], ts)
    requires ts[j + 1..] == rs[i := r][i + 2..] && f(rs[i + 1]) == None
    ensures Has(ts[..j + 1], a, k) || Has(ChangeEach(ts[j + 1..], f), a, k)
            <==> Has(rs[..i] + [r], a, k) || Has(ChangeEach(rs[i + 1..], f), a, k)
  {
    hide Sorted, Has;
    var us, n := rs[i := r], rs[i + 1];
    assert us == (rs[..i] + [r] + [n]) + us[i + 2..] && ts == ts[..j + 1] + ts[j + 1..] && us[i + 2..] == rs[i + 2..];
    HeadsSame(rs[..i] + [r] + [n], ts[..j + 1], us[i + 2..]);
    assert rs[i + 1..][0] == n && rs[i + 1..][1..] == rs[i + 2..];
    HasParts(rs[..i] + [r], [n], a, k);
    HasParts([n], ChangeEach(rs[i + 2..], f), a, k);
  }

  lemma {:induction false} ChangeEachHas(rs: seq<Region>, f: Change, a: nat, k: Kind)
    ensures Has(ChangeEach(rs, f), a, k) <==> exists i | 0 <= i < |rs| ::
                                              InRegion(rs[i], a) && Changed(rs[i], f).kind == k
  {
    if rs != [] {
      var rest := rs[1..];
      ChangeEachHas(rest, f, a, k);
      HasParts([Changed(rs[0], f)], ChangeEach(rest, f), a, k);
      HasOne(Changed(rs[0], f), a, k);
      if i :| 0 <= i < |rs| && InRegion(rs[i], a) && Changed(rs[i], f).kind == k {
        assert i > 0 ==> rest[i - 1] == rs[i];
      }
      if i :| 0 <= i < |rest| && InRegion(rest[i], a) && Changed(rest[i], f).kind == k {
        assert rs[i + 1] == rest[i];
      }
    }
  }

  /** update_all changes the type of each page as the change says for the region that holds it. */
  lemma SweepMeans(rs: seq<Region>, f: Change, a: nat, k: Kind)
    requires Sorted(rs) && Settles(f)
    ensures Has(Sweep(rs, 0, f), a, k) <==> exists i | 0 <= i < |rs| ::
                                            InRegion(rs[i], a) && Changed(rs[i], f).kind == k
  {
    SweepMeansAt(rs, 0, f, a, k);
    assert rs[..0] == [] && rs[0..] == rs;
    NothingHas(a, k);
    ChangeEachHas(rs, f, a, k);
  }

  /** The change made when a TLB shootdown is over; `done` says whether the pages of a region could be taken
      out of the page table. */
  function Completion(min: nat, done: Region -> bool): (f: Change) {
    (r: Region) =>
      if r.kind.Sharing? && r.kind.version < min && done(r) then Some(Shared)
      else if r.kind.Unsharing? && r.kind.version < min && done(r) then Some(Confidential)
      else None
  }

  lemma CompletionSettles(min: nat, done: Region -> bool)
    ensures Settles(Completion(min, done))
  {
  }

  /** After a shootdown in which all the pages could be taken out, every page that was being shared since
      before `min` is shared, and every other page has the type it had, or is confidential if it was being
      taken back. */
  lemma CompletionMeans(rs: seq<Region>, min: nat, a: nat, k: Kind)
    requires Sorted(rs)
    ensures var ts := Sweep(rs, 0, Completion(min, r => true));
            Has(ts, a, k) <==>
              || (Has(rs, a, k) && !((k.Sharing? || k.Unsharing?) && k.version < min))
              || (k == Shared && exists v | 0 <= v < min :: Has(rs, a, Sharing(v)))
              || (k == Confidential && exists v | 0 <= v < min :: Has(rs, a, Unsharing(v)))
  {
    var f := Completion(min, r => true);
    CompletionSettles(min, r => true);
    SweepMeans(rs, f, a, k);
    if i :| 0 <= i < |rs| && InRegion(rs[i], a) && Changed(rs[i], f).kind == k {
      assert Has(rs, a, rs[i].kind);
      if rs[i].kind.Sharing? { assert Has(rs, a, Sharing(rs[i].kind.version)); }
      if rs[i].kind.Unsharing? { assert Has(rs, a, Unsharing(rs[i].kind.version)); }
    }
  }
}
