/** The region list of a VM and the handle for an update in progress, as objects. */
module VmRegionLists {
  import opened Basics
  import opened RegionLists
  import opened RegionUpdates

  class VmRegionList {
    var regions: seq<Region>

    ghost predicate Valid()
      reads this
    {
      Sorted(regions) && |regions| <= MAX_MEM_REGIONS
    }

    constructor ()
      ensures Valid() && regions == [] && Canonical(regions)
    {
      regions := [];
    }

    method Add(start: nat, end: nat, kind: Kind) returns (r: Result<()>)
      requires Valid() && start <= end
      modifies this
      ensures Valid()
      ensures match AddList(old(regions), start, end, kind)
              case Ok(ts) => r == Ok(()) && regions == ts
              case Err(e) => r == Err(e) && regions == old(regions)
    {
      hide Sorted, Same, Has, Coalesce, NonEmpty, Coalesced, CoalescedBut;
      var index := 0;
      while index < |regions|
        invariant index <= |regions| && regions == old(regions)
        invariant Slot(regions, start, end, 0) == Slot(regions, start, end, index)
      {
        var other := regions[index];
        if other.start > start {
          if other.start < end { return Err(OverlappingVmRegion); }
          break;
        } else if other.end > start {
          return Err(OverlappingVmRegion);
        }
        index := index + 1;
      }
      if |regions| >= MAX_MEM_REGIONS { return Err(InsufficientVmRegionSpace); }
      AddMeans(regions, start, end, kind);
      SlotDoes(regions, start, end, 0);
      Inserted(regions, index, Region(start, end, kind));
      regions := regions[..index] + [Region(start, end, kind)] + regions[index..];
      var _ := TryCoalesceAt(index);
      return Ok(());
    }

    method Remove(start: nat, end: nat, kind: Kind) returns (r: Result<()>)
      requires Valid() && start <= end
      modifies this
      ensures Valid()
      ensures match RemoveList(old(regions), start, end, kind)
              case Ok(ts) => r == Ok(()) && regions == ts
              case Err(e) => r == Err(e) && regions == old(regions)
    {
      hide Sorted, Has, Holder;
      var found := Position(start, end, kind);
      if found.None? { return Err(InvalidMapRegion); }
      var index := found.value;
      var region := regions[index];
      if region.start < start && region.end > end
         && |regions| >= MAX_MEM_REGIONS { return Err(InsufficientVmRegionSpace); }
      RemoveMeans(regions, start, end, kind);
      regions := regions[..index] + regions[index + 1..];
      if region.start < start {
        regions := regions[..index] + [Region(region.start, start, kind)] + regions[index..];
        index := index + 1;
      }
      if region.end > end {
        regions := regions[..index] + [Region(end, region.end, kind)] + regions[index..];
      }
      return Ok(());
    }

    /** The first region of the type that holds the range. */
    method Position(start: nat, end: nat, kind: Kind) returns (r: Option<nat>)
      ensures r == Holder(regions, start, end, kind, 0)
    {
      var i := 0;
      while i < |regions|
        invariant i <= |regions| && Holder(regions, start, end, kind, 0) == Holder(regions, start, end, kind, i)
      {
        var g := regions[i];
        if g.start <= start && end <= g.end && g.kind == kind { return Some(i); }
        i := i + 1;
      }
      return None;
    }

    /** Starts an update of the range; the list says that it is being updated until the handle is finished
        or dropped. */
    method Update(start: nat, end: nat, kind: Kind) returns (r: Result<VmRegionUpdater>)
      requires Valid() && start <= end
      modifies this
      ensures Valid()
      ensures match UpdateList(old(regions), start, end, kind)
              case Ok(p) =>
                && r.Ok? && fresh(r.value) && r.value.list == this && r.value.index == p.1 && r.value.kind == kind
                && regions == p.0
              case Err(e) => r == Err(e) && regions == old(regions)
    {
      hide Sorted, Has, Holder;
      var found := Position(start, end, kind);
      if found.None? { return Err(VmRegionNotFound); }
      var index := found.value;
      var split := regions[index];
      var reserve := 0;
      if split.start != start { reserve := reserve + 1; }
      if split.end != end { reserve := reserve + 1; }
      if MAX_MEM_REGIONS - |regions| < reserve { return Err(InsufficientVmRegionSpace); }
      UpdateMeans(regions, start, end, kind, kind);
      if split.start != start {
        regions := regions[..index] + [Region(split.start, start, kind)] + regions[index..];
        index := index + 1;
      }
      regions := regions[index := Region(start, end, Updating)];
      if split.end != end {
        regions := regions[..index + 1] + [Region(end, split.end, kind)] + regions[index + 1..];
      }
      var u := new VmRegionUpdater(this, index, kind);
      return Ok(u);
    }

    method UpdateAll(f: Change)
      requires Valid()
      modifies this
      ensures Valid() && regions == Sweep(old(regions), 0, f)
    {
      hide Sorted, Coalesce, Same, Coalesced, CoalescedBut, NonEmpty;
      var i: nat := 0;
      while i < |regions|
        invariant i <= |regions| && Valid() && Sweep(regions, i, f) == Sweep(old(regions), 0, f)
        decreases |regions| - i
      {
        match f(regions[i]) {
          case Some(k) =>
            Retyped(regions, i, k);
            regions := regions[i := regions[i].(kind := k)];
            var j := TryCoalesceAt(i);
            i := j.value + 1;
          case None =>
            i := i + 1;
        }
      }
    }

    method TryCoalesceAt(index: nat) returns (r: Option<nat>)
      requires Sorted(regions)
      modifies this
      ensures Sorted(regions) && |regions| <= |old(regions)|
      ensures if index < |old(regions)|
              then r == Some(Coalesce(old(regions), index).1) && regions == Coalesce(old(regions), index).0
              else r == None && regions == old(regions)
    {
      hide Sorted, Same, Has, NonEmpty, Coalesced, CoalescedBut;
      if index >= |regions| { return None; }
      var i := index;
      CoalesceDoes(regions, index);
      var start, end, kind := regions[i].start, regions[i].end, regions[i].kind;
      if i > 0 && regions[i - 1].end == start && regions[i - 1].kind == kind {
        start := regions[i - 1].start;
        regions := regions[i - 1 := regions[i - 1].(end := end)];
        regions := regions[..i] + regions[i + 1..];
        i := i - 1;
      }
      if i + 1 < |regions| && regions[i + 1].start == end && regions[i + 1].kind == kind {
        regions := regions[i + 1 := regions[i + 1].(start := start)];
        regions := regions[..i] + regions[i + 1..];
      }
      return Some(i);
    }

    method Contains(start: nat, end: nat, kind: Kind) returns (b: bool)
      ensures b == ContainsList(regions, start, end, kind)
    {
      var r := Position(start, end, kind);
      return r.Some?;
    }

    /** The type of the page at `a`. */
    method Find(a: nat) returns (r: Option<Kind>)
      ensures r.Some? ==> Has(regions, a, r.value)
      ensures r.None? ==> forall k :: !Has(regions, a, k)
    {
      var i := 0;
      while i < |regions|
        invariant i <= |regions| && forall j | 0 <= j < i :: !InRegion(regions[j], a)
      {
        if regions[i].start <= a < regions[i].end { return Some(regions[i].kind); }
        i := i + 1;
      }
      return None;
    }
  }

  class VmRegionUpdater {
    const list: VmRegionList
    const index: nat
    var kind: Kind

    constructor (list: VmRegionList, index: nat, kind: Kind)
      ensures this.list == list && this.index == index && this.kind == kind
    {
      this.list, this.index, this.kind := list, index, kind;
    }

    /** Runs when the handle goes away: the range takes the type the handle holds. */
    method Drop()
      requires list.Valid() && index < |list.regions|
      modifies list
      ensures list.Valid() && list.regions == ResolveList(old(list.regions), index, kind)
    {
      Retyped(list.regions, index, kind);
      list.regions := list.regions[index := list.regions[index].(kind := kind)];
      var _ := list.TryCoalesceAt(index);
    }

    method Finish(newKind: Kind)
      requires list.Valid() && index < |list.regions|
      modifies this, list
      ensures list.Valid() && list.regions == ResolveList(old(list.regions), index, newKind)
    {
      kind := newKind;
      Drop();
    }
  }

  /** Begun and finished on a canonical list, an update leaves a list in which exactly the range has the new type, and
      which is canonical exactly if the range blends in; begun and dropped, it leaves the very same list. */
  method UpdateWhole(l: VmRegionList, start: nat, end: nat, was: Kind, now: Option<Kind>) returns (ok: bool)
    requires l.Valid() && Canonical(l.regions) && start <= end
    modifies l
    ensures l.Valid()
    ensures Canonical(l.regions) <==> !ok || now == None || Blends(old(l.regions), start, end, was, now.value)
    ensures ok ==> ContainsList(old(l.regions), start, end, was)
    ensures !ok || now == None ==> l.regions == old(l.regions)
    ensures ok && now.Some? ==>
              forall a: nat, k :: Has(l.regions, a, k) <==>
                       if start <= a < end then k == now.value else Has(old(l.regions), a, k)
  {
    hide Blends, Has, Sorted, NonEmpty, Coalesced, CoalescedOf, SticksOut, ResolveList;
    ghost var before := l.regions;
    var r := l.Update(start, end, was);
    if r.Err? { return false; }
    DropRestoresIff(before, start, end, was);
    CoalescedIsOf(before, was);
    match now {
      case None => r.value.Drop();
      case Some(k) =>
        UpdateMeans(before, start, end, was, k);
        UpdateKeepsCanonicalIff(before, start, end, was, k);
        r.value.Finish(k);
    }
    return true;
  }
}
