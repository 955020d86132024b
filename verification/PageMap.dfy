/** The page map: one record for every page of the machine's memory, found by address through a short list of
    contiguous chunks. */
module PageMaps {
  import opened Basics
  import opened PageInfos

  /** What a part of the hardware memory map is for. */
  datatype RegionKind = Available | HostImage | Device | OtherReserved

  datatype HwRegion = HwRegion(base: nat, count: nat, kind: RegionKind)

  /** Regions are in the order of their addresses and do not overlap; they may be empty. */
  predicate InOrder(rs: seq<HwRegion>) {
    forall i, j | 0 <= i < j < |rs| :: rs[i].base + rs[i].count <= rs[j].base
  }

  predicate RegionsOk(rs: seq<HwRegion>) {
    (forall i | 0 <= i < |rs| :: rs[i].count > 0) && InOrder(rs)
  }

  predicate InRegion(r: HwRegion, a: nat) { r.base <= a < r.base + r.count }

  predicate Covered(rs: seq<HwRegion>, a: nat) {
    exists i | 0 <= i < |rs| :: InRegion(rs[i], a)
  }

  function Initial(kind: RegionKind): (i: Info) {
    match kind
    case Available => Info(Ram, Free, [])
    case HostImage => Info(Ram, ConvertedLocked, [])
    case Device => Info(Mmio, ConvertedLocked, [])
    case OtherReserved => Info(Ram, Reserved, [])
  }

  /** The pages of a region, and those of a list of regions, in address order. */
  function RegionPfns(r: HwRegion): (s: seq<nat>)
    ensures |s| == r.count && forall j | 0 <= j < r.count :: s[j] == r.base + j
  {
    seq(r.count, j requires 0 <= j => r.base + j)
  }

  function Pfns(rs: seq<HwRegion>): (s: seq<nat>) {
    if rs == [] then [] else RegionPfns(rs[0]) + Pfns(rs[1..])
  }

  function RegionInfos(r: HwRegion): (s: seq<Info>)
    ensures |s| == r.count && forall j | 0 <= j < r.count :: s[j] == Initial(r.kind)
  {
    seq(r.count, j => Initial(r.kind))
  }

  function Infos(rs: seq<HwRegion>): (s: seq<Info>) {
    if rs == [] then [] else RegionInfos(rs[0]) + Infos(rs[1..])
  }

  lemma {:induction false} PfnsAppend(rs: seq<HwRegion>, r: HwRegion)
    ensures Pfns(rs + [r]) == Pfns(rs) + RegionPfns(r) && Infos(rs + [r]) == Infos(rs) + RegionInfos(r)
  {
    if rs == [] {
      assert rs + [r] == [r] && [r][1..] == [];
    } else {
      assert (rs + [r])[1..] == rs[1..] + [r];
      PfnsAppend(rs[1..], r);
    }
  }

  /** Where the page at position `i` comes from. */
  lemma {:induction false} PfnFrom(rs: seq<HwRegion>, i: nat) returns (k: nat)
    requires i < |Pfns(rs)|
    ensures |Infos(rs)| == |Pfns(rs)| && k < |rs| && InRegion(rs[k], Pfns(rs)[i]) && Infos(rs)[i] == Initial(rs[k].kind)
  {
    SameLength(rs);
    var n := rs[0].count;
    if i < n {
      k := 0;
    } else {
      k := PfnFrom(rs[1..], i - n);
      k := k + 1;
    }
  }

  lemma {:induction false} SameLength(rs: seq<HwRegion>)
    ensures |Infos(rs)| == |Pfns(rs)|
  {
    if rs != [] { SameLength(rs[1..]); }
  }

  lemma {:induction false} CoveredListed(rs: seq<HwRegion>, k: nat, a: nat)
    requires k < |rs| && InRegion(rs[k], a)
    ensures a in Pfns(rs)
  {
    if k == 0 {
      assert RegionPfns(rs[0])[a - rs[0].base] == a;
    } else {
      CoveredListed(rs[1..], k - 1, a);
    }
  }

  lemma {:induction false} PfnsAscending(rs: seq<HwRegion>)
    requires InOrder(rs)
    ensures Ascending(Pfns(rs))
  {
    if rs != [] {
      var first, rest := RegionPfns(rs[0]), Pfns(rs[1..]);
      PfnsAscending(rs[1..]);
      forall j | 0 <= j < |rest| ensures rs[0].base + rs[0].count <= rest[j] {
        var k := PfnFrom(rs[1..], j);
        assert rs[1..][k] == rs[k + 1];
      }
    }
  }

  /** Regions do not overlap. */
  lemma OneRegion(rs: seq<HwRegion>, k: nat, l: nat, a: nat)
    requires InOrder(rs) && k < |rs| && l < |rs| && InRegion(rs[k], a) && InRegion(rs[l], a)
    ensures k == l
  {
  }

  /** The pages of the map are exactly those covered by the regions, in order, with the state that the
      region's kind asks for. */
  lemma PfnsMean(rs: seq<HwRegion>)
    requires InOrder(rs)
    ensures Ascending(Pfns(rs)) && |Pfns(rs)| == |Infos(rs)|
    ensures forall a: nat :: a in Pfns(rs) <==> Covered(rs, a)
    ensures forall i, k | 0 <= i < |Pfns(rs)| && 0 <= k < |rs| && InRegion(rs[k], Pfns(rs)[i]) ::
            Infos(rs)[i] == Initial(rs[k].kind)
  {
    hide Pfns, Infos, InOrder, InRegion, Initial;
    PfnsAscending(rs);
    SameLength(rs);
    forall a: nat ensures a in Pfns(rs) <==> Covered(rs, a) {
      if a in Pfns(rs) {
        var i :| 0 <= i < |Pfns(rs)| && Pfns(rs)[i] == a;
        var k := PfnFrom(rs, i);
      }
      if Covered(rs, a) {
        var k :| 0 <= k < |rs| && InRegion(rs[k], a);
        CoveredListed(rs, k, a);
      }
    }
    forall i, k | 0 <= i < |Pfns(rs)| && 0 <= k < |rs| && InRegion(rs[k], Pfns(rs)[i])
           ensures Infos(rs)[i] == Initial(rs[k].kind) {
      var l := PfnFrom(rs, i);
      OneRegion(rs, k, l, Pfns(rs)[i]);
    }
  }

  /** In what state the pages of each kind of region start: memory that is available is free, the host's image is
      locked, to be given to it, devices are locked, and everything else is reserved. None has an owner. */
  lemma StatesAtBoot(rs: seq<HwRegion>, i: nat, k: nat)
    requires InOrder(rs) && i < |Pfns(rs)| && k < |rs| && InRegion(rs[k], Pfns(rs)[i])
    ensures |Infos(rs)| == |Pfns(rs)|
    ensures Infos(rs)[i].owners == [] && (Infos(rs)[i].memType == Mmio <==> rs[k].kind.Device?)
    ensures Infos(rs)[i].state == Free <==> rs[k].kind.Available?
    ensures Infos(rs)[i].state == ConvertedLocked <==> rs[k].kind.HostImage? || rs[k].kind.Device?
    ensures Infos(rs)[i].state == Reserved <==> rs[k].kind.OtherReserved?
  {
    hide Pfns, Infos, InOrder, InRegion;
    PfnsMean(rs);
  }

  /* ---------------- Chunks ---------------- */

  /** A contiguous chunk of memory, and where its records start. */
  datatype Chunk = Chunk(base: nat, count: nat, index: nat)

  predicate Holds(c: Chunk, a: nat) { c.base <= a < c.base + c.count }

  /** Where the chunk ends among the records. */
  function EndOf(c: Chunk): (n: nat) { c.index + c.count }

  predicate ChunkOk(c: Chunk, pfns: seq<nat>) {
    EndOf(c) <= |pfns| && forall j | c.index <= j < EndOf(c) :: pfns[j] == c.base + (j - c.index)
  }

  /** The chunks divide up the records, and there is a gap in memory between any two of them. A chunk may be empty. */
  predicate ChunksOk(cs: seq<Chunk>, pfns: seq<nat>) {
    && (forall k | 0 <= k < |cs| :: ChunkOk(cs[k], pfns))
    && (forall k | 0 < k < |cs| :: cs[k].index == EndOf(cs[k - 1]) && cs[k - 1].base + cs[k - 1].count < cs[k].base)
    && (if cs == [] then pfns == [] else cs[0].index == 0 && EndOf(cs[|cs| - 1]) == |pfns|)
  }

  /** The first chunk, from `k` on, that holds the page. */
  function FindChunk(cs: seq<Chunk>, a: nat, k: nat): (r: Option<nat>)
    requires k <= |cs|
    ensures r.Some? ==> k <= r.value < |cs| && Holds(cs[r.value], a)
    ensures r.None? ==> forall j | k <= j < |cs| :: !Holds(cs[j], a)
    decreases |cs| - k
  {
    if k == |cs| then None else if Holds(cs[k], a) then Some(k) else FindChunk(cs, a, k + 1)
  }

  function MapIndex(cs: seq<Chunk>, a: nat): (r: Option<nat>) {
    match FindChunk(cs, a, 0)
    case None => None
    case Some(k) => Some(cs[k].index + a - cs[k].base)
  }

  /** Every record is in a chunk. */
  lemma {:induction false} ChunkOf(cs: seq<Chunk>, pfns: seq<nat>, i: nat, n: nat) returns (k: nat)
    requires ChunksOk(cs, pfns) && 0 < n <= |cs| && i < EndOf(cs[n - 1])
    ensures k < n && cs[k].index <= i < EndOf(cs[k])
    decreases n
  {
    if cs[n - 1].index <= i {
      k := n - 1;
    } else {
      assert n > 1;
      assert cs[n - 1].index == EndOf(cs[n - 2]);
      k := ChunkOf(cs, pfns, i, n - 1);
    }
  }

  /** The index of a page is its position in address order; it is defined for exactly the pages there are. */
  lemma MapIndexIff(cs: seq<Chunk>, pfns: seq<nat>, a: nat)
    requires ChunksOk(cs, pfns) && Ascending(pfns)
    ensures MapIndex(cs, a).Some? <==> a in pfns
    ensures MapIndex(cs, a).Some? ==> MapIndex(cs, a).value < |pfns| && pfns[MapIndex(cs, a).value] == a
  {
    var f := FindChunk(cs, a, 0);
    if f.Some? {
      var c := cs[f.value];
      assert ChunkOk(c, pfns);
      assert pfns[c.index + (a - c.base)] == a;
    } else if a in pfns {
      var i :| 0 <= i < |pfns| && pfns[i] == a;
      var k := ChunkOf(cs, pfns, i, |cs|);
    }
  }

  /* ---------------- The objects ---------------- */

  const MAX_CHUNKS: nat := 16

  /** How many regions do not begin where the one before ends. */
  function Gaps(rs: seq<HwRegion>): (n: nat) {
    if |rs| < 2 then 0
    else Gaps(rs[..|rs| - 1]) + if rs[|rs| - 2].base + rs[|rs| - 2].count != rs[|rs| - 1].base then 1 else 0
  }

  lemma GapsNext(rs: seq<HwRegion>, i: nat)
    requires i < |rs|
    ensures Gaps(rs[..i + 1]) ==
            Gaps(rs[..i]) + if i > 0 && rs[i - 1].base + rs[i - 1].count != rs[i].base then 1 else 0
  {
    if i > 0 { assert rs[..i + 1][..i] == rs[..i]; }
  }

  lemma {:induction false} GapsGrow(rs: seq<HwRegion>, i: nat)
    requires i <= |rs|
    ensures Gaps(rs[..i]) <= Gaps(rs)
    decreases |rs| - i
  {
    if i == |rs| {
      assert rs[..i] == rs;
    } else {
      GapsNext(rs, i);
      GapsGrow(rs, i + 1);
    }
  }

  /** The chunks that the regions form: a region that begins where the chunk before ends goes on with it. */
  function ChunksOf(rs: seq<HwRegion>): (cs: seq<Chunk>)
    requires rs != []
    ensures |cs| == Gaps(rs) + 1
    ensures var c, r := cs[|cs| - 1], rs[|rs| - 1]; c.base + c.count == r.base + r.count
  {
    var r := rs[|rs| - 1];
    if |rs| == 1 then [Chunk(r.base, r.count, 0)]
    else
      var cs := ChunksOf(rs[..|rs| - 1]);
      var c := cs[|cs| - 1];
      if c.base + c.count == r.base then cs[|cs| - 1 := c.(count := c.count + r.count)]
      else cs + [Chunk(r.base, r.count, EndOf(c))]
  }

  lemma ChunkLonger(c: Chunk, pfns: seq<nat>, more: seq<nat>)
    requires ChunkOk(c, pfns)
    ensures ChunkOk(c, pfns + more)
  {
  }

  lemma GoesOn(cs: seq<Chunk>, pfns: seq<nat>, r: HwRegion)
    requires ChunksOk(cs, pfns) && cs != [] && cs[|cs| - 1].base + cs[|cs| - 1].count == r.base
    ensures ChunksOk(cs[|cs| - 1 := cs[|cs| - 1].(count := cs[|cs| - 1].count + r.count)], pfns + RegionPfns(r))
  {
    var c := cs[|cs| - 1];
    var ds, more := cs[|cs| - 1 := c.(count := c.count + r.count)], pfns + RegionPfns(r);
    assert ChunkOk(c, pfns);
    forall k | 0 <= k < |ds| ensures ChunkOk(ds[k], more) {
      if k < |ds| - 1 { ChunkLonger(cs[k], pfns, RegionPfns(r)); }
    }
    forall k | 0 < k < |ds| ensures ds[k].index == EndOf(ds[k - 1]) && ds[k - 1].base + ds[k - 1].count < ds[k].base {
      assert cs[k].index == EndOf(cs[k - 1]) && cs[k - 1].base + cs[k - 1].count < cs[k].base;
    }
  }

  lemma StartsAnew(cs: seq<Chunk>, pfns: seq<nat>, r: HwRegion)
    requires ChunksOk(cs, pfns) && cs != [] && cs[|cs| - 1].base + cs[|cs| - 1].count < r.base
    ensures ChunksOk(cs + [Chunk(r.base, r.count, EndOf(cs[|cs| - 1]))], pfns + RegionPfns(r))
  {
    var ds, more := cs + [Chunk(r.base, r.count, EndOf(cs[|cs| - 1]))], pfns + RegionPfns(r);
    forall k | 0 <= k < |ds| ensures ChunkOk(ds[k], more) {
      if k < |cs| { ChunkLonger(cs[k], pfns, RegionPfns(r)); }
    }
  }

  /** They hold the records of the regions. */
  lemma {:induction false} ChunksMean(rs: seq<HwRegion>)
    requires InOrder(rs) && rs != []
    ensures ChunksOk(ChunksOf(rs), Pfns(rs))
  {
    hide ChunksOk, Pfns, Infos;
    var n, r := |rs| - 1, rs[|rs| - 1];
    assert rs == rs[..n] + [r];
    PfnsAppend(rs[..n], r);
    if n == 0 {
      OneChunk(r);
      assert rs[..n] == [];
    } else {
      ChunksMean(rs[..n]);
      var cs := ChunksOf(rs[..n]);
      assert rs[n - 1].base + rs[n - 1].count <= r.base;
      if cs[|cs| - 1].base + cs[|cs| - 1].count == r.base {
        GoesOn(cs, Pfns(rs[..n]), r);
      } else {
        StartsAnew(cs, Pfns(rs[..n]), r);
      }
    }
  }

  lemma OneChunk(r: HwRegion)
    ensures ChunksOk([Chunk(r.base, r.count, 0)], Pfns([]) + RegionPfns(r))
  {
  }

  lemma NoInfos(rs: seq<HwRegion>)
    ensures Infos(rs[..0]) == []
  {
  }

  /** One more region. */
  lemma NextChunks(rs: seq<HwRegion>, i: nat)
    requires i < |rs|
    ensures |ChunksOf(rs[..i + 1])| == Gaps(rs[..i + 1]) + 1
    ensures ChunksOf(rs[..i + 1]) ==
            var r := rs[i];
            if i == 0 then [Chunk(r.base, r.count, 0)]
            else
              var cs := ChunksOf(rs[..i]);
              var c := cs[|cs| - 1];
              if c.base + c.count == r.base then cs[|cs| - 1 := c.(count := c.count + r.count)]
              else cs + [Chunk(r.base, r.count, EndOf(c))]
  {
    assert rs[..i + 1][..i] == rs[..i] && rs[..i + 1][i] == rs[i];
  }

  class PageMap {
    var infos: seq<Info>
    var chunks: seq<Chunk>
    /** The pages that have a record, in the order of the records. */
    ghost var pfns: seq<nat>

    ghost predicate Valid()
      reads this
    {
      ChunksOk(chunks, pfns) && Ascending(pfns) && |infos| == |pfns|
    }

    constructor (infos: seq<Info>, chunks: seq<Chunk>, ghost pfns: seq<nat>)
      ensures this.infos == infos && this.chunks == chunks && this.pfns == pfns
    {
      this.infos, this.chunks, this.pfns := infos, chunks, pfns;
    }

    /** populate_from: none if it panics. That is exactly if the memory map has no region, or its regions form more
        contiguous runs than there is room for. */
    static method Populate(regions: seq<HwRegion>) returns (r: Option<PageMap>)
      requires InOrder(regions)
      ensures r.None? <==> regions == [] || Gaps(regions) + 1 > MAX_CHUNKS
      ensures r.Some? ==> fresh(r.value) && r.value.Valid() && r.value.chunks == ChunksOf(regions)
      ensures r.Some? ==> r.value.pfns == Pfns(regions) && r.value.infos == Infos(regions)
    {
      hide ChunksOk, Ascending, Pfns, Infos, Covered, InRegion, Gaps, InOrder, ChunksOf;
      if regions == [] { return None; }
      var cs: seq<Chunk>, c, all: seq<Info> := [], Chunk(regions[0].base, 0, 0), [];
      NoInfos(regions);
      for i := 0 to |regions|
        invariant if i == 0 then cs == [] && c == Chunk(regions[0].base, 0, 0) else cs + [c] == ChunksOf(regions[..i])
        invariant all == Infos(regions[..i]) && |cs| <= MAX_CHUNKS
      {
        var r := regions[i];
        NextChunks(regions, i);
        if c.base + c.count != r.base {
          if |cs| == MAX_CHUNKS {
            GapsGrow(regions, i + 1);
            return None;
          }
          cs, c := cs + [c], Chunk(r.base, 0, c.index + c.count);
        }
        ghost var c0, all0 := c, all;
        for j := 0 to r.count
          invariant c == c0.(count := c0.count + j) && all == all0 + RegionInfos(r)[..j]
        {
          all := all + [Initial(r.kind)];
          c := c.(count := c.count + 1);
          assert RegionInfos(r)[..j + 1] == RegionInfos(r)[..j] + [Initial(r.kind)];
        }
        assert RegionInfos(r)[..r.count] == RegionInfos(r);
        PfnsAppend(regions[..i], r);
        assert regions[..i + 1] == regions[..i] + [r];
        assert cs + [c] == ChunksOf(regions[..i + 1]);
      }
      assert regions[..|regions|] == regions;
      if |cs| == MAX_CHUNKS { return None; }
      ChunksMean(regions);
      PfnsMean(regions);
      var m := new PageMap(all, cs + [c], Pfns(regions));
      return Some(m);
    }

    method GetMapIndex(a: nat) returns (r: Option<nat>)
      requires Valid()
      ensures r == MapIndex(chunks, a)
      ensures r.Some? <==> a in pfns
      ensures r.Some? ==> r.value < |pfns| && pfns[r.value] == a
    {
      MapIndexIff(chunks, pfns, a);
      var k := 0;
      while k < |chunks|
        invariant k <= |chunks| && FindChunk(chunks, a, 0) == FindChunk(chunks, a, k)
      {
        if chunks[k].base <= a < chunks[k].base + chunks[k].count {
          return Some(chunks[k].index + a - chunks[k].base);
        }
        k := k + 1;
      }
      return None;
    }

    method Get(a: nat) returns (r: Option<Info>)
      requires Valid()
      ensures r.Some? <==> a in pfns
      ensures forall i | 0 <= i < |pfns| && pfns[i] == a :: r == Some(infos[i])
    {
      var i := GetMapIndex(a);
      if i.None? { return None; }
      return Some(infos[i.value]);
    }
  }

  /* ---------------- The iterator ---------------- */

  /** No chunk is empty. */
  predicate Steady(cs: seq<Chunk>) {
    forall k | 0 <= k < |cs| :: cs[k].count > 0
  }

  /** What a call of the iterator can end in. */
  datatype Next = Page(addr: nat, info: Info) | Done | Panicked

  /** Each chunk's records follow those of the one before. */
  predicate Lined(cs: seq<Chunk>) {
    forall k | 0 < k < |cs| :: cs[k].index == EndOf(cs[k - 1])
  }

  /** The iterator at chunk `k` has not got before its records. */
  predicate Within(cs: seq<Chunk>, k: nat, i: nat) {
    k < |cs| ==> cs[k].index <= i
  }

  /** All that the iterator returns from chunk `k` and record `i` on; none if it panics on the way. */
  function Walk(cs: seq<Chunk>, infos: seq<Info>, k: nat, i: nat): (r: Option<seq<(nat, Info)>>)
    requires Lined(cs) && Within(cs, k, i)
    decreases if i < |infos| then |infos| - i else 0
  {
    if k >= |cs| then Some([])
    else if i >= |infos| then None
    else
      var next := if i + 1 >= EndOf(cs[k]) then k + 1 else k;
      Before((cs[k].base + (i - cs[k].index), infos[i]), Walk(cs, infos, next, i + 1))
  }

  function Before<T>(x: T, rest: Option<seq<T>>): (r: Option<seq<T>>) {
    match rest case None => None case Some(xs) => Some([x] + xs)
  }

  /** The pages with their records. */
  function Pairs(pfns: seq<nat>, infos: seq<Info>, i: nat): (r: seq<(nat, Info)>)
    requires |infos| == |pfns| && i <= |pfns|
  {
    seq(|pfns| - i, j requires 0 <= j < |pfns| - i => (pfns[i + j], infos[i + j]))
  }

  lemma PairsNext(pfns: seq<nat>, infos: seq<Info>, i: nat)
    requires |infos| == |pfns| && i < |pfns|
    ensures Pairs(pfns, infos, i) == [(pfns[i], infos[i])] + Pairs(pfns, infos, i + 1)
  {
  }

  lemma {:induction false} BasesUp(cs: seq<Chunk>, pfns: seq<nat>, k: nat, l: nat)
    requires ChunksOk(cs, pfns) && k < l < |cs|
    ensures cs[k].base + cs[k].count < cs[l].base
    decreases l
  {
    assert cs[l - 1].base + cs[l - 1].count < cs[l].base;
    if k < l - 1 { BasesUp(cs, pfns, k, l - 1); }
  }

  /** What comes next after an empty chunk is not at its address. */
  lemma EmptyMisleads(cs: seq<Chunk>, pfns: seq<nat>, k: nat)
    requires ChunksOk(cs, pfns) && k < |cs| && cs[k].count == 0 && cs[k].index < |pfns|
    ensures pfns[cs[k].index] != cs[k].base
  {
    var m := ChunkOf(cs, pfns, cs[k].index, |cs|);
    assert ChunkOk(cs[m], pfns);
    if m < k {
      IndexUp(cs, pfns, m, k);
    } else {
      BasesUp(cs, pfns, k, m);
    }
  }

  lemma {:induction false} IndexUp(cs: seq<Chunk>, pfns: seq<nat>, k: nat, l: nat)
    requires ChunksOk(cs, pfns) && k < l < |cs|
    ensures EndOf(cs[k]) <= cs[l].index
    decreases l
  {
    assert cs[l].index == EndOf(cs[l - 1]);
    if k < l - 1 { IndexUp(cs, pfns, k, l - 1); }
  }

  predicate NoneEmptyAfter(cs: seq<Chunk>, k: nat) {
    forall l | k < l < |cs| :: cs[l].count > 0
  }

  /** From a record of chunk `k` on, the iterator returns exactly the pages and records that follow, if and only if no
      later chunk is empty. */
  lemma {:induction false} WalkIff(cs: seq<Chunk>, pfns: seq<nat>, infos: seq<Info>, k: nat, i: nat)
    requires ChunksOk(cs, pfns) && |infos| == |pfns| && k < |cs| && cs[k].index <= i < EndOf(cs[k]) && i < |pfns|
    ensures Lined(cs) && Within(cs, k, i)
    ensures Walk(cs, infos, k, i) == Some(Pairs(pfns, infos, i)) <==> NoneEmptyAfter(cs, k)
    decreases |pfns| - i, 0
  {
    hide Pairs;
    assert ChunkOk(cs[k], pfns);
    PairsNext(pfns, infos, i);
    if i + 1 < EndOf(cs[k]) {
      WalkIff(cs, pfns, infos, k, i + 1);
      AgreesOn(pfns, infos, i, Walk(cs, infos, k, i + 1));
    } else {
      NextChunkIff(cs, pfns, infos, k);
      AgreesOn(pfns, infos, i, Walk(cs, infos, k + 1, i + 1));
    }
  }

  lemma AgreesOn(pfns: seq<nat>, infos: seq<Info>, i: nat, rest: Option<seq<(nat, Info)>>)
    requires |infos| == |pfns| && i < |pfns|
    ensures Before((pfns[i], infos[i]), rest) == Some(Pairs(pfns, infos, i)) <==>
            rest == Some(Pairs(pfns, infos, i + 1))
  {
    PairsNext(pfns, infos, i);
    if rest.Some? {
      var x, all := (pfns[i], infos[i]), Pairs(pfns, infos, i);
      assert ([x] + rest.value)[1..] == rest.value && all[1..] == Pairs(pfns, infos, i + 1);
    }
  }

  /** The same from the end of chunk `k` on. */
  lemma {:induction false} NextChunkIff(cs: seq<Chunk>, pfns: seq<nat>, infos: seq<Info>, k: nat)
    requires ChunksOk(cs, pfns) && |infos| == |pfns| && k < |cs| && cs[k].count > 0
    ensures Lined(cs) && Within(cs, k + 1, EndOf(cs[k])) && EndOf(cs[k]) <= |pfns|
    ensures Walk(cs, infos, k + 1, EndOf(cs[k])) == Some(Pairs(pfns, infos, EndOf(cs[k]))) <==> NoneEmptyAfter(cs, k)
    decreases |pfns| - EndOf(cs[k]), 1
  {
    var i := EndOf(cs[k]);
    assert ChunkOk(cs[k], pfns);
    if k + 1 < |cs| {
      assert cs[k + 1].index == i && ChunkOk(cs[k + 1], pfns);
      if cs[k + 1].count > 0 {
        WalkIff(cs, pfns, infos, k + 1, i);
      } else if i < |pfns| {
        EmptyMisleads(cs, pfns, k + 1);
        PairsNext(pfns, infos, i);
        var w := Walk(cs, infos, k + 1, i);
        assert w.Some? ==> w.value[0] == (cs[k + 1].base, infos[i]);
      }
    } else {
      assert Pairs(pfns, infos, i) == [];
    }
  }

  /** An iterator over the records from a page on, across chunks. */
  class PageMapIter {
    const map_: PageMap
    var chunk: nat
    var index: nat

    ghost predicate Valid()
      reads this, map_
    {
      map_.Valid() && Within(map_.chunks, chunk, index)
    }

    /** The record that comes next belongs to the chunk, or there is none. */
    ghost predicate OnTrack()
      reads this, map_
    {
      if index < |map_.pfns|
      then chunk < |map_.chunks| && map_.chunks[chunk].index <= index < EndOf(map_.chunks[chunk])
      else index == |map_.pfns| && chunk == |map_.chunks|
    }

    /** All that is still to come. */
    ghost function Rest(): (r: Option<seq<(nat, Info)>>)
      requires Valid()
      reads this, map_
    {
      Walk(map_.chunks, map_.infos, chunk, index)
    }

    constructor (m: PageMap, k: nat, i: nat)
      requires m.Valid() && i < |m.pfns| && k < |m.chunks| && m.chunks[k].index <= i < EndOf(m.chunks[k])
      ensures Valid() && OnTrack() && map_ == m && chunk == k && index == i
    {
      map_, chunk, index := m, k, i;
    }

    /** One call after the other returns what the walk does, and panics where it does. In a map without empty chunks
        that is every page from the start on, once, in address order. */
    method NextPage() returns (r: Next)
      requires Valid()
      modifies this
      ensures Valid()
      ensures match r
              case Done => old(Rest()) == Some([])
              case Panicked => old(Rest()) == None
              case Page(a, info) => old(Rest()) == Before((a, info), Rest())
      ensures Steady(map_.chunks) && old(OnTrack()) ==>
                && OnTrack()
                && (if old(index) < |map_.pfns|
                    then r == Page(map_.pfns[old(index)], map_.infos[old(index)]) && index == old(index) + 1
                    else r == Done && index == old(index))
    {
      if chunk >= |map_.chunks| { return Done; }
      if index >= |map_.infos| { return Panicked; }
      var c := map_.chunks[chunk];
      assert ChunkOk(c, map_.pfns);
      var info := map_.infos[index];
      var a := c.base + index - c.index;
      index := index + 1;
      if index >= c.count + c.index {
        chunk := chunk + 1;
        assert chunk < |map_.chunks| ==> map_.chunks[chunk].index == EndOf(map_.chunks[chunk - 1])
                                         && ChunkOk(map_.chunks[chunk], map_.pfns);
      }
      return Page(a, info);
    }
  }

  /** An iterator that starts at page `a`, if there is such a page. */
  method IterFrom(m: PageMap, a: nat) returns (r: Option<PageMapIter>)
    requires m.Valid()
    ensures r.Some? <==> a in m.pfns
    ensures r.Some? ==> fresh(r.value) && r.value.Valid() && r.value.OnTrack() && r.value.map_ == m
    ensures r.Some? ==> r.value.index < |m.pfns| && m.pfns[r.value.index] == a
    ensures r.Some? ==> FindChunk(m.chunks, a, 0) == Some(r.value.chunk)
  {
    MapIndexIff(m.chunks, m.pfns, a);
    var k := 0;
    while k < |m.chunks|
      invariant k <= |m.chunks| && FindChunk(m.chunks, a, 0) == FindChunk(m.chunks, a, k)
    {
      var c := m.chunks[k];
      if c.base <= a < c.base + c.count {
        assert ChunkOk(c, m.pfns);
        var it := new PageMapIter(m, k, c.index + a - c.base);
        return Some(it);
      }
      k := k + 1;
    }
    return None;
  }

  /* ---------------- Empty regions ---------------- */

  /** An empty region at page `b`, with no memory there and none right before it. */
  predicate Isolated(rs: seq<HwRegion>, b: nat) {
    && (exists i | 0 <= i < |rs| :: rs[i].base == b && rs[i].count == 0)
    && !Covered(rs, b) && (b == 0 || !Covered(rs, b - 1))
  }

  lemma CoveredIsHeld(rs: seq<HwRegion>, a: nat)
    requires InOrder(rs) && rs != []
    ensures Covered(rs, a) <==> FindChunk(ChunksOf(rs), a, 0).Some?
  {
    hide Pfns, Infos, Covered, InOrder, ChunksOk, ChunksOf;
    ChunksMean(rs);
    PfnsMean(rs);
    MapIndexIff(ChunksOf(rs), Pfns(rs), a);
  }

  /** A chunk begins where a region does. */
  lemma {:induction false} ChunkBase(rs: seq<HwRegion>, k: nat) returns (i: nat)
    requires rs != [] && k < |ChunksOf(rs)|
    ensures i < |rs| && rs[i].base == ChunksOf(rs)[k].base
  {
    var n := |rs| - 1;
    if n == 0 {
      i := 0;
    } else if k < |ChunksOf(rs[..n])| {
      i := ChunkBase(rs[..n], k);
    } else {
      i := n;
    }
  }

  /** A region lies in a chunk, also if it is empty. */
  lemma {:induction false} RegionIn(rs: seq<HwRegion>, i: nat) returns (k: nat)
    requires i < |rs|
    ensures k < |ChunksOf(rs)|
    ensures var c := ChunksOf(rs)[k]; c.base <= rs[i].base && rs[i].base + rs[i].count <= c.base + c.count
  {
    var n := |rs| - 1;
    if i == n {
      k := |ChunksOf(rs)| - 1;
    } else {
      k := RegionIn(rs[..n], i);
    }
  }

  predicate EmptyAt(cs: seq<Chunk>, b: nat) {
    exists k | 0 <= k < |cs| :: cs[k].base == b && cs[k].count == 0
  }

  /** There is an empty chunk at a page exactly if an empty region is isolated there. */
  lemma EmptyChunkIff(rs: seq<HwRegion>, b: nat)
    requires InOrder(rs) && rs != []
    ensures EmptyAt(ChunksOf(rs), b) <==> Isolated(rs, b)
  {
    hide ChunksOf, InOrder, ChunksOk, Covered;
    var cs := ChunksOf(rs);
    ChunksMean(rs);
    CoveredIsHeld(rs, b);
    if b > 0 { CoveredIsHeld(rs, b - 1); }
    if k :| 0 <= k < |cs| && cs[k].base == b && cs[k].count == 0 {
      NothingNear(cs, Pfns(rs), k);
      var i := ChunkBase(rs, k);
      if rs[i].count > 0 { CoveredAt(rs, i); }
    }
    if Isolated(rs, b) {
      var i :| 0 <= i < |rs| && rs[i].base == b && rs[i].count == 0;
      var k := RegionIn(rs, i);
      assert !Holds(cs[k], b) && (b > 0 ==> !Holds(cs[k], b - 1));
      assert cs[k].base == b;
    }
  }

  lemma CoveredAt(rs: seq<HwRegion>, i: nat)
    requires i < |rs| && rs[i].count > 0
    ensures Covered(rs, rs[i].base)
  {
    assert InRegion(rs[i], rs[i].base);
  }

  lemma NothingNear(cs: seq<Chunk>, pfns: seq<nat>, k: nat)
    requires ChunksOk(cs, pfns) && k < |cs| && cs[k].count == 0
    ensures FindChunk(cs, cs[k].base, 0).None? && (cs[k].base > 0 ==> FindChunk(cs, cs[k].base - 1, 0).None?)
  {
    hide ChunksOk, FindChunk;
    forall l | 0 <= l < |cs| ensures !Holds(cs[l], cs[k].base) && (cs[k].base > 0 ==> !Holds(cs[l], cs[k].base - 1)) {
      if l < k {
        BasesUp(cs, pfns, l, k);
      } else if l > k {
        BasesUp(cs, pfns, k, l);
      }
    }
  }

  /** For every memory map in order, the iterator from a page of it returns exactly the pages of memory from there on,
      with their records, if and only if no empty region is isolated behind that page. */
  lemma IterExactIff(rs: seq<HwRegion>, a: nat)
    requires InOrder(rs) && rs != [] && Covered(rs, a)
    ensures var cs := ChunksOf(rs);
            && FindChunk(cs, a, 0).Some? && |Infos(rs)| == |Pfns(rs)|
            && var k := FindChunk(cs, a, 0).value;
               var i := cs[k].index + a - cs[k].base;
               && Lined(cs) && Within(cs, k, i) && i < |Pfns(rs)| && Pfns(rs)[i] == a
               && (Walk(cs, Infos(rs), k, i) == Some(Pairs(Pfns(rs), Infos(rs), i)) <==>
                   forall b | b > a :: !Isolated(rs, b))
  {
    hide ChunksOf, InOrder, Pfns, Infos, Walk, Pairs, Isolated, NoneEmptyAfter;
    var cs := ChunksOf(rs);
    CoveredIsHeld(rs, a);
    ChunksMean(rs);
    SameLength(rs);
    var k := FindChunk(cs, a, 0).value;
    var i := cs[k].index + a - cs[k].base;
    assert ChunkOk(cs[k], Pfns(rs));
    WalkIff(cs, Pfns(rs), Infos(rs), k, i);
    NoneBehindIff(rs, k, a);
  }

  lemma NoneBehindIff(rs: seq<HwRegion>, k: nat, a: nat)
    requires InOrder(rs) && rs != [] && k < |ChunksOf(rs)| && Holds(ChunksOf(rs)[k], a)
    ensures NoneEmptyAfter(ChunksOf(rs), k) <==> forall b | b > a :: !Isolated(rs, b)
  {
    hide ChunksOf, InOrder, ChunksOk, Isolated;
    var cs := ChunksOf(rs);
    ChunksMean(rs);
    if l :| k < l < |cs| && cs[l].count == 0 {
      BasesUp(cs, Pfns(rs), k, l);
      EmptyChunkIff(rs, cs[l].base);
      assert EmptyAt(cs, cs[l].base);
    }
    if b :| b > a && Isolated(rs, b) {
      EmptyChunkIff(rs, b);
      var l :| 0 <= l < |cs| && cs[l].base == b && cs[l].count == 0;
      if l < k { BasesUp(cs, Pfns(rs), l, k); }
    }
  }

  /** A map without isolated empty regions has no empty chunks, and begins with a page of memory. */
  lemma SteadyIff(rs: seq<HwRegion>)
    requires InOrder(rs) && rs != []
    ensures Steady(ChunksOf(rs)) <==> forall b :: !Isolated(rs, b)
    ensures Steady(ChunksOf(rs)) ==> rs[0].base in Pfns(rs)
  {
    hide ChunksOf, InOrder, ChunksOk, Isolated, Pfns, Infos, Covered;
    var cs := ChunksOf(rs);
    if k :| 0 <= k < |cs| && cs[k].count == 0 {
      EmptyChunkIff(rs, cs[k].base);
      assert EmptyAt(cs, cs[k].base);
    }
    if b :| Isolated(rs, b) { EmptyChunkIff(rs, b); }
    if Steady(cs) {
      FirstBase(rs);
      CoveredIsHeld(rs, rs[0].base);
      PfnsMean(rs);
      assert Holds(cs[0], rs[0].base);
    }
  }

  lemma {:induction false} FirstBase(rs: seq<HwRegion>)
    requires rs != []
    ensures ChunksOf(rs)[0].base == rs[0].base
  {
    if |rs| > 1 { FirstBase(rs[..|rs| - 1]); }
  }

  /** Two blocks of memory with an empty region between them: the iterator goes astray in the gap. */
  lemma EmptyRegionMisleads()
    ensures var rs := [HwRegion(0, 5, Available), HwRegion(10, 0, Available), HwRegion(20, 5, Available)];
            && InOrder(rs) && Covered(rs, 0) && Isolated(rs, 10)
            && ChunksOf(rs) == [Chunk(0, 5, 0), Chunk(10, 0, 5), Chunk(20, 5, 5)]
            && |Infos(rs)| == |Pfns(rs)| && Lined(ChunksOf(rs)) && Within(ChunksOf(rs), 0, 0)
            && Walk(ChunksOf(rs), Infos(rs), 0, 0) != Some(Pairs(Pfns(rs), Infos(rs), 0))
  {
    hide Walk, Pairs, Pfns, Infos;
    var x, y, z := HwRegion(0, 5, Available), HwRegion(10, 0, Available), HwRegion(20, 5, Available);
    var rs := [x, y, z];
    assert InRegion(rs[0], 0);
    assert rs[..2] == [x, y] && rs[..2][..1] == [x];
    assert ChunksOf([x]) == [Chunk(0, 5, 0)];
    assert ChunksOf([x, y]) == [Chunk(0, 5, 0), Chunk(10, 0, 5)];
    assert rs[1].base == 10 && rs[1].count == 0;
    IterExactIff(rs, 0);
    assert FindChunk(ChunksOf(rs), 0, 0) == Some(0);
  }
}
