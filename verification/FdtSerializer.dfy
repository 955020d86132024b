/** Writing a device tree to a buffer, and reading it back: the round trip. */
module FdtSerializer {
  import opened Basics
  import opened DeviceTrees
  import opened DeviceTreeBuild
  import opened DeviceTreeIterators
  import opened FdtFormat
  import opened FdtEmit
  import opened FdtWriters

  /** The tokens of the tree in an arena; none, if it is empty. */
  function TreeTokens(a: Arena, root: Option<nat>): (ts: seq<Token>)
    requires Closed(a) && (root.Some? ==> Live(a, root.value))
  {
    if root.None? then [] else Tokens(TreeOf(a, root.value))
  }

  /** The nodes in the order of the walk. */
  function Order(a: Arena, root: Option<nat>): (vs: seq<Visit>)
    requires Closed(a) && (root.Some? ==> Live(a, root.value))
  {
    if root.None? then [] else Preorder(a, root.value, 0)
  }

  lemma OrderEmits(a: Arena, root: Option<nat>)
    requires Closed(a) && (root.Some? ==> Live(a, root.value))
    ensures AllLive(a, Order(a, root)) && Emit(a, Order(a, root), 0) == TreeTokens(a, root)
    ensures WalkSize(a, Order(a, root)) == BlockSize(TreeTokens(a, root))
    ensures WalkNames(a, Order(a, root)) == NamesSize(TreeTokens(a, root))
  {
    if root.Some? {
      EmitIsTokens(a, root.value);
      WalkTree(a, root.value, 0);
    }
  }

  /* ---------------- Sizes ---------------- */

  lemma WalkStep(a: Arena, vs: seq<Visit>, i: nat)
    requires AllLive(a, vs) && i < |vs|
    ensures AllLive(a, vs[..i]) && AllLive(a, vs[..i + 1])
    ensures WalkSize(a, vs[..i + 1]) == WalkSize(a, vs[..i]) + BlockSize(NodeTokens(a, vs[i].id)) + 4
    ensures WalkNames(a, vs[..i + 1]) == WalkNames(a, vs[..i]) + NamesSize(NodeTokens(a, vs[i].id))
  {
    assert vs[..i + 1] == vs[..i] + [vs[i]];
    WalkParts(a, vs[..i], [vs[i]]);
    assert [vs[i]][1..] == [];
  }

  lemma PropsStep(props: seq<Prop>, j: nat)
    requires j < |props|
    ensures BlockSize(PropTokens(props[..j + 1])) == BlockSize(PropTokens(props[..j])) + 12 + Align(|props[j].value|)
    ensures NamesSize(PropTokens(props[..j + 1])) == NamesSize(PropTokens(props[..j])) + |props[j].name| + 1
  {
    assert props[..j + 1] == props[..j] + [props[j]];
    PropParts(props[..j], [props[j]]);
    assert PropTokens([props[j]]) == [Property(props[j])] by { assert [props[j]][1..] == []; }
    SizesAdd(PropTokens(props[..j]), [Property(props[j])]);
    assert [Property(props[j])][1..] == [];
  }

  lemma {:induction false} PropParts(xs: seq<Prop>, ys: seq<Prop>)
    ensures PropTokens(xs + ys) == PropTokens(xs) + PropTokens(ys)
  {
    if xs == [] {
      assert xs + ys == ys;
    } else {
      assert (xs + ys)[1..] == xs[1..] + ys;
      PropParts(xs[1..], ys);
    }
  }

  lemma NodeSizes(a: Arena, id: nat)
    requires Live(a, id)
    ensures BlockSize(NodeTokens(a, id)) == 4 + Align(|a[id].value.name| + 1) + BlockSize(PropTokens(a[id].value.props))
    ensures NamesSize(NodeTokens(a, id)) == NamesSize(PropTokens(a[id].value.props))
  {
    assert NodeTokens(a, id)[1..] == PropTokens(a[id].value.props);
  }

  /** get_layout: the sizes of the structure block and of the strings block are exactly what the tokens of
      the tree need. */
  method GetLayout(tree: DeviceTree) returns (structSize: nat, stringsSize: nat)
    requires tree.Valid()
    ensures structSize == BlockSize(TreeTokens(tree.arena, tree.root)) + 4
    ensures stringsSize == NamesSize(TreeTokens(tree.arena, tree.root))
  {
    hide BlockSize, NamesSize, NodeTokens, PropTokens, WalkSize, WalkNames, Preorder, Closed;
    ghost var a, vs := tree.arena, Order(tree.arena, tree.root);
    OrderEmits(a, tree.root);
    structSize, stringsSize := 0, 0;
    var iter := new DeviceTreeIter(tree, tree.root);
    NoWalk(a, vs);
    var id := iter.NextNode();
    ghost var i := 0;
    while id.Some?
      invariant fresh(iter) && iter.Valid() && iter.tree == tree && iter.root == tree.root
      invariant AllLive(a, vs) && i <= |vs| && AllLive(a, vs[..i])
      invariant if id.Some? then i < |vs| && iter.done == i + 1 && id.value == vs[i].id else i == |vs|
      invariant structSize == WalkSize(a, vs[..i]) && stringsSize == WalkNames(a, vs[..i])
      decreases |vs| - i
    {
      var node := tree.arena[id.value].value;
      var s, n := 4 + Align(|node.name| + 1) + 4, 0;
      EmptyProps(node.props);
      for j := 0 to |node.props|
        modifies {}
        invariant s == 4 + Align(|node.name| + 1) + 4 + BlockSize(PropTokens(node.props[..j]))
        invariant n == NamesSize(PropTokens(node.props[..j]))
      {
        PropsStep(node.props, j);
        n := n + |node.props[j].name| + 1;
        s := s + 12 + Align(|node.props[j].value|);
      }
      assert node.props[..|node.props|] == node.props;
      NodeSizes(a, id.value);
      WalkStep(a, vs, i);
      structSize, stringsSize := structSize + s, stringsSize + n;
      id := iter.NextNode();
      i := i + 1;
    }
    assert vs[..|vs|] == vs;
    structSize := structSize + 4;
  }

  lemma NoWalk(a: Arena, vs: seq<Visit>)
    ensures AllLive(a, vs[..0]) && WalkSize(a, vs[..0]) == 0 && WalkNames(a, vs[..0]) == 0
  {
  }

  lemma EmptyProps(props: seq<Prop>)
    ensures BlockSize(PropTokens(props[..0])) == 0 && NamesSize(PropTokens(props[..0])) == 0
  {
  }

  /* ---------------- Reading a blob ---------------- */

  /** The header, after section 5.2 of the Devicetree Specification. */
  datatype FdtHeader = FdtHeader(totalSize: nat, offStruct: nat, offStrings: nat, offReserved: nat, version: nat,
                                 lastCompatible: nat, bootCpu: nat, sizeStrings: nat, sizeStruct: nat)

  function ReadHeader(b: seq<byte>): (r: Option<FdtHeader>) {
    if |b| < 40 || FromBe32(b) != 0xd00d_feed then None
    else Some(FdtHeader(FromBe32(b[4..]), FromBe32(b[8..]), FromBe32(b[12..]), FromBe32(b[16..]), FromBe32(b[20..]),
                        FromBe32(b[24..]), FromBe32(b[28..]), FromBe32(b[32..]), FromBe32(b[36..])))
  }

  /** The memory reservation block, after section 5.3: pairs of address and size, ended by a pair of zeros. */
  function Reservations(b: seq<byte>): (r: Option<seq<(nat, nat)>>) {
    if |b| < 16 then None
    else
      var address, size := FromBe64(b), FromBe64(b[8..]);
      if address == 0 && size == 0 then Some([])
      else match Reservations(b[16..]) case None => None case Some(rest) => Some([(address, size)] + rest)
  }

  function FromBe64(b: seq<byte>): (v: nat)
    requires |b| >= 8
  {
    FromBe32(b) * 0x1_0000_0000 + FromBe32(b[4..])
  }

  /** Finds the structure and strings blocks by the header and decodes them. */
  function ParseBlob(b: seq<byte>): (r: Option<seq<Token>>) {
    match ReadHeader(b)
    case None => None
    case Some(hd) =>
      if hd.version < 17 || hd.offStruct + hd.sizeStruct > |b| || hd.offStrings + hd.sizeStrings > |b| then None
      else ParseBlock(b[hd.offStruct..hd.offStruct + hd.sizeStruct], b[hd.offStrings..hd.offStrings + hd.sizeStrings])
  }

  /** The blob is laid out as section 5 asks for: the reservation block, which is empty, the structure block and the
      strings block follow one another, each where its data may lie, and all within the size that the header gives.
      */
  predicate LaidOut(b: seq<byte>, size: nat, structSize: nat, stringsSize: nat) {
    match ReadHeader(b)
    case None => false
    case Some(hd) =>
      && hd.totalSize == size <= |b| && hd.version == 17 && hd.lastCompatible == 16 && hd.bootCpu == 0
      && hd.sizeStruct == structSize && hd.sizeStrings == stringsSize
      && 40 <= hd.offReserved <= hd.offStruct <= |b| && hd.offReserved % 8 == 0 && hd.offStruct % 4 == 0
      && Reservations(b[hd.offReserved..hd.offStruct]) == Some([])
      && hd.offStruct + structSize == hd.offStrings
      && hd.offStrings + stringsSize <= size < hd.offStrings + stringsSize + 4 && size % 4 == 0
  }

  function Header(total: nat, structOff: nat, structSize: nat, stringsSize: nat): (ws: seq<nat>) {
    [FDT_MAGIC, total, structOff, structOff + structSize, HEADER_SIZE, FDT_VERSION, FDT_LAST_COMP_VERSION, 0,
     stringsSize, structSize]
  }

  predicate Fits(ws: seq<nat>) {
    forall i | 0 <= i < |ws| :: ws[i] < U32_LIMIT
  }

  ghost predicate HasHeader(b: seq<byte>, ws: seq<nat>)
    requires Fits(ws)
  {
    4 * |ws| <= |b| && forall i | 0 <= i < |ws| :: b[4 * i..4 * i + 4] == Be32(ws[i])
  }

  lemma HeaderReads(b: seq<byte>, ws: seq<nat>, i: nat)
    requires Fits(ws) && HasHeader(b, ws) && i < |ws|
    ensures FromBe32(b[4 * i..]) == ws[i]
  {
    assert b[4 * i..][..4] == b[4 * i..4 * i + 4];
    ReadU32(b[4 * i..], ws[i]);
  }

  /** The header that is written is the one that is read. */
  lemma HeaderMeans(b: seq<byte>, total: nat, structOff: nat, structSize: nat, stringsSize: nat)
    requires Fits(Header(total, structOff, structSize, stringsSize))
    requires HasHeader(b, Header(total, structOff, structSize, stringsSize))
    ensures ReadHeader(b) == Some(FdtHeader(total, structOff, structOff + structSize, 40, 17, 16, 0, stringsSize,
                                            structSize))
  {
    hide FromBe32;
    var ws := Header(total, structOff, structSize, stringsSize);
    HeaderReads(b, ws, 0);
    assert b[0..] == b;
    HeaderReads(b, ws, 1);
    HeaderReads(b, ws, 2);
    HeaderReads(b, ws, 3);
    HeaderReads(b, ws, 4);
    HeaderReads(b, ws, 5);
    HeaderReads(b, ws, 6);
    HeaderReads(b, ws, 7);
    HeaderReads(b, ws, 8);
    HeaderReads(b, ws, 9);
  }

  lemma ZerosEnd(b: seq<byte>)
    requires |b| >= 16 && forall i | 0 <= i < 16 :: b[i] == 0
    ensures Reservations(b) == Some([])
  {
  }

  lemma LaysOut(b: seq<byte>, total: nat, structSize: nat, stringsSize: nat)
    requires total == Align(56 + structSize + stringsSize) <= |b| && total < U32_LIMIT
    requires HasHeader(b, Header(total, 56, structSize, stringsSize)) && forall i | 40 <= i < 56 :: b[i] == 0
    ensures LaidOut(b, total, structSize, stringsSize)
  {
    hide HasHeader, ReadHeader, Reservations;
    HeaderMeans(b, total, 56, structSize, stringsSize);
    ZerosEnd(b[40..56]);
  }

  /** A blob with a proper header, in which everything has been written, decodes to the tokens written. */
  lemma BlobDecodes(b: seq<byte>, total: nat, from: nat, to: nat, stringsEnd: nat, raws: seq<Raw>, tokens: seq<Token>)
    requires HEADER_SIZE <= from <= to && to + 4 <= stringsEnd <= |b| && stringsEnd < U32_LIMIT && total < U32_LIMIT
    requires var ws := Header(total, from, to + 4 - from, stringsEnd - (to + 4)); HasHeader(b, ws)
    requires IsBlock(b[from..to], raws) && b[to..to + 4] == Be32(FDT_END)
    requires AllMean(b[to + 4..stringsEnd], raws, tokens)
    ensures ParseBlob(b) == Some(tokens)
  {
    hide Be32, IsBlock, AllMean, ParseBlock, HasHeader, ReadHeader;
    HeaderMeans(b, total, from, to + 4 - from, stringsEnd - (to + 4));
    ParseInverts(b[from..to], raws, b[to + 4..stringsEnd], tokens, []);
    assert b[from..to + 4] == b[from..to] + Be32(FDT_END) + [];
  }

  /* ---------------- Writing ---------------- */

  method PushHeader(buf: array<byte>, ws: seq<nat>)
    requires Fits(ws) && 4 * |ws| <= buf.Length
    modifies buf
    ensures HasHeader(buf[..], ws)
    ensures buf[4 * |ws|..] == old(buf[4 * |ws|..])
  {
    hide Be32, Overwrite;
    ghost var b := buf[..];
    for i := 0 to |ws|
      invariant forall j | 0 <= j < i :: buf[..][4 * j..4 * j + 4] == Be32(ws[j])
      invariant buf[4 * |ws|..] == b[4 * |ws|..]
    {
      ghost var before := buf[..];
      Copy(buf, 4 * i, Be32(ws[i]));
      HeaderStep(before, 4 * i, Be32(ws[i]), 4 * |ws|);
      forall j | 0 <= j < i ensures buf[..][4 * j..4 * j + 4] == before[4 * j..4 * j + 4] {
        assert buf[..][..4 * i][4 * j..4 * j + 4] == buf[..][4 * j..4 * j + 4];
        assert before[..4 * i][4 * j..4 * j + 4] == before[4 * j..4 * j + 4];
      }
    }
  }

  lemma HeaderStep(b: seq<byte>, pos: nat, data: seq<byte>, end: nat)
    requires |data| == 4 && pos + 4 <= end <= |b|
    ensures var c := Overwrite(b, pos, data);
            c[..pos] == b[..pos] && c[pos..pos + 4] == data && c[end..] == b[end..]
  {
  }

  method PushProps(w: FdtWriter, props: seq<Prop>, ghost rest: seq<Token>)
    requires w.Valid() && w.todo == PropTokens(props) + rest
    modifies w, w.buf
    ensures w.Valid() && w.todo == rest && w.tokens == old(w.tokens) + PropTokens(props)
    ensures w.buf[..w.structFrom] == old(w.buf[..w.structFrom])
  {
    hide Written, BlockSize, NamesSize;
    ghost var start := w.tokens;
    assert PropTokens(props[..0]) == [] && props[0..] == props;
    for j := 0 to |props|
      invariant w.Valid() && w.todo == PropTokens(props[j..]) + rest
      invariant w.tokens == start + PropTokens(props[..j])
      invariant w.buf[..w.structFrom] == old(w.buf[..w.structFrom])
    {
      assert props[j..][0] == props[j] && props[j..][1..] == props[j + 1..];
      assert w.todo[0] == Property(props[j]) && w.todo[1..] == PropTokens(props[j + 1..]) + rest;
      w.PushProp(props[j]);
      PropsUpTo(props, j);
    }
    assert props[|props|..] == [] && props[..|props|] == props;
    assert [] + rest == rest;
  }

  method PushNode(w: FdtWriter, tree: DeviceTree, id: nat, ghost rest: seq<Token>)
    requires w.Valid() && tree.Valid() && Live(tree.arena, id) && w.todo == NodeTokens(tree.arena, id) + rest
    modifies w, w.buf
    ensures w.Valid() && w.todo == rest && w.tokens == old(w.tokens) + NodeTokens(tree.arena, id)
    ensures w.buf[..w.structFrom] == old(w.buf[..w.structFrom])
  {
    hide Closed, Written, BlockSize, NamesSize, PropTokens;
    var node := tree.arena[id].value;
    ghost var start := w.tokens;
    assert w.todo[0] == Begin(node.name) && w.todo[1..] == PropTokens(node.props) + rest;
    w.PushBegin(node.name);
    PushProps(w, node.props, rest);
    assert start + [Begin(node.name)] + PropTokens(node.props) == start + NodeTokens(tree.arena, id);
  }

  lemma PropsUpTo(props: seq<Prop>, j: nat)
    requires j < |props|
    ensures PropTokens(props[..j + 1]) == PropTokens(props[..j]) + [Property(props[j])]
  {
    assert props[..j + 1] == props[..j] + [props[j]];
    PropParts(props[..j], [props[j]]);
    assert PropTokens([props[j]]) == [Property(props[j])] by { assert [props[j]][1..] == []; }
  }

  method PushEnds(w: FdtWriter, k: nat, ghost rest: seq<Token>)
    requires w.Valid() && w.todo == Ends(k) + rest
    modifies w, w.buf
    ensures w.Valid() && w.todo == rest && w.tokens == old(w.tokens) + Ends(k)
    ensures w.buf[..w.structFrom] == old(w.buf[..w.structFrom])
  {
    hide Written, BlockSize, NamesSize;
    ghost var start := w.tokens;
    for j := 0 to k
      invariant w.Valid() && w.todo == Ends(k - j) + rest && w.tokens == start + Ends(j)
      invariant w.buf[..w.structFrom] == old(w.buf[..w.structFrom])
    {
      assert w.todo[0] == End && w.todo[1..] == Ends(k - j - 1) + rest;
      w.PushEnd();
      assert start + Ends(j) + [End] == start + Ends(j + 1);
    }
    assert Ends(0) + rest == rest;
  }

  /** The tokens from visit `i` on. */
  lemma EmitNext(a: Arena, vs: seq<Visit>, i: nat)
    requires AllLive(a, vs) && i < |vs|
    ensures AllLive(a, vs[i..]) && AllLive(a, vs[i + 1..])
    ensures var next := if i + 1 < |vs| then vs[i + 1].depth else 0;
            Emit(a, vs[i..], 0) ==
              NodeTokens(a, vs[i].id) + (Ends(Closing(vs[i].depth, next)) + Emit(a, vs[i + 1..], 0))
  {
    assert vs[i..][1..] == vs[i + 1..];
  }

  /** A node, and the ends of the nodes that the walk leaves behind it. */
  method PushVisit(w: FdtWriter, tree: DeviceTree, id: nat, k: nat, ghost rest: seq<Token>)
    requires w.Valid() && tree.Valid() && Live(tree.arena, id)
             && w.todo == NodeTokens(tree.arena, id) + (Ends(k) + rest)
    modifies w, w.buf
    ensures w.Valid() && w.todo == rest && w.tokens + w.todo == old(w.tokens + w.todo)
    ensures w.buf[..w.structFrom] == old(w.buf[..w.structFrom])
  {
    hide Closed, Written, BlockSize, NamesSize, NodeTokens, Ends;
    ghost var start := w.tokens;
    PushNode(w, tree, id, Ends(k) + rest);
    PushEnds(w, k, rest);
    assert start + NodeTokens(tree.arena, id) + Ends(k) + rest == start
           + (NodeTokens(tree.arena, id) + (Ends(k) + rest));
  }

  /** Writes the nodes of the tree, in the order of the walk, closing nodes as the depth goes down. */
  method PushTree(w: FdtWriter, tree: DeviceTree)
    requires w.Valid() && tree.Valid() && w.todo == TreeTokens(tree.arena, tree.root) && w.tokens == []
    modifies w, w.buf
    ensures w.Valid() && w.todo == [] && w.tokens == TreeTokens(tree.arena, tree.root)
    ensures w.buf[..w.structFrom] == old(w.buf[..w.structFrom])
  {
    hide Closed, Written, BlockSize, NamesSize, NodeTokens, Emit, Ends, Preorder;
    ghost var a, vs := tree.arena, Order(tree.arena, tree.root);
    OrderEmits(a, tree.root);
    var iter := new DeviceTreeIter(tree, tree.root);
    var depth := 0;
    assert vs[0..] == vs;
    ghost var all := w.todo;
    var id := iter.NextNode();
    ghost var i := 0;
    assert [] + all == all;
    while id.Some?
      invariant fresh(iter) && iter.Valid() && iter.tree == tree && iter.root == tree.root
      invariant AllLive(a, vs) && i <= |vs| && AllLive(a, vs[i..])
      invariant if id.Some? then i < |vs| && iter.done == i + 1 && id.value == vs[i].id && depth == vs[i].depth
                else i == |vs|
      invariant w.Valid() && w.todo == Emit(a, vs[i..], 0) && w.tokens + w.todo == all
      invariant w.buf[..w.structFrom] == old(w.buf[..w.structFrom])
      decreases |vs| - i
    {
      EmitNext(a, vs, i);
      PushVisit(w, tree, id.value, if iter.depth > depth then 0 else depth - iter.depth + 1, Emit(a, vs[i + 1..], 0));
      depth := iter.depth;
      id := iter.NextNode();
      i := i + 1;
    }
    NoEmit(a, vs);
    assert w.tokens + [] == w.tokens;
  }

  lemma NoEmit(a: Arena, vs: seq<Visit>)
    ensures vs[|vs|..] == [] && AllLive(a, vs[|vs|..]) && Emit(a, vs[|vs|..], 0) == []
  {
  }

  /** The size of the blob for given tokens. */
  function OutputSize(ts: seq<Token>): (n: nat) {
    Align(HEADER_SIZE + RESV_MAP_SIZE + BlockSize(ts) + 4 + NamesSize(ts))
  }

  /** Bytes never decode to a name that contains the byte that ends it. */
  lemma BlobClean(b: seq<byte>)
    requires ParseBlob(b).Some?
    ensures AllClean(ParseBlob(b).value)
  {
    hide ParseBlock, AllClean, ReadHeader;
    var hd := ReadHeader(b).value;
    ParsedClean(b[hd.offStruct..hd.offStruct + hd.sizeStruct], b[hd.offStrings..hd.offStrings + hd.sizeStrings]);
  }

  /** write_to: no slice is too small for what goes into it, whatever the names are. The blob is laid out as the
      format asks for, and decodes to the tokens of the tree exactly if no name in the tree contains the byte that
      ends names. */
  method WriteTo(tree: DeviceTree, buf: array<byte>)
    requires tree.Valid()
    requires OutputSize(TreeTokens(tree.arena, tree.root)) <= buf.Length
    requires OutputSize(TreeTokens(tree.arena, tree.root)) < U32_LIMIT
    modifies buf
    ensures var ts := TreeTokens(tree.arena, tree.root);
            LaidOut(buf[..], OutputSize(ts), BlockSize(ts) + 4, NamesSize(ts))
    ensures ParseBlob(buf[..]) == Some(TreeTokens(tree.arena, tree.root)) <==>
            AllClean(TreeTokens(tree.arena, tree.root))
  {
    hide Written, AllClean, BlockSize, NamesSize, TreeTokens, HasHeader, Overwrite, ParseBlob, Closed, Be32, IsBlock,
         AllMean, LaidOut;
    ghost var todo := TreeTokens(tree.arena, tree.root);
    var structSize, stringsSize := GetLayout(tree);
    var from := HEADER_SIZE + RESV_MAP_SIZE;
    var total := Align(from + structSize + stringsSize);
    var ws := Header(total, from, structSize, stringsSize);
    PushHeader(buf, ws);
    ghost var b := buf[..];
    Copy(buf, HEADER_SIZE, seq(RESV_MAP_SIZE, i => 0));
    HeaderKept(b, buf[..], ws, HEADER_SIZE, seq(RESV_MAP_SIZE, i => 0));
    Zeros(b, buf[..]);
    b := buf[..];
    var w := new FdtWriter(buf, from, structSize, stringsSize, todo);
    PushTree(w, tree);
    FrontKept(b, buf[..], ws, from);
    ZerosKept(b, buf[..], from);
    b := buf[..];
    Finished(b, from, w.structPos, w.stringsFrom, w.stringsPos, w.raws, w.tokens, w.todo);
    Copy(buf, w.structPos, Be32(FDT_END));
    EndWritten(b, buf[..], ws, from, w.structPos, w.stringsPos, w.raws, w.tokens);
    ZerosKept(b, buf[..], from);
    LaysOut(buf[..], total, structSize, stringsSize);
    if AllClean(todo) {
      BlobDecodes(buf[..], total, from, w.structPos, w.stringsPos, w.raws, w.tokens);
    } else if ParseBlob(buf[..]).Some? {
      BlobClean(buf[..]);
    }
  }

  lemma Zeros(b: seq<byte>, c: seq<byte>)
    requires 56 <= |b| && c == Overwrite(b, 40, seq(16, i => 0))
    ensures forall i | 40 <= i < 56 :: c[i] == 0
  {
  }

  lemma ZerosKept(b: seq<byte>, c: seq<byte>, from: nat)
    requires 56 <= from <= |b| == |c| && c[..from] == b[..from] && forall i | 40 <= i < 56 :: b[i] == 0
    ensures forall i | 40 <= i < 56 :: c[i] == 0
  {
    forall i | 40 <= i < 56 ensures c[i] == 0 { assert c[i] == c[..from][i] && b[i] == b[..from][i]; }
  }

  lemma HeaderKept(b: seq<byte>, c: seq<byte>, ws: seq<nat>, pos: nat, data: seq<byte>)
    requires Fits(ws) && HasHeader(b, ws) && 4 * |ws| <= pos && pos + |data| <= |b| && c == Overwrite(b, pos, data)
    ensures HasHeader(c, ws)
  {
    FrontKept(b, c, ws, pos);
  }

  lemma FrontKept(b: seq<byte>, c: seq<byte>, ws: seq<nat>, pos: nat)
    requires Fits(ws) && HasHeader(b, ws) && 4 * |ws| <= pos <= |b| && |c| == |b| && c[..pos] == b[..pos]
    ensures HasHeader(c, ws)
  {
    forall i | 0 <= i < |ws| ensures c[4 * i..4 * i + 4] == Be32(ws[i]) {
      assert c[4 * i..4 * i + 4] == c[..pos][4 * i..4 * i + 4];
      assert b[4 * i..4 * i + 4] == b[..pos][4 * i..4 * i + 4];
    }
  }

  lemma Finished(b: seq<byte>, from: nat, to: nat, stringsFrom: nat, stringsTo: nat, raws: seq<Raw>, tokens: seq<Token>,
                 todo: seq<Token>)
    requires Written(b, from, to, stringsFrom, stringsTo, raws, tokens) && todo == []
    ensures BlockSize(todo) == 0 && NamesSize(todo) == 0 && from <= to <= stringsFrom <= stringsTo <= |b|
  {
  }

  lemma EndWritten(b: seq<byte>, c: seq<byte>, ws: seq<nat>, from: nat, to: nat, stringsTo: nat, raws: seq<Raw>,
                   tokens: seq<Token>)
    requires Written(b, from, to, to + 4, stringsTo, raws, tokens) && Fits(ws) && HasHeader(b, ws) && 4 * |ws| <= from
    requires to + |Be32(FDT_END)| <= |b| && c == Overwrite(b, to, Be32(FDT_END))
    ensures HasHeader(c, ws) && c[to..to + 4] == Be32(FDT_END) && c[..from] == b[..from]
    ensures c[from..to] == b[from..to] && c[to + 4..stringsTo] == b[to + 4..stringsTo]
    ensures AllClean(tokens) ==> IsBlock(c[from..to], raws) && AllMean(c[to + 4..stringsTo], raws, tokens)
  {
    hide IsBlock, AllMean, HasHeader, AllClean;
    OverwriteParts(b, to, Be32(FDT_END), 4);
    FrontKept(b, c, ws, to);
    assert c[from..to] == c[..to][from..] && b[from..to] == b[..to][from..];
    assert c[..from] == c[..to][..from] && b[..from] == b[..to][..from];
    assert c[to + 4..stringsTo] == c[to + 4..][..stringsTo - to - 4]
           && b[to + 4..stringsTo] == b[to + 4..][..stringsTo - to - 4];
    assert Be32(FDT_END) + b[to + 4..to + 4] == Be32(FDT_END);
  }

  /** Written and read back, a tree is the same tree again, with the same names, properties and order, node for
      node, exactly if no name in it contains the byte that ends names. */
  method RoundTrip(tree: DeviceTree, buf: array<byte>) returns (copy: DeviceTree, r: Result<()>)
    requires tree.Valid() && tree.root.Some?
    requires OutputSize(TreeTokens(tree.arena, tree.root)) <= buf.Length
    requires OutputSize(TreeTokens(tree.arena, tree.root)) < U32_LIMIT
    modifies buf
    ensures copy.Valid()
    ensures (r.Ok? && copy.root.Some? && TreeOf(copy.arena, copy.root.value) == TreeOf(tree.arena, tree.root.value))
            <==> AllClean(TreeTokens(tree.arena, tree.root))
  {
    hide ParseBlob, BlockSize, NamesSize, AllClean, Tokens, TreeOf, Strips;
    WriteTo(tree, buf);
    var tokens := ParseBlob(buf[..]);
    if tokens.None? {
      copy := new DeviceTree();
      return copy, Err(MalformedFdt);
    }
    ghost var t := TreeOf(tree.arena, tree.root.value);
    BlobClean(buf[..]);
    StripsNothing(tokens.value);
    copy, r := FromTokens(tokens.value);
    if AllClean(Tokens(t)) {
      BuildInvertsTokens(t);
    } else if r.Ok? && copy.root.Some? {
      BuiltClean(Builder([], None, None), tokens.value);
      CleanTree(copy.arena, copy.root.value);
    }
  }

  lemma StripsNothing(ts: seq<Token>)
    requires AllClean(ts)
    ensures Strips(ts) == ts
  {
    forall i | 0 <= i < |ts| ensures Strip(ts[i]) == ts[i] {
      assert Clean(ts[i]);
    }
  }

  /** No name in the arena contains the byte that ends names. */
  predicate CleanArena(a: Arena) {
    forall i | 0 <= i < |a| && a[i].Some? :: NoZero(a[i].value.name) && CleanProps(a[i].value.props)
  }

  predicate CleanProps(ps: seq<Prop>) {
    forall i | 0 <= i < |ps| :: NoZero(ps[i].name)
  }

  lemma {:induction false} BuiltClean(b: Builder, ts: seq<Token>)
    requires Ready(b) && CleanArena(b.arena) && AllClean(ts) && FeedAll(b, ts).Ok?
    ensures CleanArena(FeedAll(b, ts).value.arena)
    decreases |ts|
  {
    hide CleanArena, NoZero, Feed;
    if ts != [] {
      assert Clean(ts[0]);
      FeedClean(b, ts[0]);
      BuiltClean(Feed(b, ts[0]).value, ts[1..]);
    }
  }

  lemma FeedClean(b: Builder, t: Token)
    requires Ready(b) && CleanArena(b.arena) && Clean(t) && Feed(b, t).Ok?
    ensures CleanArena(Feed(b, t).value.arena)
  {
    hide NoZero;
  }

  lemma CleanPropTokens(ps: seq<Prop>)
    requires CleanProps(ps)
    ensures AllClean(PropTokens(ps))
  {
    hide NoZero;
    if ps != [] { CleanPropTokens(ps[1..]); }
  }

  lemma {:induction false} CleanTree(a: Arena, id: nat)
    requires Closed(a) && Live(a, id) && CleanArena(a)
    ensures AllClean(Tokens(TreeOf(a, id)))
    decreases |a| - id, 1, 0
  {
    hide Closed, NoZero;
    var n := a[id].value;
    OkAt(a, id);
    CleanPropTokens(n.props);
    CleanForest(a, id, n.children);
  }

  lemma OkAt(a: Arena, id: nat)
    requires Closed(a) && Live(a, id)
    ensures NodeOk(a, id)
  {
  }

  lemma {:induction false} CleanForest(a: Arena, above: nat, ids: seq<nat>)
    requires Closed(a) && above < |a| && CleanArena(a) && forall i | 0 <= i < |ids| :: above < ids[i] && Live(a, ids[i])
    ensures AllClean(ForestTokens(ForestOf(a, above, ids)))
    decreases |a| - above, 0, |ids|
  {
    hide Closed, NoZero, CleanArena, TreeOf, Tokens;
    if ids != [] {
      CleanTree(a, ids[0]);
      CleanForest(a, above, ids[1..]);
    }
  }

  /** A tree of one node whose name has the byte in its middle: written out, it decodes to another name. */
  lemma NameCutShort(name: seq<byte>, rest: seq<byte>)
    requires NoZero(name)
    ensures var t := Tree(name + [0] + rest, [], []);
            && !AllClean(Tokens(t))
            && (forall b, strings | ParseBlock(b, strings).Some? :: ParseBlock(b, strings).value != Tokens(t))
  {
    var t := Tree(name + [0] + rest, [], []);
    assert Tokens(t)[0] == Begin(t.name) && t.name[|name|] == 0;
    assert !Clean(Tokens(t)[0]);
    forall b, strings | ParseBlock(b, strings).Some? ensures ParseBlock(b, strings).value != Tokens(t) {
      ParsedClean(b, strings);
    }
  }
}
