/** The tokens that the serializer emits while it walks over a tree, and the sizes it computes beforehand. The
    walk gives nodes with depths; where the next node is not a child, nodes are closed until its depth is
    reached. */
module FdtEmit {
  import opened DeviceTrees
  import opened DeviceTreeIterators
  import opened FdtFormat

  function Ends(k: nat): (r: seq<Token>)
    ensures |r| == k && forall i | 0 <= i < k :: r[i] == End
  {
    seq(k, i => End)
  }

  lemma EndsSplit(j: nat, k: nat)
    ensures Ends(j + k) == Ends(j) + Ends(k) && Ends(0) == [] && Ends(1) == [End]
  {
  }

  /** The tokens for a node itself. */
  function NodeTokens(a: Arena, id: nat): (r: seq<Token>)
    requires Live(a, id)
  {
    [Begin(a[id].value.name)] + PropTokens(a[id].value.props)
  }

  /** How many nodes end before the next one, which is at depth `next`. */
  function Closing(depth: nat, next: nat): (k: nat) {
    if next > depth then 0 else depth - next + 1
  }

  predicate AllLive(a: Arena, vs: seq<Visit>) {
    forall i | 0 <= i < |vs| :: Live(a, vs[i].id)
  }

  function DepthAfter(vs: seq<Visit>, after: nat): (d: nat) {
    if |vs| > 1 then vs[1].depth else after
  }

  /** The tokens emitted for the visits, if the walk goes on at depth `after`. */
  function Emit(a: Arena, vs: seq<Visit>, after: nat): (r: seq<Token>)
    requires AllLive(a, vs)
  {
    if vs == [] then []
    else NodeTokens(a, vs[0].id) + Ends(Closing(vs[0].depth, DepthAfter(vs, after))) + Emit(a, vs[1..], after)
  }

  lemma {:induction false} EmitParts(a: Arena, vs: seq<Visit>, ws: seq<Visit>, after: nat)
    requires AllLive(a, vs) && AllLive(a, ws) && ws != []
    ensures AllLive(a, vs + ws) && Emit(a, vs + ws, after) == Emit(a, vs, ws[0].depth) + Emit(a, ws, after)
    decreases |vs|
  {
    hide NodeTokens;
    if vs == [] {
      assert vs + ws == ws;
    } else {
      EmitParts(a, vs[1..], ws, after);
      assert (vs + ws)[1..] == vs[1..] + ws;
      assert (vs + ws)[0] == vs[0];
      assert DepthAfter(vs + ws, after) == DepthAfter(vs, ws[0].depth);
    }
  }

  lemma {:induction false} PreorderLive(a: Arena, id: nat, depth: nat)
    requires Closed(a) && Live(a, id)
    ensures AllLive(a, Preorder(a, id, depth))
    decreases |a| - id, 1, 0
  {
    assert NodeOk(a, id);
    ForestLive(a, id, a[id].value.children, depth + 1);
  }

  lemma {:induction false} ForestLive(a: Arena, above: nat, ids: seq<nat>, depth: nat)
    requires Closed(a) && above < |a| && forall i | 0 <= i < |ids| :: above < ids[i] && Live(a, ids[i])
    ensures AllLive(a, PreorderForest(a, above, ids, depth))
    decreases |a| - above, 0, |ids|
  {
    if ids != [] {
      PreorderLive(a, ids[0], depth);
      ForestLive(a, above, ids[1..], depth);
    }
  }

  /** For the nodes below `id`, the walk emits the tokens of the tree there, and then closes the nodes
      around it up to the depth where it goes on. */
  lemma {:induction false} EmitTree(a: Arena, id: nat, depth: nat, after: nat)
    requires Closed(a) && Live(a, id) && after <= depth
    ensures AllLive(a, Preorder(a, id, depth))
    ensures Emit(a, Preorder(a, id, depth), after) == Tokens(TreeOf(a, id)) + Ends(depth - after)
    decreases |a| - id, 1, 0
  {
    assert NodeOk(a, id);
    var n := a[id].value;
    PreorderLive(a, id, depth);
    var v, below := Visit(id, depth), PreorderForest(a, id, n.children, depth + 1);
    assert [v][1..] == [];
    EndsSplit(1, depth - after);
    if n.children == [] {
      assert Preorder(a, id, depth) == [v];
      assert Emit(a, [], after) == [];
      assert Emit(a, [v], after) == NodeTokens(a, id) + Ends(1 + (depth - after));
    } else {
      EmitForest(a, id, n.children, depth, after);
      EmitParts(a, [v], below, after);
      assert Emit(a, [v], depth + 1) == NodeTokens(a, id);
      assert ForestTokens(ForestOf(a, id, n.children)) + Ends(1 + (depth - after)) ==
             ForestTokens(ForestOf(a, id, n.children)) + [End] + Ends(depth - after);
    }
  }

  lemma {:induction false} EmitForest(a: Arena, above: nat, ids: seq<nat>, depth: nat, after: nat)
    requires Closed(a) && above < |a| && ids != [] && after <= depth
    requires forall i | 0 <= i < |ids| :: above < ids[i] && Live(a, ids[i])
    ensures AllLive(a, PreorderForest(a, above, ids, depth + 1))
    ensures Emit(a, PreorderForest(a, above, ids, depth + 1), after) ==
            ForestTokens(ForestOf(a, above, ids)) + Ends(1 + (depth - after))
    decreases |a| - above, 0, |ids|
  {
    hide Emit, NodeTokens, Tokens, TreeOf, Preorder, Closed;
    ForestLive(a, above, ids, depth + 1);
    var first, rest := Preorder(a, ids[0], depth + 1), PreorderForest(a, above, ids[1..], depth + 1);
    var t := TreeOf(a, ids[0]);
    assert ForestOf(a, above, ids) == [t] + ForestOf(a, above, ids[1..]);
    assert ([t] + ForestOf(a, above, ids[1..]))[1..] == ForestOf(a, above, ids[1..]);
    if |ids| == 1 {
      EmitTree(a, ids[0], depth + 1, after);
      assert ids[1..] == [] && rest == [];
      assert first + rest == first;
    } else {
      EmitTree(a, ids[0], depth + 1, depth + 1);
      EmitForest(a, above, ids[1..], depth, after);
      PreorderLive(a, ids[0], depth + 1);
      ForestLive(a, above, ids[1..], depth + 1);
      EmitParts(a, first, rest, after);
      EndsSplit(0, 0);
    }
  }

  /** The whole walk emits exactly the tokens of the tree: nodes begin and end in matching pairs. */
  lemma EmitIsTokens(a: Arena, root: nat)
    requires Closed(a) && Live(a, root)
    ensures AllLive(a, Preorder(a, root, 0)) && Emit(a, Preorder(a, root, 0), 0) == Tokens(TreeOf(a, root))
  {
    EmitTree(a, root, 0, 0);
    EndsSplit(0, 0);
  }

  /* ---------------- Sizes ---------------- */

  function TokenSize(t: Token): (n: nat)
    ensures n >= 4
  {
    match t
    case Begin(name) => 4 + Align(|name| + 1)
    case Property(prop) => 12 + Align(|prop.value|)
    case End => 4
  }

  function BlockSize(ts: seq<Token>): (n: nat) {
    if ts == [] then 0 else TokenSize(ts[0]) + BlockSize(ts[1..])
  }

  /** Each property brings its own copy of its name. */
  function NamesSize(ts: seq<Token>): (n: nat) {
    if ts == [] then 0 else (if ts[0].Property? then |ts[0].prop.name| + 1 else 0) + NamesSize(ts[1..])
  }

  lemma {:induction false} SizesAdd(xs: seq<Token>, ys: seq<Token>)
    ensures BlockSize(xs + ys) == BlockSize(xs) + BlockSize(ys) && NamesSize(xs + ys) == NamesSize(xs) + NamesSize(ys)
  {
    if xs == [] {
      assert xs + ys == ys;
    } else {
      assert (xs + ys)[1..] == xs[1..] + ys;
      SizesAdd(xs[1..], ys);
    }
  }

  /** The sizes counted for the nodes of a walk: each node's tokens, and one more for its end. */
  function WalkSize(a: Arena, vs: seq<Visit>): (n: nat)
    requires AllLive(a, vs)
  {
    if vs == [] then 0 else BlockSize(NodeTokens(a, vs[0].id)) + 4 + WalkSize(a, vs[1..])
  }

  function WalkNames(a: Arena, vs: seq<Visit>): (n: nat)
    requires AllLive(a, vs)
  {
    if vs == [] then 0 else NamesSize(NodeTokens(a, vs[0].id)) + WalkNames(a, vs[1..])
  }

  lemma {:induction false} WalkParts(a: Arena, vs: seq<Visit>, ws: seq<Visit>)
    requires AllLive(a, vs) && AllLive(a, ws)
    ensures AllLive(a, vs + ws)
    ensures WalkSize(a, vs + ws) == WalkSize(a, vs) + WalkSize(a, ws)
            && WalkNames(a, vs + ws) == WalkNames(a, vs) + WalkNames(a, ws)
    decreases |vs|
  {
    hide NodeTokens, BlockSize, NamesSize;
    if vs == [] {
      assert vs + ws == ws;
    } else {
      WalkParts(a, vs[1..], ws);
      assert (vs + ws)[1..] == vs[1..] + ws;
    }
  }

  lemma {:induction false} WalkTree(a: Arena, id: nat, depth: nat)
    requires Closed(a) && Live(a, id)
    ensures AllLive(a, Preorder(a, id, depth))
    ensures WalkSize(a, Preorder(a, id, depth)) == BlockSize(Tokens(TreeOf(a, id)))
    ensures WalkNames(a, Preorder(a, id, depth)) == NamesSize(Tokens(TreeOf(a, id)))
    decreases |a| - id, 1, 0
  {
    assert NodeOk(a, id);
    PreorderLive(a, id, depth);
    var n, v := a[id].value, Visit(id, depth);
    WalkForest(a, id, n.children, depth + 1);
    WalkParts(a, [v], PreorderForest(a, id, n.children, depth + 1));
    assert [v][1..] == [] && WalkSize(a, []) == 0 && WalkNames(a, []) == 0;
    var below := ForestTokens(ForestOf(a, id, n.children));
    assert [End][1..] == [] && BlockSize([End]) == 4 && NamesSize([End]) == 0;
    hide BlockSize, NamesSize;
    assert Tokens(TreeOf(a, id)) == NodeTokens(a, id) + below + [End];
    SizesAdd(NodeTokens(a, id) + below, [End]);
    SizesAdd(NodeTokens(a, id), below);
  }

  lemma {:induction false} WalkForest(a: Arena, above: nat, ids: seq<nat>, depth: nat)
    requires Closed(a) && above < |a| && forall i | 0 <= i < |ids| :: above < ids[i] && Live(a, ids[i])
    ensures AllLive(a, PreorderForest(a, above, ids, depth))
    ensures WalkSize(a, PreorderForest(a, above, ids, depth)) == BlockSize(ForestTokens(ForestOf(a, above, ids)))
    ensures WalkNames(a, PreorderForest(a, above, ids, depth)) == NamesSize(ForestTokens(ForestOf(a, above, ids)))
    decreases |a| - above, 0, |ids|
  {
    if ids != [] {
      WalkTree(a, ids[0], depth);
      WalkForest(a, above, ids[1..], depth);
      var t, ts := TreeOf(a, ids[0]), ForestOf(a, above, ids[1..]);
      assert ForestOf(a, above, ids) == [t] + ts && ([t] + ts)[1..] == ts;
      WalkParts(a, Preorder(a, ids[0], depth), PreorderForest(a, above, ids[1..], depth));
      SizesAdd(Tokens(t), ForestTokens(ts));
    }
  }
}
