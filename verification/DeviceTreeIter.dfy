/** The depth-first walk over a device tree in its arena, which keeps no stack: from a node without children it
    climbs until it finds a node that has a next sibling. */
module DeviceTreeIterators {
  import opened Basics
  import opened DeviceTrees
  import opened DeviceTreeBuild

  /** A node and its depth below the node where the walk began. */
  datatype Visit = Visit(id: nat, depth: nat)

  /** The nodes below `id` in depth-first order. */
  function Preorder(a: Arena, id: nat, depth: nat): (r: seq<Visit>)
    requires Closed(a) && Live(a, id)
    ensures r != [] && r[0] == Visit(id, depth)
    decreases |a| - id, 1, 0
  {
    assert NodeOk(a, id);
    [Visit(id, depth)] + PreorderForest(a, id, a[id].value.children, depth + 1)
  }

  function PreorderForest(a: Arena, above: nat, ids: seq<nat>, depth: nat): (r: seq<Visit>)
    requires Closed(a) && above < |a| && forall i | 0 <= i < |ids| :: above < ids[i] && Live(a, ids[i])
    ensures ids != [] ==> r != [] && r[0] == Visit(ids[0], depth)
    decreases |a| - above, 0, |ids|
  {
    if ids == [] then [] else Preorder(a, ids[0], depth) + PreorderForest(a, above, ids[1..], depth)
  }

  /* ---------------- The walk ---------------- */

  /** The position of `id` in a list that has it. */
  function Position(ids: seq<nat>, id: nat): (i: nat)
    requires id in ids
    ensures i < |ids| && ids[i] == id
  {
    if ids[0] == id then 0 else 1 + Position(ids[1..], id)
  }

  lemma {:induction false} PositionIs(ids: seq<nat>, i: nat)
    requires i < |ids| && forall j, k | 0 <= j < k < |ids| :: ids[j] < ids[k]
    ensures ids[i] in ids && Position(ids, ids[i]) == i
  {
    if i > 0 {
      PositionIs(ids[1..], i - 1);
    }
  }

  /** Climbs from `id` to the next node that has not been visited, up to `root`. */
  function Climb(a: Arena, root: nat, id: nat, depth: nat): (r: Option<Visit>)
    decreases depth
  {
    if !Live(a, id) || a[id].value.parent.None? || id == root then None
    else
      var p := a[id].value.parent.value;
      if !Live(a, p) || id !in a[p].value.children then None
      else
        var siblings := a[p].value.children;
        var i := Position(siblings, id);
        if i + 1 < |siblings| then Some(Visit(siblings[i + 1], depth))
        else if depth == 0 then None
        else Climb(a, root, p, depth - 1)
  }

  /** What the walk visits after a node. */
  function Next(a: Arena, root: nat, v: Visit): (r: Option<Visit>)
    requires Live(a, v.id)
  {
    var n := a[v.id].value;
    if n.children != [] then Some(Visit(n.children[0], v.depth + 1)) else Climb(a, root, v.id, v.depth)
  }

  /** Within the nodes below `id`, each visit leads to the next; the last one leads on as `id` itself would
      if it had no children. */
  lemma {:induction false} NextInTree(a: Arena, root: nat, id: nat, depth: nat, i: nat)
    requires Closed(a) && Live(a, id) && root <= id && i < |Preorder(a, id, depth)|
    ensures var r := Preorder(a, id, depth);
            && Live(a, r[i].id) && r[i].depth >= depth
            && Next(a, root, r[i]) == if i + 1 < |r| then Some(r[i + 1]) else Climb(a, root, id, depth)
    decreases |a| - id, 1, 0
  {
    assert NodeOk(a, id);
    var n := a[id].value;
    if i > 0 {
      NextInForest(a, root, id, 0, depth, i - 1);
      assert n.children[0..] == n.children;
    }
  }

  /** The same for the children of `id` from the `k`-th on. */
  lemma {:induction false} NextInForest(a: Arena, root: nat, id: nat, k: nat, depth: nat, i: nat)
    requires Closed(a) && Live(a, id) && root <= id && k <= |a[id].value.children|
    requires forall j | 0 <= j < |a[id].value.children| ::
               id < a[id].value.children[j] && Live(a, a[id].value.children[j])
    requires i < |PreorderForest(a, id, a[id].value.children[k..], depth + 1)|
    ensures var r := PreorderForest(a, id, a[id].value.children[k..], depth + 1);
            && Live(a, r[i].id) && r[i].depth > depth
            && Next(a, root, r[i]) == if i + 1 < |r| then Some(r[i + 1]) else Climb(a, root, id, depth)
    decreases |a| - id, 0, |a[id].value.children| - k
  {
    var ids := a[id].value.children;
    assert NodeOk(a, id);
    assert ids[k..][1..] == ids[k + 1..];
    var c := ids[k];
    var first, rest := Preorder(a, c, depth + 1), PreorderForest(a, id, ids[k + 1..], depth + 1);
    if i < |first| {
      NextInTree(a, root, c, depth + 1, i);
      if i + 1 == |first| {
        SiblingOrUp(a, root, id, k, depth);
      }
    } else {
      NextInForest(a, root, id, k + 1, depth, i - |first|);
    }
  }

  /** Climbing from a child leads to its next sibling, or on from its parent. */
  lemma SiblingOrUp(a: Arena, root: nat, id: nat, k: nat, depth: nat)
    requires Closed(a) && Live(a, id) && root <= id && k < |a[id].value.children|
    ensures var ids := a[id].value.children;
            Climb(a, root, ids[k], depth + 1) ==
            if k + 1 < |ids| then Some(Visit(ids[k + 1], depth + 1)) else Climb(a, root, id, depth)
  {
    assert NodeOk(a, id);
    PositionIs(a[id].value.children, k);
  }

  /** The walk from a node visits the nodes below it in depth-first order, each once, and then ends. */
  lemma WalkIsPreorder(a: Arena, root: nat, i: nat)
    requires Closed(a) && Live(a, root) && i < |Preorder(a, root, 0)|
    ensures var r := Preorder(a, root, 0);
            Live(a, r[i].id) && Next(a, root, r[i]) == if i + 1 < |r| then Some(r[i + 1]) else None
  {
    NextInTree(a, root, root, 0, i);
  }

  /* ---------------- No step of the walk can fail ---------------- */

  /** Going up from `id` leads to `root` in `depth` steps, and each node on the way is listed by its parent. */
  predicate AtDepth(a: Arena, root: nat, id: nat, depth: nat)
    decreases depth
  {
    && Live(a, id)
    && if depth == 0 then id == root
       else
         && id != root && a[id].value.parent.Some? && Live(a, a[id].value.parent.value)
         && id in a[a[id].value.parent.value].value.children
         && AtDepth(a, root, a[id].value.parent.value, depth - 1)
  }

  lemma {:induction false} DepthInTree(a: Arena, root: nat, id: nat, depth: nat, i: nat)
    requires Closed(a) && Live(a, id) && root <= id && AtDepth(a, root, id, depth) && i < |Preorder(a, id, depth)|
    ensures AtDepth(a, root, Preorder(a, id, depth)[i].id, Preorder(a, id, depth)[i].depth)
    decreases |a| - id, 1, 0
  {
    assert NodeOk(a, id);
    if i > 0 {
      assert a[id].value.children[0..] == a[id].value.children;
      DepthInForest(a, root, id, 0, depth, i - 1);
    }
  }

  lemma {:induction false} DepthInForest(a: Arena, root: nat, id: nat, k: nat, depth: nat, i: nat)
    requires Closed(a) && Live(a, id) && root <= id && AtDepth(a, root, id, depth) && k <= |a[id].value.children|
    requires forall j | 0 <= j < |a[id].value.children| ::
               id < a[id].value.children[j] && Live(a, a[id].value.children[j])
    requires i < |PreorderForest(a, id, a[id].value.children[k..], depth + 1)|
    ensures var r := PreorderForest(a, id, a[id].value.children[k..], depth + 1);
            AtDepth(a, root, r[i].id, r[i].depth)
    decreases |a| - id, 0, |a[id].value.children| - k
  {
    var ids := a[id].value.children;
    assert NodeOk(a, id);
    assert ids[k..][1..] == ids[k + 1..];
    var c := ids[k];
    assert AtDepth(a, root, c, depth + 1);
    var first := Preorder(a, c, depth + 1);
    if i < |first| {
      DepthInTree(a, root, c, depth + 1, i);
    } else {
      DepthInForest(a, root, id, k + 1, depth, i - |first|);
    }
  }

  /* ---------------- The objects ---------------- */

  class DeviceTreeIter {
    const tree: DeviceTree
    const root: Option<nat>
    var current: Option<nat>
    var depth: nat
    /** How many nodes have been visited. */
    ghost var done: nat

    ghost predicate Valid()
      reads this, tree
    {
      && tree.Valid()
      && match root
         case None => current == None
         case Some(r) =>
           && Live(tree.arena, r)
           && var order := Preorder(tree.arena, r, 0);
              && done <= |order|
              && (if done < |order| then current == Some(order[done].id) && depth == order[done].depth
                  else current == None && depth == 0)
    }

    constructor (tree: DeviceTree, root: Option<nat>)
      requires tree.Valid() && (root.Some? ==> Live(tree.arena, root.value))
      ensures Valid() && this.tree == tree && this.root == root && done == 0 && depth == 0
    {
      this.tree, this.root, current, depth, done := tree, root, root, 0, 0;
    }

    /** The next node in depth-first order. */
    method NextNode() returns (r: Option<nat>)
      requires Valid()
      modifies this
      ensures Valid()
      ensures match root
              case None => r == None
              case Some(s) =>
                var order := Preorder(tree.arena, s, 0);
                if old(done) < |order| then r == Some(order[old(done)].id) && done == old(done) + 1
                else r == None && done == old(done) && depth == old(depth)
    {
      if current.None? { return None; }
      r := current;
      SetNextNode(current.value);
      done := done + 1;
    }

    method SetNextNode(id: nat)
      requires tree.Valid() && root.Some? && Live(tree.arena, root.value)
      requires done < |Preorder(tree.arena, root.value, 0)|
               && Preorder(tree.arena, root.value, 0)[done] == Visit(id, depth)
      modifies this`current, this`depth
      ensures var order := Preorder(tree.arena, root.value, 0);
              if done + 1 < |order| then current == Some(order[done + 1].id) && depth == order[done + 1].depth
              else current == None && depth == 0
    {
      hide Preorder, Closed;
      ghost var a, r := tree.arena, root.value;
      WalkIsPreorder(a, r, done);
      DepthInTree(a, r, r, 0, done);
      var node := tree.arena[id].value;
      if |node.children| > 0 {
        depth, current := depth + 1, Some(node.children[0]);
        return;
      }
      ghost var goal := Climb(a, r, id, depth);
      var at := id;
      while tree.arena[at].value.parent.Some?
        invariant Live(a, at) && AtDepth(a, r, at, depth) && Climb(a, r, at, depth) == goal
        decreases depth
      {
        if at == root.value { break; }
        var parent := tree.arena[at].value.parent.value;
        var siblings := tree.arena[parent].value.children;
        var i := Position(siblings, at);
        if i + 1 < |siblings| {
          current := Some(siblings[i + 1]);
          return;
        }
        at := parent;
        depth := depth - 1;
      }
      current := None;
    }
  }
}
