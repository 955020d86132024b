/** Removing a node and all that is below it from a device tree. */
module DeviceTreeRemove {
  import opened Basics
  import opened DeviceTrees
  import opened DeviceTreeBuild
  import opened DeviceTreeIterators

  /* ---------------- What is below a node ---------------- */

  ghost predicate Below(a: Arena, id: nat, c: nat)
    requires Closed(a) && Live(a, id)
    decreases |a| - id, 1, 0
  {
    assert NodeOk(a, id);
    c == id || BelowSome(a, id, a[id].value.children, c)
  }

  ghost predicate BelowSome(a: Arena, above: nat, ids: seq<nat>, c: nat)
    requires Closed(a) && above < |a| && forall i | 0 <= i < |ids| :: above < ids[i] && Live(a, ids[i])
    decreases |a| - above, 0, |ids|
  {
    ids != [] && (Below(a, ids[0], c) || BelowSome(a, above, ids[1..], c))
  }

  /** A node below another one is there, and so is its parent, unless it is that one itself. */
  lemma {:induction false} ParentBelow(a: Arena, id: nat, c: nat)
    requires Closed(a) && Live(a, id) && Below(a, id, c)
    ensures id <= c && Live(a, c)
    ensures c != id ==> a[c].value.parent.Some? && Below(a, id, a[c].value.parent.value)
    decreases |a| - id, 1, 0
  {
    assert NodeOk(a, id);
    if c != id { ParentBelowSome(a, id, a[id].value.children, c); }
  }

  lemma {:induction false} ParentBelowSome(a: Arena, above: nat, ids: seq<nat>, c: nat)
    requires Closed(a) && above < |a|
             && (forall i | 0 <= i < |ids| :: above < ids[i] && Live(a, ids[i])
                                              && a[ids[i]].value.parent == Some(above))
    requires BelowSome(a, above, ids, c)
    ensures above < c && Live(a, c) && a[c].value.parent.Some?
    ensures a[c].value.parent == Some(above) || BelowSome(a, above, ids, a[c].value.parent.value)
    decreases |a| - above, 0, |ids|
  {
    if Below(a, ids[0], c) {
      ParentBelow(a, ids[0], c);
    } else {
      ParentBelowSome(a, above, ids[1..], c);
    }
  }

  /** What is below a node depends only on the children of the nodes from its index on. */
  lemma {:induction false} BelowFrame(a: Arena, d: Arena, id: nat, c: nat)
    requires Closed(a) && Closed(d) && Live(a, id) && |a| == |d|
    requires forall i | id <= i < |a| && a[i].Some? :: d[i].Some? && d[i].value.children == a[i].value.children
    ensures Live(d, id) && (Below(d, id, c) <==> Below(a, id, c))
    decreases |a| - id, 1, 0
  {
    assert NodeOk(a, id) && NodeOk(d, id);
    BelowSomeFrame(a, d, id, a[id].value.children, c);
  }

  lemma {:induction false} BelowSomeFrame(a: Arena, d: Arena, above: nat, ids: seq<nat>, c: nat)
    requires Closed(a) && Closed(d) && above < |a| == |d|
    requires forall i | above < i < |a| && a[i].Some? :: d[i].Some? && d[i].value.children == a[i].value.children
    requires forall i | 0 <= i < |ids| :: above < ids[i] && Live(a, ids[i])
    ensures forall i | 0 <= i < |ids| :: Live(d, ids[i])
    ensures BelowSome(d, above, ids, c) <==> BelowSome(a, above, ids, c)
    decreases |a| - above, 0, |ids|
  {
    if ids != [] {
      BelowFrame(a, d, ids[0], c);
      BelowSomeFrame(a, d, above, ids[1..], c);
    }
  }

  predicate Visits(vs: seq<Visit>, c: nat) {
    exists i | 0 <= i < |vs| :: vs[i].id == c
  }

  lemma VisitsParts(vs: seq<Visit>, ws: seq<Visit>, c: nat)
    ensures Visits(vs + ws, c) <==> Visits(vs, c) || Visits(ws, c)
  {
    if Visits(vs, c) {
      var i :| 0 <= i < |vs| && vs[i].id == c;
      assert (vs + ws)[i].id == c;
    }
    if Visits(ws, c) {
      var i :| 0 <= i < |ws| && ws[i].id == c;
      assert (vs + ws)[|vs| + i].id == c;
    }
  }

  /** The walk from a node visits exactly what is below it. */
  lemma {:induction false} WalkVisitsBelow(a: Arena, id: nat, depth: nat, c: nat)
    requires Closed(a) && Live(a, id)
    ensures Visits(Preorder(a, id, depth), c) <==> Below(a, id, c)
    decreases |a| - id, 1, 0
  {
    assert NodeOk(a, id);
    var rest := PreorderForest(a, id, a[id].value.children, depth + 1);
    VisitsParts([Visit(id, depth)], rest, c);
    assert Visits([Visit(id, depth)], c) <==> c == id by {
      assert [Visit(id, depth)][0].id == id;
    }
    ForestVisitsBelow(a, id, a[id].value.children, depth + 1, c);
  }

  lemma {:induction false} ForestVisitsBelow(a: Arena, above: nat, ids: seq<nat>, depth: nat, c: nat)
    requires Closed(a) && above < |a| && forall i | 0 <= i < |ids| :: above < ids[i] && Live(a, ids[i])
    ensures Visits(PreorderForest(a, above, ids, depth), c) <==> BelowSome(a, above, ids, c)
    decreases |a| - above, 0, |ids|
  {
    if ids != [] {
      WalkVisitsBelow(a, ids[0], depth, c);
      ForestVisitsBelow(a, above, ids[1..], depth, c);
      VisitsParts(Preorder(a, ids[0], depth), PreorderForest(a, above, ids[1..], depth), c);
    }
  }

  /* ---------------- Removal ---------------- */

  function Without(ids: seq<nat>, id: nat): (r: seq<nat>) {
    if ids == [] then [] else (if ids[0] == id then [] else [ids[0]]) + Without(ids[1..], id)
  }

  lemma {:induction false} WithoutIs(ids: seq<nat>, id: nat)
    ensures forall x :: x in Without(ids, id) <==> x in ids && x != id
    ensures id !in ids ==> Without(ids, id) == ids
  {
    if ids != [] {
      WithoutIs(ids[1..], id);
      assert forall x :: x in ids <==> x == ids[0] || x in ids[1..];
    }
  }

  lemma {:induction false} WithoutAscends(ids: seq<nat>, id: nat)
    requires Ascending(ids)
    ensures Ascending(Without(ids, id))
  {
    if ids != [] {
      WithoutAscends(ids[1..], id);
      WithoutIs(ids[1..], id);
      var rest := Without(ids[1..], id);
      forall j | 0 <= j < |rest| ensures ids[0] < rest[j] {
        assert rest[j] in ids[1..];
      }
      var r := Without(ids, id);
      if ids[0] == id {
        assert r == rest;
      } else {
        assert r == [ids[0]] + rest;
        forall i, j | 0 <= i < j < |r| ensures r[i] < r[j] {
          assert r[j] == rest[j - 1];
          if i == 0 {
            assert r[i] == ids[0];
          } else {
            assert r[i] == rest[i - 1] && rest[i - 1] < rest[j - 1];
          }
        }
      }
    }
  }

  /** The node is listed by its parent, or has none. */
  predicate Hangs(a: Arena, id: nat)
    requires Live(a, id)
  {
    a[id].value.parent.Some? ==> Live(a, a[id].value.parent.value) && id in a[a[id].value.parent.value].value.children
  }

  /** The node and its parent know nothing of each other any more. */
  function Detach(a: Arena, id: nat): (d: Arena)
    requires Live(a, id)
    ensures |d| == |a|
  {
    match a[id].value.parent
    case None => a
    case Some(p) =>
      var b := a[id := Some(a[id].value.(parent := None))];
      if !Live(b, p) then b else b[p := Some(b[p].value.(children := Without(b[p].value.children, id)))]
  }

  lemma DetachIs(a: Arena, id: nat)
    requires Closed(a) && Live(a, id) && Hangs(a, id)
    ensures var d := Detach(a, id);
            && Closed(d) && Live(d, id) && d[id].value.parent == None && d[id].value.children == a[id].value.children
            && (forall i | 0 <= i < |a| :: d[i].Some? <==> a[i].Some?)
            && (forall i | 0 <= i < |a| && a[i].Some? :: d[i].value.children == Without(a[i].value.children, id))
            && (forall i | 0 <= i < |a| && a[i].Some? ::
                  d[i].value.name == a[i].value.name && d[i].value.props == a[i].value.props)
            && (forall i | id <= i < |a| && a[i].Some? :: d[i].value.children == a[i].value.children)
  {
    hide Detach, NodeOk, Hangs, Without;
    forall i: nat | i < |a| ensures DetachedAt(a, Detach(a, id), id, i) {
      DetachAt(a, id, i);
    }
    forall i: nat | i < |a| && Detach(a, id)[i].Some? ensures NodeOk(Detach(a, id), i) {
      assert DetachedAt(a, Detach(a, id), id, i);
      DetachedNodeOk(a, id, i);
    }
    assert DetachedAt(a, Detach(a, id), id, id);
    forall i | 0 <= i < |a|
      ensures Detach(a, id)[i].Some? <==> a[i].Some?
      ensures a[i].Some? ==> Detach(a, id)[i].value.children == Without(a[i].value.children, id)
      ensures a[i].Some? ==> Detach(a, id)[i].value.name == a[i].value.name
                             && Detach(a, id)[i].value.props == a[i].value.props
      ensures a[i].Some? && id <= i ==> Detach(a, id)[i].value.children == a[i].value.children
    {
      assert DetachedAt(a, Detach(a, id), id, i);
    }
  }

  /** What a detached node leaves of node `i`. */
  ghost predicate DetachedAt(a: Arena, d: Arena, id: nat, i: nat)
    requires i < |a| == |d|
  {
    && (d[i].Some? <==> a[i].Some?)
    && (a[i].Some? ==>
          && d[i].value.name == a[i].value.name && d[i].value.props == a[i].value.props
          && d[i].value.children == Without(a[i].value.children, id)
          && (id <= i ==> d[i].value.children == a[i].value.children)
          && (i == id ==> d[i].value.parent == None))
  }

  lemma DetachAt(a: Arena, id: nat, i: nat)
    requires Closed(a) && Live(a, id) && Hangs(a, id) && i < |a|
    ensures DetachedAt(a, Detach(a, id), id, i)
  {
    if a[i].Some? {
      WithoutIs(a[i].value.children, id);
      assert NodeOk(a, i);
    }
  }

  lemma DetachedNodeOk(a: Arena, id: nat, i: nat)
    requires Closed(a) && Live(a, id) && Hangs(a, id) && Live(Detach(a, id), i)
    requires Detach(a, id)[i].value.children == Without(a[i].value.children, id)
    ensures NodeOk(Detach(a, id), i)
  {
    var d := Detach(a, id);
    assert Live(a, i) && NodeOk(a, i);
    var was, now := a[i].value.children, d[i].value.children;
    WithoutIs(was, id);
    WithoutAscends(was, id);
    forall k | 0 <= k < |now| ensures i < now[k] && Live(d, now[k]) && d[now[k]].value.parent == Some(i) {
      assert now[k] in was && now[k] != id;
    }
  }

  /** The arena without the node and what is below it. */
  ghost function Gone(d: Arena, id: nat): (b: Arena)
    requires Closed(d) && Live(d, id)
    ensures |b| == |d| && forall i | 0 <= i < |d| :: b[i] == if Below(d, id, i) then None else d[i]
  {
    seq(|d|, i requires 0 <= i < |d| => if Below(d, id, i) then None else d[i])
  }

  /** remove_node: the arena, the root and the result. */
  ghost function RemoveNode(a: Arena, root: Option<nat>, id: nat): (r: (Arena, Option<nat>, Result<()>))
    requires Closed(a) && (Live(a, id) ==> Hangs(a, id))
  {
    if !Live(a, id) then (a, root, Err(InvalidNodeId))
    else
      DetachIs(a, id);
      (Gone(Detach(a, id), id), if a[id].value.parent.None? then None else root, Ok(()))
  }

  lemma GoneClosed(d: Arena, id: nat)
    requires Closed(d) && Live(d, id) && d[id].value.parent == None
    ensures Closed(Gone(d, id))
  {
    var b := Gone(d, id);
    forall i | 0 <= i < |b| && b[i].Some? ensures NodeOk(b, i) {
      assert NodeOk(d, i);
      var ids := d[i].value.children;
      forall k | 0 <= k < |ids| ensures !Below(d, id, ids[k]) {
        if Below(d, id, ids[k]) { ParentBelow(d, id, ids[k]); }
      }
    }
  }

  /** The tree below `x`, with the subtree at `id` left out. */
  function Pruned(a: Arena, x: nat, id: nat): (t: Tree)
    requires Closed(a) && Live(a, x)
    decreases |a| - x, 1, 0
  {
    var n := a[x].value;
    assert NodeOk(a, x);
    Tree(n.name, n.props, PrunedForest(a, x, n.children, id))
  }

  function PrunedForest(a: Arena, above: nat, ids: seq<nat>, id: nat): (ts: seq<Tree>)
    requires Closed(a) && above < |a| && forall i | 0 <= i < |ids| :: above < ids[i] && Live(a, ids[i])
    decreases |a| - above, 0, |ids|
  {
    if ids == [] then []
    else (if ids[0] == id then [] else [Pruned(a, ids[0], id)]) + PrunedForest(a, above, ids[1..], id)
  }

  /** What a removal leaves of the arena: the nodes that are not below `id`, without `id` among their children. */
  ghost predicate Left(a: Arena, b: Arena, id: nat)
    requires Closed(a) && Live(a, id)
  {
    && Closed(b) && |b| == |a|
    && (forall i | 0 <= i < |a| :: b[i].Some? <==> a[i].Some? && !Below(a, id, i))
    && (forall i | 0 <= i < |a| && b[i].Some? ::
          && b[i].value.name == a[i].value.name && b[i].value.props == a[i].value.props
          && b[i].value.children == Without(a[i].value.children, id))
  }

  lemma RemoveLeaves(a: Arena, root: Option<nat>, id: nat)
    requires Closed(a) && Live(a, id) && Hangs(a, id)
    ensures Left(a, RemoveNode(a, root, id).0, id)
  {
    hide Closed, Detach, Hangs;
    DetachIs(a, id);
    var d := Detach(a, id);
    GoneClosed(d, id);
    forall i | 0 <= i < |a| ensures Below(d, id, i) <==> Below(a, id, i) {
      BelowFrame(a, d, id, i);
    }
  }

  lemma {:induction false} LeftTree(a: Arena, b: Arena, id: nat, x: nat)
    requires Closed(a) && Live(a, id) && Left(a, b, id) && Live(b, x)
    ensures Live(a, x) && TreeOf(b, x) == Pruned(a, x, id)
    decreases |a| - x, 1, 0
  {
    assert NodeOk(a, x) && NodeOk(b, x);
    LeftForest(a, b, id, x, a[x].value.children);
  }

  /** The nodes are there, with larger indices. */
  predicate Above(b: Arena, above: nat, ids: seq<nat>) {
    forall i | 0 <= i < |ids| :: above < ids[i] && Live(b, ids[i])
  }

  lemma AboveRest(b: Arena, above: nat, ids: seq<nat>)
    requires ids != [] && Above(b, above, ids)
    ensures above < ids[0] && Live(b, ids[0]) && Above(b, above, ids[1..])
  {
  }

  lemma {:induction false} LeftForest(a: Arena, b: Arena, id: nat, above: nat, ids: seq<nat>)
    requires Closed(a) && Live(a, id) && Left(a, b, id) && above < |a| == |b|
    requires Closed(b) && Above(a, above, ids) && Above(b, above, Without(ids, id))
    ensures ForestOf(b, above, Without(ids, id)) == PrunedForest(a, above, ids, id)
    decreases |a| - above, 0, |ids|
  {
    hide Left, Closed, TreeOf, Pruned;
    if ids != [] {
      var kept, rest := Without(ids, id), Without(ids[1..], id);
      AboveRest(a, above, ids);
      if ids[0] == id {
        assert kept == [] + rest == rest;
        LeftForest(a, b, id, above, ids[1..]);
        assert [] + PrunedForest(a, above, ids[1..], id) == PrunedForest(a, above, ids[1..], id);
      } else {
        assert kept == [ids[0]] + rest && kept[1..] == rest;
        AboveRest(b, above, kept);
        LeftForest(a, b, id, above, ids[1..]);
        LeftTree(a, b, id, ids[0]);
      }
    }
  }

  /** After a removal, exactly the node and what was below it are gone, and every tree that is left is what it was
      without that subtree. */
  lemma RemoveMeans(a: Arena, root: Option<nat>, id: nat, x: nat)
    requires Closed(a) && Live(a, id) && Hangs(a, id)
    ensures var b := RemoveNode(a, root, id).0;
            && Closed(b) && (Live(b, x) <==> Live(a, x) && !Below(a, id, x))
            && (Live(b, x) ==> TreeOf(b, x) == Pruned(a, x, id))
  {
    hide Closed, TreeOf, Pruned, RemoveNode;
    RemoveLeaves(a, root, id);
    if Live(RemoveNode(a, root, id).0, x) { LeftTree(a, RemoveNode(a, root, id).0, id, x); }
  }

  /** A tree that the removed node was not in is as it was. */
  lemma {:induction false} PrunedSame(a: Arena, x: nat, id: nat)
    requires Closed(a) && Live(a, x) && !Below(a, x, id)
    ensures Pruned(a, x, id) == TreeOf(a, x)
    decreases |a| - x, 1, 0
  {
    assert NodeOk(a, x);
    PrunedForestSame(a, x, a[x].value.children, id);
  }

  lemma {:induction false} PrunedForestSame(a: Arena, above: nat, ids: seq<nat>, id: nat)
    requires Closed(a) && above < |a| && forall i | 0 <= i < |ids| :: above < ids[i] && Live(a, ids[i])
    requires !BelowSome(a, above, ids, id)
    ensures PrunedForest(a, above, ids, id) == ForestOf(a, above, ids)
    decreases |a| - above, 0, |ids|
  {
    if ids != [] {
      PrunedSame(a, ids[0], id);
      PrunedForestSame(a, above, ids[1..], id);
    }
  }

  /* ---------------- The method ---------------- */

  function IdsOf(vs: seq<Visit>): (r: seq<nat>)
    ensures |r| == |vs| && forall i | 0 <= i < |vs| :: r[i] == vs[i].id
  {
    seq(|vs|, i requires 0 <= i < |vs| => vs[i].id)
  }

  /** Keeps the elements that are not `id`. */
  method Retain(ids: seq<nat>, id: nat) returns (r: seq<nat>)
    ensures r == Without(ids, id)
  {
    r := [];
    for i := 0 to |ids|
      invariant r + Without(ids[i..], id) == Without(ids, id)
    {
      RetainStep(r, ids, i, id);
      if ids[i] != id { r := r + [ids[i]]; }
    }
  }

  lemma RetainStep(r: seq<nat>, ids: seq<nat>, i: nat, id: nat)
    requires i < |ids|
    ensures r + Without(ids[i..], id) == (if ids[i] != id then r + [ids[i]] else r) + Without(ids[i + 1..], id)
  {
    assert ids[i..][0] == ids[i] && ids[i..][1..] == ids[i + 1..];
    var rest := Without(ids[i + 1..], id);
    assert Without(ids[i..], id) == (if ids[i] == id then [] else [ids[i]]) + rest;
    if ids[i] != id {
      assert r + ([ids[i]] + rest) == r + [ids[i]] + rest;
    } else {
      assert [] + rest == rest;
    }
  }

  /** The nodes from `id` on, in the order of the walk. */
  method Collect(tree: DeviceTree, id: nat) returns (todo: seq<nat>)
    requires tree.Valid() && Live(tree.arena, id)
    ensures todo == IdsOf(Preorder(tree.arena, id, 0))
  {
    hide Preorder, Closed;
    var it := new DeviceTreeIter(tree, Some(id));
    ghost var order := Preorder(tree.arena, id, 0);
    todo := [];
    var n := it.NextNode();
    while n.Some?
      invariant it.Valid() && fresh(it) && it.tree == tree && it.root == Some(id)
      invariant it.done <= |order|
      invariant if n.Some? then it.done > 0 && n == Some(order[it.done - 1].id) && todo == IdsOf(order[..it.done - 1])
                else it.done == |order| && todo == IdsOf(order)
      decreases |order| - it.done, if n.Some? then 1 else 0
    {
      todo := todo + [n.value];
      assert order[..it.done] == order[..it.done - 1] + [order[it.done - 1]];
      assert it.done == |order| ==> order[..it.done] == order;
      n := it.NextNode();
    }
  }

  method DoDetach(tree: DeviceTree, id: nat)
    requires tree.Valid() && Live(tree.arena, id) && Hangs(tree.arena, id)
    modifies tree
    ensures tree.Valid() && tree.arena == Detach(old(tree.arena), id)
    ensures tree.root == if old(tree.arena)[id].value.parent.None? then None else old(tree.root)
  {
    hide Closed, Without;
    DetachIs(tree.arena, id);
    match tree.arena[id].value.parent {
      case Some(p) =>
        tree.arena := tree.arena[id := Some(tree.arena[id].value.(parent := None))];
        var children := Retain(tree.arena[p].value.children, id);
        tree.arena := tree.arena[p := Some(tree.arena[p].value.(children := children))];
      case None =>
        tree.root := None;
    }
  }

  method Erase(tree: DeviceTree, todo: seq<nat>)
    requires forall i | 0 <= i < |todo| :: todo[i] < |tree.arena|
    modifies tree
    ensures tree.root == old(tree.root) && |tree.arena| == |old(tree.arena)|
    ensures forall j | 0 <= j < |tree.arena| :: tree.arena[j] == if j in todo then None else old(tree.arena)[j]
  {
    for i := 0 to |todo|
      invariant tree.root == old(tree.root) && |tree.arena| == |old(tree.arena)|
      invariant forall j | 0 <= j < |tree.arena| :: tree.arena[j] == if j in todo[..i] then None else old(tree.arena)[j]
    {
      tree.arena := tree.arena[todo[i] := None];
    }
  }

  /** The ids of the walk are those below the node. */
  lemma IdsAreBelow(d: Arena, id: nat, j: nat)
    requires Closed(d) && Live(d, id)
    ensures j in IdsOf(Preorder(d, id, 0)) <==> Below(d, id, j)
    ensures Below(d, id, j) ==> j < |d|
  {
    hide Preorder, Below, Closed;
    WalkVisitsBelow(d, id, 0, j);
    if Below(d, id, j) { ParentBelow(d, id, j); }
    var vs := Preorder(d, id, 0);
    if Visits(vs, j) {
      var i :| 0 <= i < |vs| && vs[i].id == j;
      assert IdsOf(vs)[i] == j;
    }
  }

  method DoRemoveNode(tree: DeviceTree, id: nat) returns (r: Result<()>)
    requires tree.Valid() && (Live(tree.arena, id) ==> Hangs(tree.arena, id))
    modifies tree
    ensures tree.Valid() && (tree.arena, tree.root, r) == RemoveNode(old(tree.arena), old(tree.root), id)
  {
    if id >= |tree.arena| || tree.arena[id].None? { return Err(InvalidNodeId); }
    hide Closed, Detach, Hangs, Preorder, Below, Gone, IdsOf;
    DetachIs(tree.arena, id);
    DoDetach(tree, id);
    ghost var d := tree.arena;
    var todo := Collect(tree, id);
    forall i | 0 <= i < |todo| ensures todo[i] < |d| {
      IdsAreBelow(d, id, todo[i]);
    }
    GoneClosed(d, id);
    Erase(tree, todo);
    Erased(d, id, tree.arena);
    if tree.root.Some? { RootStays(d, id, tree.root.value); }
    return Ok(());
  }

  lemma Erased(d: Arena, id: nat, e: Arena)
    requires Closed(d) && Live(d, id) && |e| == |d|
    requires forall j | 0 <= j < |e| :: e[j] == if j in IdsOf(Preorder(d, id, 0)) then None else d[j]
    ensures e == Gone(d, id)
  {
    hide Closed, Preorder, Below, IdsOf;
    forall j | 0 <= j < |e| ensures e[j] == Gone(d, id)[j] {
      IdsAreBelow(d, id, j);
    }
  }

  /** A node without a parent is below no other. */
  lemma RootStays(d: Arena, id: nat, root: nat)
    requires Closed(d) && Live(d, id) && Live(d, root) && d[root].value.parent.None? && root != id
    ensures !Below(d, id, root)
  {
    if Below(d, id, root) { ParentBelow(d, id, root); }
  }
}
