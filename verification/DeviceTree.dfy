/** Device trees: the tree as a value, as a flat sequence of tokens, and as an arena of nodes that refer to each
    other by index. Indices are handed out in order and never used again, so that a child always has a
    larger index than its parent. */
module DeviceTrees {
  import opened Basics

  type byte = x: int | 0 <= x < 256

  datatype Error = InvalidNodeId | MalformedFdt

  type Result<+T> = Fallible<T, Error>

  datatype Prop = Prop(name: seq<byte>, value: seq<byte>)

  datatype Tree = Tree(name: seq<byte>, props: seq<Prop>, children: seq<Tree>)

  datatype Token = Begin(name: seq<byte>) | Property(prop: Prop) | End

  function PropTokens(props: seq<Prop>): (r: seq<Token>)
    ensures |r| == |props|
  {
    if props == [] then [] else [Property(props[0])] + PropTokens(props[1..])
  }

  function Tokens(t: Tree): (r: seq<Token>)
    decreases t, 1
  {
    [Begin(t.name)] + PropTokens(t.props) + ForestTokens(t.children) + [End]
  }

  function ForestTokens(ts: seq<Tree>): (r: seq<Token>)
    decreases ts, 0
  {
    if ts == [] then [] else Tokens(ts[0]) + ForestTokens(ts[1..])
  }

  /* ---------------- The arena ---------------- */

  datatype Node = Node(name: seq<byte>, parent: Option<nat>, children: seq<nat>, props: seq<Prop>)

  type Arena = seq<Option<Node>>

  predicate Live(a: Arena, id: nat) { id < |a| && a[id].Some? }

  /** The children of a node are there, have it as their parent, and were added in order. */
  predicate NodeOk(a: Arena, id: nat)
    requires Live(a, id)
  {
    var n := a[id].value;
    && (forall i | 0 <= i < |n.children| :: id < n.children[i] && Live(a, n.children[i])
                                            && a[n.children[i]].value.parent == Some(id))
    && (forall i, j | 0 <= i < j < |n.children| :: n.children[i] < n.children[j])
  }

  predicate Closed(a: Arena) {
    forall id | 0 <= id < |a| && a[id].Some? :: NodeOk(a, id)
  }

  /** The tree below a node. */
  function TreeOf(a: Arena, id: nat): (t: Tree)
    requires Closed(a) && Live(a, id)
    decreases |a| - id, 1, 0
  {
    var n := a[id].value;
    assert NodeOk(a, id);
    Tree(n.name, n.props, ForestOf(a, id, n.children))
  }

  function ForestOf(a: Arena, above: nat, ids: seq<nat>): (ts: seq<Tree>)
    requires Closed(a) && above < |a| && forall i | 0 <= i < |ids| :: above < ids[i] && Live(a, ids[i])
    ensures |ts| == |ids|
    decreases |a| - above, 0, |ids|
  {
    if ids == [] then [] else [TreeOf(a, ids[0])] + ForestOf(a, above, ids[1..])
  }

  /** What lies below node `id` depends only on nodes with indices from `id` on. */
  lemma {:induction false} TreeFrame(a: Arena, b: Arena, id: nat)
    requires Closed(a) && Closed(b) && Live(a, id) && |a| <= |b|
    requires forall i | id <= i < |a| :: b[i] == a[i]
    ensures Live(b, id) && TreeOf(b, id) == TreeOf(a, id)
    decreases |a| - id, 1, 0
  {
    assert NodeOk(a, id);
    ForestFrame(a, b, id, a[id].value.children);
  }

  lemma {:induction false} ForestFrame(a: Arena, b: Arena, above: nat, ids: seq<nat>)
    requires Closed(a) && Closed(b) && above < |a| <= |b|
    requires forall i | above < i < |a| :: b[i] == a[i]
    requires forall i | 0 <= i < |ids| :: above < ids[i] && Live(a, ids[i])
    ensures forall i | 0 <= i < |ids| :: Live(b, ids[i])
    ensures ForestOf(b, above, ids) == ForestOf(a, above, ids)
    decreases |a| - above, 0, |ids|
  {
    if ids != [] {
      TreeFrame(a, b, ids[0]);
      ForestFrame(a, b, above, ids[1..]);
    }
  }
}
