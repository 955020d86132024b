/** Building a device tree: adding nodes and properties to the arena, and the loop that turns the tokens of a
    flattened tree into nodes. */
module DeviceTreeBuild {
  import opened Basics
  import opened DeviceTrees

  /** What add_node does: the arena and the root afterwards, and the new node or an error. A node that is
      refused stays in the arena, unreachable. */
  function AddNode(a: Arena, root: Option<nat>, name: seq<byte>,
                   parent: Option<nat>): (r: (Arena, Option<nat>, Result<nat>)) {
    var id := |a|;
    var b := a + [Some(Node(name, parent, [], []))];
    match parent
    case Some(p) =>
      if !Live(a, p) then (b, root, Err(InvalidNodeId))
      else (b[p := Some(a[p].value.(children := a[p].value.children + [id]))], root, Ok(id))
    case None =>
      if root.None? then (b, Some(id), Ok(id)) else (b, root, Err(InvalidNodeId))
  }

  /** The new node is a leaf under its parent, behind the children that were there; nothing else changes. */
  lemma AddNodeClosed(a: Arena, root: Option<nat>, name: seq<byte>, parent: Option<nat>)
    requires Closed(a)
    ensures var (b, r, id) := AddNode(a, root, name, parent);
            && Closed(b) && |b| == |a| + 1 && Live(b, |a|)
            && b[|a|] == Some(Node(name, parent, [], []))
            && (forall i | 0 <= i < |a| && (parent != Some(i) || id.Err?) :: b[i] == a[i])
            && (id.Ok? ==> id == Ok(|a|))
            && (id.Ok? && parent.Some? ==>
                  Live(a, parent.value)
                    && b[parent.value] ==
                       Some(a[parent.value].value.(children := a[parent.value].value.children + [|a|])))
            && r == (if id.Ok? && parent.None? then Some(|a|) else root)
  {
    var (b, r, id) := AddNode(a, root, name, parent);
    forall i | 0 <= i < |b| && b[i].Some? ensures NodeOk(b, i) {
      if i < |a| { assert NodeOk(a, i); }
    }
  }

  function AddProp(a: Arena, id: nat, prop: Prop): (b: Arena)
    requires Live(a, id)
  {
    a[id := Some(a[id].value.(props := a[id].value.props + [prop]))]
  }

  lemma AddPropClosed(a: Arena, id: nat, prop: Prop)
    requires Closed(a) && Live(a, id)
    ensures Closed(AddProp(a, id, prop))
  {
    var b := AddProp(a, id, prop);
    forall i | 0 <= i < |b| && b[i].Some? ensures NodeOk(b, i) {
      assert NodeOk(a, i);
    }
  }

  /* ---------------- From tokens to nodes ---------------- */

  /** The tree so far and the node that is open. */
  datatype Builder = Builder(arena: Arena, root: Option<nat>, parent: Option<nat>)

  function Feed(b: Builder, token: Token): (r: Result<Builder>)
    requires b.parent.Some? ==> Live(b.arena, b.parent.value)
    ensures r.Ok? && r.value.parent.Some? ==> Live(r.value.arena, r.value.parent.value) || token.End?
  {
    match token
    case Begin(name) =>
      var (a, root, id) := AddNode(b.arena, b.root, name, b.parent);
      (match id case Err(e) => Err(e) case Ok(n) => Ok(Builder(a, root, Some(n))))
    case End =>
      if b.parent.None? then Err(MalformedFdt)
      else Ok(b.(parent := b.arena[b.parent.value].value.parent))
    case Property(prop) =>
      if b.parent.None? then Err(MalformedFdt)
      else Ok(b.(arena := AddProp(b.arena, b.parent.value, prop)))
  }

  predicate Ready(b: Builder) {
    b.parent.Some? ==> Live(b.arena, b.parent.value)
  }

  function FeedAll(b: Builder, tokens: seq<Token>): (r: Result<Builder>)
    requires Ready(b)
    decreases |tokens|
  {
    if tokens == [] then Ok(b)
    else match Feed(b, tokens[0])
      case Err(e) => Err(e)
      case Ok(c) => if !Ready(c) then Err(MalformedFdt) else FeedAll(c, tokens[1..])
  }

  lemma {:induction false} FeedParts(b: Builder, xs: seq<Token>, ys: seq<Token>, c: Builder)
    requires Ready(b) && FeedAll(b, xs) == Ok(c) && Ready(c)
    ensures FeedAll(b, xs + ys) == FeedAll(c, ys)
    decreases |xs|
  {
    if xs == [] {
      assert xs + ys == ys;
    } else {
      assert (xs + ys)[1..] == xs[1..] + ys;
      FeedParts(Feed(b, xs[0]).value, xs[1..], ys, c);
    }
  }

  function AddProps(a: Arena, id: nat, props: seq<Prop>): (b: Arena)
    requires Live(a, id)
  {
    a[id := Some(a[id].value.(props := a[id].value.props + props))]
  }

  lemma AddPropsStep(a: Arena, id: nat, props: seq<Prop>)
    requires Live(a, id) && props != []
    ensures AddProps(AddProp(a, id, props[0]), id, props[1..]) == AddProps(a, id, props)
  {
    var n := a[id].value;
    assert n.props + [props[0]] + props[1..] == n.props + props;
  }

  /** Feeding properties adds them to the open node. */
  lemma {:induction false} FeedProps(b: Builder, props: seq<Prop>)
    requires b.parent.Some? && Live(b.arena, b.parent.value)
    ensures FeedAll(b, PropTokens(props)) == Ok(b.(arena := AddProps(b.arena, b.parent.value, props)))
    decreases |props|
  {
    hide AddNode;
    var p := b.parent.value;
    if props == [] {
      assert b.arena[p].value.props + props == b.arena[p].value.props;
      assert AddProps(b.arena, p, props) == b.arena;
    } else {
      var c := b.(arena := AddProp(b.arena, p, props[0]));
      assert PropTokens(props)[0] == Property(props[0]) && PropTokens(props)[1..] == PropTokens(props[1..]);
      assert Feed(b, Property(props[0])) == Ok(c);
      FeedProps(c, props[1..]);
      AddPropsStep(b.arena, p, props);
    }
  }

  /** The nodes `ids`, all of them new, are the trees `ts`. */
  ghost predicate Hold(a: Arena, above: nat, ids: seq<nat>, ts: seq<Tree>)
    requires Closed(a)
  {
    |ids| == |ts| && forall i | 0 <= i < |ids| :: above <= ids[i] && Live(a, ids[i]) && TreeOf(a, ids[i]) == ts[i]
  }

  /** The builder after it was fed a whole tree below the open node `p`: the tree hangs there as the last child,
      and nothing that was in the arena before has changed otherwise. */
  ghost predicate Grown(b: Builder, c: Builder, ts: seq<Tree>)
    requires b.parent.Some? && Live(b.arena, b.parent.value)
  {
    var p := b.parent.value;
    && c.parent == b.parent && c.root == b.root
    && |b.arena| <= |c.arena| && Closed(c.arena) && Live(c.arena, p)
    && (forall i | 0 <= i < |b.arena| && i != p :: c.arena[i] == b.arena[i])
    && c.arena[p].value.(children := b.arena[p].value.children) == b.arena[p].value
    && var n := |b.arena[p].value.children|;
       && n <= |c.arena[p].value.children|
       && c.arena[p].value.children[..n] == b.arena[p].value.children
       && Hold(c.arena, |b.arena|, c.arena[p].value.children[n..], ts)
  }

  /** The builder with a new node under the open one, or as the root, which is then open itself. */
  function Opened(b: Builder, t: Tree): (c: Builder)
    requires Ready(b)
  {
    var (a, root, id) := AddNode(b.arena, b.root, t.name, b.parent);
    Builder(if Live(a, |b.arena|) then AddProps(a, |b.arena|, t.props) else a, root, Some(|b.arena|))
  }

  lemma OpenedIs(b: Builder, t: Tree)
    requires Ready(b) && Closed(b.arena) && (b.parent.Some? || b.root.None?)
    ensures var c := Opened(b, t);
            && Ready(c) && Closed(c.arena) && |c.arena| == |b.arena| + 1
            && c.arena[|b.arena|] == Some(Node(t.name, b.parent, [], t.props))
            && (forall i | 0 <= i < |b.arena| && b.parent != Some(i) :: c.arena[i] == b.arena[i])
            && (b.parent.Some? ==>
                  && c.root == b.root
                  && c.arena[b.parent.value] ==
                     Some(b.arena[b.parent.value].value.(children := b.arena[b.parent.value].value.children
                                                         + [|b.arena|])))
            && (b.parent.None? ==> c.root == Some(|b.arena|))
            && c.parent == Some(|b.arena|) && FeedAll(b, [Begin(t.name)] + PropTokens(t.props)) == Ok(c)
  {
    AddNodeClosed(b.arena, b.root, t.name, b.parent);
    var (a, root, id) := AddNode(b.arena, b.root, t.name, b.parent);
    var o := Builder(a, root, Some(|b.arena|));
    assert Feed(b, Begin(t.name)) == Ok(o);
    assert [] + t.props == t.props;
    AddPropsClosed(a, |b.arena|, t.props);
    hide Closed, NodeOk, AddNode, AddProps;
    FeedProps(o, t.props);
    var all := [Begin(t.name)] + PropTokens(t.props);
    assert all[0] == Begin(t.name) && all[1..] == PropTokens(t.props);
  }

  lemma AddPropsClosed(a: Arena, id: nat, props: seq<Prop>)
    requires Closed(a) && Live(a, id)
    ensures Closed(AddProps(a, id, props))
  {
    var b := AddProps(a, id, props);
    forall i | 0 <= i < |b| && b[i].Some? ensures NodeOk(b, i) {
      assert NodeOk(a, i);
    }
  }

  lemma {:induction false} ForestIs(a: Arena, above: nat, ids: seq<nat>, ts: seq<Tree>)
    requires Closed(a) && above < |a| && |ids| == |ts|
    requires forall i | 0 <= i < |ids| :: above < ids[i] && Live(a, ids[i]) && TreeOf(a, ids[i]) == ts[i]
    ensures ForestOf(a, above, ids) == ts
    decreases |ids|
  {
    if ids != [] {
      ForestIs(a, above, ids[1..], ts[1..]);
    }
  }

  /** Feeding the tokens of trees hangs those trees below the open node. */
  lemma {:induction false} FeedForest(b: Builder, ts: seq<Tree>) returns (c: Builder)
    requires b.parent.Some? && Live(b.arena, b.parent.value) && Closed(b.arena)
    ensures FeedAll(b, ForestTokens(ts)) == Ok(c) && Grown(b, c, ts)
    decreases ts, 0
  {
    if ts == [] {
      c := b;
    } else {
      var d := FeedTree(b, ts[0]);
      c := FeedForest(d, ts[1..]);
      FeedParts(b, Tokens(ts[0]), ForestTokens(ts[1..]), d);
      GrownMore(b, d, c, ts);
    }
  }

  lemma GrownMore(b: Builder, d: Builder, c: Builder, ts: seq<Tree>)
    requires b.parent.Some? && Live(b.arena, b.parent.value) && ts != []
    requires Grown(b, d, [ts[0]]) && Grown(d, c, ts[1..])
    ensures Grown(b, c, ts)
  {
    hide Closed;
    var p := b.parent.value;
    var n := |b.arena[p].value.children|;
    var mid, added := d.arena[p].value.children, c.arena[p].value.children;
    assert |mid| == n + 1 && mid[n..] == [mid[n]];
    assert added[..n] == added[..n + 1][..n] == mid[..n];
    assert added[n..] == [mid[n]] + added[n + 1..] by {
      assert added[n] == added[..n + 1][n];
    }
    FirstHangs(d.arena, p, n);
    TreeFrame(d.arena, c.arena, mid[n]);
    HoldMore(c.arena, |b.arena|, |d.arena|, mid[n], added[n + 1..], ts);
  }

  lemma FirstHangs(a: Arena, p: nat, n: nat)
    requires Closed(a) && Live(a, p) && n < |a[p].value.children|
    ensures p < a[p].value.children[n] && Live(a, a[p].value.children[n])
  {
    assert NodeOk(a, p);
  }

  lemma HoldMore(a: Arena, above: nat, above2: nat, first: nat, rest: seq<nat>, ts: seq<Tree>)
    requires Closed(a) && ts != [] && above <= above2 && above <= first && Live(a, first) && TreeOf(a, first) == ts[0]
    requires Hold(a, above2, rest, ts[1..])
    ensures Hold(a, above, [first] + rest, ts)
  {
    hide Closed;
    forall i | 0 <= i < |[first] + rest|
      ensures above <= ([first] + rest)[i] && Live(a, ([first] + rest)[i]) && TreeOf(a, ([first] + rest)[i]) == ts[i]
    {
      if i > 0 { assert ts[i] == ts[1..][i - 1]; }
    }
  }

  lemma FeedEnd(d: Builder)
    requires d.parent.Some? && Live(d.arena, d.parent.value)
    requires Ready(d.(parent := d.arena[d.parent.value].value.parent))
    ensures FeedAll(d, [End]) == Ok(d.(parent := d.arena[d.parent.value].value.parent))
  {
    assert [End][1..] == [];
    assert Feed(d, End) == Ok(d.(parent := d.arena[d.parent.value].value.parent));
  }

  /** Feeding the tokens of a tree, from its first to its last: afterwards the new node is the tree. */
  lemma {:induction false} FeedWhole(b: Builder, t: Tree) returns (c: Builder)
    requires Ready(b) && Closed(b.arena) && (b.parent.Some? || b.root.None?)
    ensures FeedAll(b, Tokens(t)) == Ok(c) && c.parent == b.parent
    ensures c.root == if b.parent.None? then Some(|b.arena|) else b.root
    ensures |b.arena| < |c.arena| && Closed(c.arena) && Live(c.arena, |b.arena|) && TreeOf(c.arena, |b.arena|) == t
    ensures forall i | 0 <= i < |b.arena| :: c.arena[i] == Opened(b, t).arena[i]
    decreases t, 0
  {
    hide Opened, ForestTokens, PropTokens, ForestOf, FeedAll;
    OpenedIs(b, t);
    var n, o := |b.arena|, Opened(b, t);
    var d := FeedForest(o, t.children);
    c := d.(parent := b.parent);
    var begin, rest := [Begin(t.name)] + PropTokens(t.props), ForestTokens(t.children);
    FeedEnd(d);
    FeedParts(o, rest, [End], d);
    FeedParts(b, begin, rest + [End], o);
    assert Tokens(t) == begin + (rest + [End]);
    assert NodeOk(d.arena, n);
    assert d.arena[n].value.children[0..] == d.arena[n].value.children;
    ForestIs(d.arena, n, d.arena[n].value.children, t.children);
  }

  lemma {:induction false} FeedTree(b: Builder, t: Tree) returns (c: Builder)
    requires b.parent.Some? && Live(b.arena, b.parent.value) && Closed(b.arena)
    ensures FeedAll(b, Tokens(t)) == Ok(c) && Grown(b, c, [t])
    decreases t, 1
  {
    OpenedIs(b, t);
    c := FeedWhole(b, t);
    var p := b.parent.value;
    var n := |b.arena[p].value.children|;
    assert c.arena[p].value.children[..n] == b.arena[p].value.children;
    assert c.arena[p].value.children[n..] == [|b.arena|];
  }

  /** Built from the tokens of a tree, the arena holds exactly that tree, with every node closed again. */
  lemma BuildInvertsTokens(t: Tree)
    ensures var r := FeedAll(Builder([], None, None), Tokens(t));
            && r.Ok? && r.value.root == Some(0) && r.value.parent == None
            && Closed(r.value.arena) && Live(r.value.arena, 0) && TreeOf(r.value.arena, 0) == t
  {
    var c := FeedWhole(Builder([], None, None), t);
  }

  /* ---------------- Names ---------------- */

  /** Names are kept without the zero that ends them, which a name may be given with or without. */
  function StripName(name: seq<byte>): (r: seq<byte>)
    ensures r + [0] == name || (r == name && (name == [] || name[|name| - 1] != 0))
  {
    if name != [] && name[|name| - 1] == 0 then name[..|name| - 1] else name
  }

  function Strip(t: Token): (r: Token) {
    match t
    case Begin(name) => Begin(StripName(name))
    case Property(prop) => Property(Prop(StripName(prop.name), prop.value))
    case End => End
  }

  function Strips(ts: seq<Token>): (r: seq<Token>)
    ensures |r| == |ts| && forall i | 0 <= i < |ts| :: r[i] == Strip(ts[i])
  {
    seq(|ts|, i requires 0 <= i < |ts| => Strip(ts[i]))
  }

  /* ---------------- The object ---------------- */

  class DeviceTree {
    var arena: Arena
    var root: Option<nat>

    ghost predicate Valid()
      reads this
    {
      Closed(arena) && (root.Some? ==> Live(arena, root.value) && arena[root.value].value.parent.None?)
    }

    constructor ()
      ensures Valid() && arena == [] && root == None
    {
      arena, root := [], None;
    }

    /** A name that is given with the byte that ends it is the name without. */
    method AddNewNode(given: seq<byte>, parent: Option<nat>) returns (r: Result<nat>)
      requires Valid() && (parent.Some? ==> parent.value < |arena|)
      modifies this
      ensures Valid() && (arena, root, r) == AddNode(old(arena), old(root), StripName(given), parent)
    {
      var name := StripName(given);
      AddNodeClosed(arena, root, name, parent);
      var id := |arena|;
      arena := arena + [Some(Node(name, None, [], []))];
      match parent {
        case Some(p) =>
          arena := arena[id := Some(arena[id].value.(parent := parent))];
          assert arena == old(arena) + [Some(Node(name, parent, [], []))];
          if arena[p].None? { return Err(InvalidNodeId); }
          arena := arena[p := Some(arena[p].value.(children := arena[p].value.children + [id]))];
        case None =>
          if root.None? {
            root := Some(id);
          } else {
            return Err(InvalidNodeId);
          }
      }
      return Ok(id);
    }

    method AddNewProp(id: nat, given: Prop)
      requires Valid() && Live(arena, id)
      modifies this`arena
      ensures Valid() && arena == AddProp(old(arena), id, Prop(StripName(given.name), given.value))
    {
      var prop := Prop(StripName(given.name), given.value);
      AddPropClosed(arena, id, prop);
      arena := arena[id := Some(arena[id].value.(props := arena[id].value.props + [prop]))];
    }
  }

  /** Builds a tree from the tokens of a flattened one. */
  method FromTokens(tokens: seq<Token>) returns (t: DeviceTree, r: Result<()>)
    ensures t.Valid()
    ensures match FeedAll(Builder([], None, None), Strips(tokens))
            case Ok(b) => r == Ok(()) && t.arena == b.arena && t.root == b.root
            case Err(e) => r == Err(e)
  {
    t := new DeviceTree();
    var parent: Option<nat> := None;
    ghost var ts := Strips(tokens);
    assert ts[0..] == ts;
    for i := 0 to |tokens|
      invariant t.Valid() && fresh(t) && Ready(Builder(t.arena, t.root, parent)) && Rooted(t.arena)
      invariant FeedAll(Builder([], None, None), ts) == FeedAll(Builder(t.arena, t.root, parent), ts[i..])
    {
      assert ts[i..][0] == ts[i] == Strip(tokens[i]) && ts[i..][1..] == ts[i + 1..];
      match tokens[i] {
        case Begin(name) =>
          RootedAdd(t.arena, t.root, StripName(name), parent);
          var id := t.AddNewNode(name, parent);
          if id.Err? { return t, Err(id.error); }
          parent := Some(id.value);
        case End =>
          if parent.None? { return t, Err(MalformedFdt); }
          parent := t.arena[parent.value].value.parent;
        case Property(prop) =>
          if parent.None? { return t, Err(MalformedFdt); }
          t.AddNewProp(parent.value, prop);
      }
    }
    return t, Ok(());
  }

  /** Every node's parent is in the arena, so that going up never fails. */
  predicate Rooted(a: Arena) {
    forall i | 0 <= i < |a| && a[i].Some? && a[i].value.parent.Some? :: Live(a, a[i].value.parent.value)
  }

  lemma RootedAdd(a: Arena, root: Option<nat>, name: seq<byte>, parent: Option<nat>)
    requires Rooted(a) && (parent.Some? ==> Live(a, parent.value))
    ensures Rooted(AddNode(a, root, name, parent).0)
  {
    var b := AddNode(a, root, name, parent).0;
    forall i | 0 <= i < |b| && b[i].Some? && b[i].value.parent.Some? ensures Live(b, b[i].value.parent.value) {
      if i < |a| { assert a[i].Some? && b[i].value.parent == a[i].value.parent; }
    }
  }
}
