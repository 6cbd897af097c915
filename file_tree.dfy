/**
 * The recursive `FileTree` renderer. directory-structure.tsx, structure.tsx and
 * prisma-structure.tsx each declare an identical copy; they differ only in the
 * glyph printed before a description, which is the parameter `sep` here.
 *
 * A call renders one node as one row and then, when the node has a `children`
 * field, renders every child one level deeper. The markup is abstracted to a
 * `Row` record: the pixel indentation, the set of x positions at which a
 * vertical connector is drawn (each line is an absolute `h-full` element in the
 * node's container), the icon, the bold flag, the optional description suffix,
 * whether a children container is emitted, and the render context the node was
 * called with (`isLast` and the ancestry list `parentIsLast`).
 */
module FileTree {
  import opened Wrappers
  import opened Strings

  datatype NodeType = File | Directory

  /** `DirectoryNode`: `description` and `children` are optional fields. */
  datatype Node = Node(name: string, kind: NodeType, description: Option<string>, children: Children)

  /** The optional `children` field: absent, or present (possibly as an empty array). */
  datatype Children = Absent | Present(nodes: seq<Node>)

  datatype Icon = FolderIcon | FileIcon

  datatype Row = Row(
    name: string,
    level: nat,
    indent: int,
    lines: set<int>,
    icon: Icon,
    bold: bool,
    suffix: Option<string>,
    isLast: bool,
    ancestry: seq<bool>,
    container: bool)

  /** Pixels per indentation level, and how far left of a level's indent its connector sits. */
  const Step := 24
  const Inset := 20

  /** The x position of the connector belonging to level `m`: `m * 24 - 20`. */
  function Column(m: int): int {
    m * Step - Inset
  }

  /**
   * The connector lines of a node: nothing at level 0; otherwise one line at
   * `(idx + 1) * 24 - 20` for every flag of `parentIsLast.slice(0, -1)` that is
   * false, and the node's own line at `level * 24 - 20` when it is not the last sibling.
   */
  function Connectors(level: nat, isLast: bool, ancestry: seq<bool>): (lines: set<int>)
    ensures level == 0 ==> lines == {}
    ensures |ancestry| == level ==>
      forall m :: 1 <= m < level ==> (Column(m) in lines <==> !ancestry[m - 1])
    ensures |ancestry| == level && level > 0 ==> (Column(level) in lines <==> !isLast)
    ensures |ancestry| == level ==>
      forall c :: c in lines ==> exists m :: 1 <= m <= level && c == Column(m)
  {
    if level == 0 then {}
    else
      (set idx | 0 <= idx < |ancestry| - 1 && !ancestry[idx] :: Column(idx + 1))
      + (if isLast then {} else {Column(level)})
  }

  /** The connectors never look at the last ancestry flag, which is the parent's own `isLast`. */
  lemma ParentFlagIgnored(level: nat, isLast: bool, ancestry: seq<bool>, b: bool)
    requires |ancestry| >= 1
    ensures Connectors(level, isLast, ancestry[..|ancestry| - 1] + [b]) == Connectors(level, isLast, ancestry)
  {
    var other := ancestry[..|ancestry| - 1] + [b];
    assert forall idx :: 0 <= idx < |ancestry| - 1 ==> other[idx] == ancestry[idx];
  }

  /** `FileIcon`: the folder icon for a directory, the file icon for anything else. */
  function FileIconOf(kind: NodeType): (icon: Icon)
    ensures icon == FolderIcon <==> kind == Directory
  {
    if kind == Directory then FolderIcon else FileIcon
  }

  /** The muted description text, shown only for a present, non-empty description. */
  function Suffix(sep: string, description: Option<string>): (s: Option<string>)
    ensures s.Some? <==> Truthy(description)
    ensures s.Some? ==> s.value == sep + description.value
  {
    if Truthy(description) then Some(sep + description.value) else None
  }

  /** The row one `FileTree` call draws for its own node. */
  function RowOf(sep: string, n: Node, level: nat, isLast: bool, ancestry: seq<bool>): Row {
    Row(n.name, level, level * Step, Connectors(level, isLast, ancestry), FileIconOf(n.kind),
        n.kind == Directory, Suffix(sep, n.description), isLast, ancestry, n.children.Present?)
  }

  /** `FileTree({item: n, level, isLast, parentIsLast: ancestry})`, flattened to its rows in document order. */
  function Rows(sep: string, n: Node, level: nat, isLast: bool, ancestry: seq<bool>): seq<Row>
    decreases n
  {
    [RowOf(sep, n, level, isLast, ancestry)]
    + match n.children
      case Absent => []
      case Present(kids) => ChildRows(sep, kids, level + 1, ancestry + [isLast])
  }

  /**
   * `kids.map(...)` inside a parent: each child at the given level, the last one
   * flagged. Recursing on the remaining suffix, a child is the last exactly when
   * it is the only one left, which is `index === length - 1`.
   */
  function ChildRows(sep: string, kids: seq<Node>, level: nat, ancestry: seq<bool>): seq<Row>
    decreases kids
  {
    if kids == [] then []
    else Rows(sep, kids[0], level, |kids| == 1, ancestry) + ChildRows(sep, kids[1..], level, ancestry)
  }

  /** The root's row, then its children's blocks at level 1 under the root's default flag. */
  lemma RenderUnfold(sep: string, root: Node)
    requires root.children.Present?
    ensures Render(sep, root) == [RowOf(sep, root, 0, false, [])] + ChildRows(sep, root.children.nodes, 1, [false])
  {
    assert [] + [false] == [false];
  }

  /** A node without `children` draws its own row only. */
  lemma LeafRows(sep: string, n: Node, level: nat, isLast: bool, ancestry: seq<bool>)
    requires n.children.Absent?
    ensures Rows(sep, n, level, isLast, ancestry) == [RowOf(sep, n, level, isLast, ancestry)]
  {
  }

  /** The rows of a children array: its first child's block, flagged last when it is alone, then the rest. */
  lemma ChildRowsCons(sep: string, k: Node, rest: seq<Node>, level: nat, ancestry: seq<bool>)
    ensures ChildRows(sep, [k] + rest, level, ancestry)
         == Rows(sep, k, level, rest == [], ancestry) + ChildRows(sep, rest, level, ancestry)
  {
    assert ([k] + rest)[1..] == rest;
  }

  /** The page's call `<FileTree item={root} />`: level 0, default `isLast = false`, empty ancestry. */
  function Render(sep: string, root: Node): seq<Row> {
    Rows(sep, root, 0, false, [])
  }

  /** Literal shorthands: a directory with a `children` array, a directory without one, a file. */
  function Dir(name: string, description: string, kids: seq<Node>): Node {
    Node(name, Directory, Some(description), Present(kids))
  }

  function Folder(name: string, description: string): Node {
    Node(name, Directory, Some(description), Absent)
  }

  function Leaf(name: string, description: string): Node {
    Node(name, File, Some(description), Absent)
  }

  /** Reference definition: the nodes of a tree in depth-first order, children taken whenever the field exists. */
  function Preorder(n: Node): seq<Node>
  {
    [n] + match n.children
          case Absent => []
          case Present(kids) => PreorderList(kids)
  }

  function PreorderList(kids: seq<Node>): seq<Node>
    decreases kids
  {
    if kids == [] then [] else Preorder(kids[0]) + PreorderList(kids[1..])
  }

  /** How many levels a tree reaches below its root. */
  function Depth(n: Node): nat {
    match n.children
    case Absent => 0
    case Present(kids) => if kids == [] then 0 else 1 + DepthList(kids)
  }

  function DepthList(kids: seq<Node>): nat
    decreases kids
  {
    if kids == [] then 0
    else var d, e := Depth(kids[0]), DepthList(kids[1..]); if d < e then e else d
  }

  /** Children none of which has a `children` field of its own. */
  predicate Flat(kids: seq<Node>) {
    forall i :: 0 <= i < |kids| ==> kids[i].children.Absent?
  }

  /** Childless nodes reach no level below them and contribute one node each. */
  lemma {:induction false} FlatList(kids: seq<Node>)
    requires Flat(kids)
    ensures DepthList(kids) == 0 && |PreorderList(kids)| == |kids|
    decreases kids
  {
    if kids != [] {
      assert kids[0].children.Absent?;
      assert Flat(kids[1..]) by {
        forall i | 0 <= i < |kids[1..]| ensures kids[1..][i].children.Absent? {
          assert kids[1..][i] == kids[i + 1];
        }
      }
      FlatList(kids[1..]);
    }
  }

  /** A directory of childless nodes reaches one level down and counts itself and its children. */
  lemma FlatDir(n: Node)
    requires n.children.Present? && n.children.nodes != [] && Flat(n.children.nodes)
    ensures Depth(n) == 1 && |Preorder(n)| == 1 + |n.children.nodes|
  {
    FlatList(n.children.nodes);
  }

  /** Children all of one depth give the list that depth. */
  lemma {:induction false} UniformDepth(kids: seq<Node>, d: nat)
    requires kids != [] && forall i :: 0 <= i < |kids| ==> Depth(kids[i]) == d
    ensures DepthList(kids) == d
    decreases kids
  {
    if |kids| > 1 {
      assert forall i :: 0 <= i < |kids[1..]| ==> kids[1..][i] == kids[i + 1];
      UniformDepth(kids[1..], d);
    }
  }

  function Sum(xs: seq<nat>): nat {
    if xs == [] then 0 else xs[0] + Sum(xs[1..])
  }

  /** The preorder of a list is as long as the preorders of its members together. */
  lemma {:induction false} ListSizes(kids: seq<Node>, sizes: seq<nat>)
    requires |kids| == |sizes|
    requires forall i :: 0 <= i < |kids| ==> |Preorder(kids[i])| == sizes[i]
    ensures |PreorderList(kids)| == Sum(sizes)
    decreases kids
  {
    if kids != [] {
      assert forall i :: 0 <= i < |kids[1..]| ==> kids[1..][i] == kids[i + 1] && sizes[1..][i] == sizes[i + 1];
      ListSizes(kids[1..], sizes[1..]);
    }
  }

  /** No row is deeper than the subtree's level plus its depth. */
  lemma {:induction false} RowsWithinDepth(sep: string, n: Node, level: nat, isLast: bool, ancestry: seq<bool>)
    ensures forall i :: 0 <= i < |Rows(sep, n, level, isLast, ancestry)| ==>
      level <= Rows(sep, n, level, isLast, ancestry)[i].level <= level + Depth(n)
    decreases n
  {
    match n.children
    case Absent =>
    case Present(kids) =>
      var rows := Rows(sep, n, level, isLast, ancestry);
      var tail := ChildRows(sep, kids, level + 1, ancestry + [isLast]);
      ChildRowsWithinDepth(sep, kids, level + 1, ancestry + [isLast]);
      assert rows == [rows[0]] + tail;
      forall i | 0 < i < |rows| ensures level <= rows[i].level <= level + Depth(n) {
        assert rows[i] == tail[i - 1];
        assert level + 1 <= tail[i - 1].level <= level + 1 + DepthList(kids);
        assert kids != [];
      }
  }

  lemma {:induction false} ChildRowsWithinDepth(sep: string, kids: seq<Node>, level: nat, ancestry: seq<bool>)
    ensures forall i :: 0 <= i < |ChildRows(sep, kids, level, ancestry)| ==>
      level <= ChildRows(sep, kids, level, ancestry)[i].level <= level + DepthList(kids)
    decreases kids
  {
    if kids != [] {
      var first: seq<Row> := Rows(sep, kids[0], level, |kids| == 1, ancestry);
      var rest: seq<Row> := ChildRows(sep, kids[1..], level, ancestry);
      RowsWithinDepth(sep, kids[0], level, |kids| == 1, ancestry);
      ChildRowsWithinDepth(sep, kids[1..], level, ancestry);
      forall i | 0 <= i < |first| + |rest|
        ensures level <= (first + rest)[i].level <= level + DepthList(kids)
      {
        if i >= |first| {
          assert (first + rest)[i] == rest[i - |first|];
          assert rest[i - |first|].level <= level + DepthList(kids[1..]);
        } else {
          assert (first + rest)[i] == first[i];
          assert first[i].level <= level + Depth(kids[0]);
        }
      }
    }
  }

  /** Every node of the tree satisfies `p`. */
  predicate Every(n: Node, p: Node -> bool)
    decreases n
  {
    && p(n)
    && match n.children
       case Absent => true
       case Present(kids) => EveryIn(kids, p)
  }

  predicate EveryIn(kids: seq<Node>, p: Node -> bool)
    decreases kids
  {
    kids != [] ==> Every(kids[0], p) && EveryIn(kids[1..], p)
  }

  lemma {:induction false} EveryInAll(kids: seq<Node>, p: Node -> bool)
    requires forall i :: 0 <= i < |kids| ==> Every(kids[i], p)
    ensures EveryIn(kids, p)
    decreases kids
  {
    if kids != [] {
      EveryInAll(kids[1..], p);
    }
  }

  lemma {:induction false} EveryInPreorder(n: Node, p: Node -> bool)
    requires Every(n, p)
    ensures forall i :: 0 <= i < |Preorder(n)| ==> p(Preorder(n)[i])
    decreases n
  {
    match n.children
    case Absent =>
    case Present(kids) =>
      EveryInPreorderList(kids, p);
      assert Preorder(n) == [n] + PreorderList(kids);
  }

  lemma {:induction false} EveryInPreorderList(kids: seq<Node>, p: Node -> bool)
    requires EveryIn(kids, p)
    ensures forall i :: 0 <= i < |PreorderList(kids)| ==> p(PreorderList(kids)[i])
    decreases kids
  {
    if kids != [] {
      EveryInPreorder(kids[0], p);
      EveryInPreorderList(kids[1..], p);
      var a, b := Preorder(kids[0]), PreorderList(kids[1..]);
      assert PreorderList(kids) == a + b;
      forall i | 0 <= i < |a + b| ensures p((a + b)[i]) {
        if i >= |a| { assert (a + b)[i] == b[i - |a|]; } else { assert (a + b)[i] == a[i]; }
      }
    }
  }

  /** The rows of a children array end with the block of its last child, rendered as the last sibling. */
  lemma {:induction false} LastChildBlock(sep: string, kids: seq<Node>, level: nat, ancestry: seq<bool>)
    requires kids != []
    ensures |PreorderList(kids[..|kids| - 1])| <= |ChildRows(sep, kids, level, ancestry)|
    ensures ChildRows(sep, kids, level, ancestry)[|PreorderList(kids[..|kids| - 1])|..]
         == Rows(sep, kids[|kids| - 1], level, true, ancestry)
    decreases kids
  {
    var rows := ChildRows(sep, kids, level, ancestry);
    if |kids| == 1 {
      assert kids[..0] == [];
      assert rows == Rows(sep, kids[0], level, true, ancestry) + [];
    } else {
      var first := Rows(sep, kids[0], level, false, ancestry);
      var rest := ChildRows(sep, kids[1..], level, ancestry);
      LastChildBlock(sep, kids[1..], level, ancestry);
      RowsFollowPreorder(sep, kids[0], level, false, ancestry);
      assert rows == first + rest;
      assert kids[..|kids| - 1] == [kids[0]] + kids[1..][..|kids[1..]| - 1];
      assert kids[..|kids| - 1][1..] == kids[1..][..|kids[1..]| - 1];
      assert kids[1..][|kids[1..]| - 1] == kids[|kids| - 1];
      assert (first + rest)[|first| + |PreorderList(kids[1..][..|kids[1..]| - 1])|..]
          == rest[|PreorderList(kids[1..][..|kids[1..]| - 1])|..];
    }
  }

  /** Row `r` shows node `n`: its name, icon and bold styling by type, suffix by description, container by `children`. */
  predicate Depicts(sep: string, r: Row, n: Node) {
    && r.name == n.name
    && (r.icon == FolderIcon <==> n.kind == Directory)
    && (r.bold <==> n.kind == Directory)
    && (r.suffix.Some? <==> Truthy(n.description))
    && (r.suffix.Some? ==> r.suffix.value == sep + n.description.value)
    && (r.container <==> n.children.Present?)
  }

  predicate AllDepict(sep: string, rows: seq<Row>, nodes: seq<Node>) {
    |rows| == |nodes| && forall i :: 0 <= i < |rows| ==> Depicts(sep, rows[i], nodes[i])
  }

  lemma AllDepictConcat(sep: string, r1: seq<Row>, n1: seq<Node>, r2: seq<Row>, n2: seq<Node>)
    requires AllDepict(sep, r1, n1) && AllDepict(sep, r2, n2)
    ensures AllDepict(sep, r1 + r2, n1 + n2)
  {
    forall i | 0 <= i < |r1| + |r2| ensures Depicts(sep, (r1 + r2)[i], (n1 + n2)[i]) {
      if i >= |r1| {
        assert (r1 + r2)[i] == r2[i - |r1|] && (n1 + n2)[i] == n2[i - |n1|];
      }
    }
  }

  /**
   * Each node contributes exactly one row, in depth-first order, and each row
   * shows its own node: children are rendered whenever the field exists,
   * whatever the node's type.
   */
  lemma {:induction false} RowsFollowPreorder(sep: string, n: Node, level: nat, isLast: bool, ancestry: seq<bool>)
    ensures AllDepict(sep, Rows(sep, n, level, isLast, ancestry), Preorder(n))
    decreases n
  {
    var head := [RowOf(sep, n, level, isLast, ancestry)];
    assert AllDepict(sep, head, [n]);
    match n.children
    case Absent =>
      assert Rows(sep, n, level, isLast, ancestry) == head;
      assert Preorder(n) == [n];
    case Present(kids) =>
      ChildRowsFollowPreorder(sep, kids, level + 1, ancestry + [isLast]);
      AllDepictConcat(sep, head, [n], ChildRows(sep, kids, level + 1, ancestry + [isLast]), PreorderList(kids));
  }

  lemma {:induction false} ChildRowsFollowPreorder(sep: string, kids: seq<Node>, level: nat, ancestry: seq<bool>)
    ensures AllDepict(sep, ChildRows(sep, kids, level, ancestry), PreorderList(kids))
    decreases kids
  {
    if kids != [] {
      RowsFollowPreorder(sep, kids[0], level, |kids| == 1, ancestry);
      ChildRowsFollowPreorder(sep, kids[1..], level, ancestry);
      AllDepictConcat(sep, Rows(sep, kids[0], level, |kids| == 1, ancestry), Preorder(kids[0]),
                      ChildRows(sep, kids[1..], level, ancestry), PreorderList(kids[1..]));
    }
  }

  /** A row is indented by its level, its ancestry is as long as its level, and its lines follow from them. */
  predicate Placed(r: Row) {
    && r.indent == r.level * Step
    && |r.ancestry| == r.level
    && r.lines == Connectors(r.level, r.isLast, r.ancestry)
  }

  /**
   * Every row of a subtree rendered at `level` with an ancestry of that length is
   * placed by its own level and starts its ancestry with the subtree's; the
   * first row is the subtree's root at `level`, every later row is deeper and
   * has the root's `isLast` appended to the subtree's ancestry.
   */
  lemma {:induction false} RowsContext(sep: string, n: Node, level: nat, isLast: bool, ancestry: seq<bool>)
    requires |ancestry| == level
    ensures var rows := Rows(sep, n, level, isLast, ancestry);
      && rows[0].level == level && rows[0].isLast == isLast && rows[0].ancestry == ancestry
      && forall i :: 0 <= i < |rows| ==>
           && Placed(rows[i])
           && (i > 0 ==> rows[i].level > level && rows[i].ancestry[..level + 1] == ancestry + [isLast])
    decreases n
  {
    var rows := Rows(sep, n, level, isLast, ancestry);
    match n.children
    case Absent =>
    case Present(kids) =>
      var anc := ancestry + [isLast];
      ChildRowsContext(sep, kids, level + 1, anc);
      var tail := ChildRows(sep, kids, level + 1, anc);
      assert rows == [rows[0]] + tail;
      forall i | 0 < i < |rows|
        ensures Placed(rows[i])
        ensures rows[i].level > level && rows[i].ancestry[..level + 1] == anc
      {
        assert rows[i] == tail[i - 1];
      }
  }

  lemma {:induction false} ChildRowsContext(sep: string, kids: seq<Node>, level: nat, ancestry: seq<bool>)
    requires |ancestry| == level
    ensures var rows := ChildRows(sep, kids, level, ancestry);
      && (|rows| > 0 ==> rows[0].level == level)
      && forall i :: 0 <= i < |rows| ==>
           Placed(rows[i]) && rows[i].level >= level && rows[i].ancestry[..level] == ancestry
    decreases kids
  {
    if kids != [] {
      var first: seq<Row> := Rows(sep, kids[0], level, |kids| == 1, ancestry);
      var rest: seq<Row> := ChildRows(sep, kids[1..], level, ancestry);
      RowsContext(sep, kids[0], level, |kids| == 1, ancestry);
      ChildRowsContext(sep, kids[1..], level, ancestry);
      forall i | 0 <= i < |first| + |rest|
        ensures Placed((first + rest)[i])
        ensures (first + rest)[i].level >= level && (first + rest)[i].ancestry[..level] == ancestry
      {
        if i < |first| {
          if i > 0 {
            assert first[i].ancestry[..level] == (first[i].ancestry[..level + 1])[..level];
          }
        } else {
          assert (first + rest)[i] == rest[i - |first|];
        }
      }
    }
  }

  /** The rows of `rows` that sit exactly at `level`, in order. */
  function AtLevel(rows: seq<Row>, level: nat): (r: seq<Row>)
    ensures forall i :: 0 <= i < |r| ==> r[i].level == level
  {
    if rows == [] then []
    else (if rows[0].level == level then [rows[0]] else []) + AtLevel(rows[1..], level)
  }

  lemma {:induction false} AtLevelConcat(a: seq<Row>, b: seq<Row>, level: nat)
    ensures AtLevel(a + b, level) == AtLevel(a, level) + AtLevel(b, level)
  {
    if a != [] {
      assert (a + b)[1..] == a[1..] + b;
      AtLevelConcat(a[1..], b, level);
    } else {
      assert a + b == b;
    }
  }

  lemma {:induction false} AtLevelNone(rows: seq<Row>, level: nat)
    requires forall i :: 0 <= i < |rows| ==> rows[i].level > level
    ensures AtLevel(rows, level) == []
  {
    if rows != [] {
      AtLevelNone(rows[1..], level);
    }
  }

  /**
   * The rows directly inside a children container are the children themselves,
   * one each, in array order, at the container's level, with the parent's
   * ancestry, and with `isLast` set for the final child only.
   */
  lemma {:induction false} ChildrenInOrder(sep: string, kids: seq<Node>, level: nat, ancestry: seq<bool>)
    requires |ancestry| == level
    ensures var heads := AtLevel(ChildRows(sep, kids, level, ancestry), level);
      && |heads| == |kids|
      && forall i :: 0 <= i < |kids| ==>
           && heads[i].name == kids[i].name
           && heads[i].ancestry == ancestry
           && (heads[i].isLast <==> i == |kids| - 1)
           && Placed(heads[i])
           && heads[i] == RowOf(sep, kids[i], level, i == |kids| - 1, ancestry)
    decreases kids
  {
    if kids != [] {
      var first: seq<Row> := Rows(sep, kids[0], level, |kids| == 1, ancestry);
      var rest: seq<Row> := ChildRows(sep, kids[1..], level, ancestry);
      RowsContext(sep, kids[0], level, |kids| == 1, ancestry);
      AtLevelConcat(first, rest, level);
      AtLevelConcat([first[0]], first[1..], level);
      assert first == [first[0]] + first[1..];
      AtLevelNone(first[1..], level);
      assert AtLevel([first[0]], level) == [first[0]];
      ChildrenInOrder(sep, kids[1..], level, ancestry);
      var heads := AtLevel(first + rest, level);
      assert heads == [first[0]] + AtLevel(rest, level);
      forall i | 0 < i < |kids|
        ensures heads[i].name == kids[i].name && heads[i].ancestry == ancestry
        ensures heads[i].isLast <==> i == |kids| - 1
        ensures Placed(heads[i]) && heads[i] == RowOf(sep, kids[i], level, i == |kids| - 1, ancestry)
      {
        assert heads[i] == AtLevel(rest, level)[i - 1];
        assert kids[i] == kids[1..][i - 1];
      }
    }
  }

  /**
   * A node's own children are rendered at exactly one level deeper, in order,
   * receiving the node's ancestry with its own `isLast` appended; a node
   * without a `children` field renders one row only.
   */
  lemma NodeChildren(sep: string, n: Node, level: nat, isLast: bool, ancestry: seq<bool>)
    requires |ancestry| == level
    ensures var rows := Rows(sep, n, level, isLast, ancestry);
      && (n.children.Absent? ==> |rows| == 1)
      && (n.children.Present? ==>
            var heads := AtLevel(rows[1..], level + 1);
            && |heads| == |n.children.nodes|
            && forall i :: 0 <= i < |heads| ==>
                 && heads[i].name == n.children.nodes[i].name
                 && heads[i].level == level + 1
                 && heads[i].ancestry == ancestry + [isLast]
                 && (heads[i].isLast <==> i == |heads| - 1)
                 && Placed(heads[i])
                 && heads[i] == RowOf(sep, n.children.nodes[i], level + 1, i == |heads| - 1, ancestry + [isLast]))
  {
    if n.children.Present? {
      var rows := Rows(sep, n, level, isLast, ancestry);
      assert rows[1..] == ChildRows(sep, n.children.nodes, level + 1, ancestry + [isLast]);
      ChildrenInOrder(sep, n.children.nodes, level + 1, ancestry + [isLast]);
    }
  }

  /** The rendered tree ends with the block of the root's last child, drawn at level 1 as the last sibling. */
  lemma RootLastBlock(sep: string, root: Node)
    requires root.children.Present? && root.children.nodes != []
    ensures var kids := root.children.nodes;
      && |Render(sep, root)| == |Preorder(root)|
      && 1 + |PreorderList(kids[..|kids| - 1])| <= |Render(sep, root)|
      && Render(sep, root)[1 + |PreorderList(kids[..|kids| - 1])|..] == Rows(sep, kids[|kids| - 1], 1, true, [false])
  {
    var kids := root.children.nodes;
    var k := |PreorderList(kids[..|kids| - 1])|;
    var tail := ChildRows(sep, kids, 1, [false]);
    RenderLength(sep, root);
    RenderUnfold(sep, root);
    LastChildBlock(sep, kids, 1, [false]);
    DropHead(RowOf(sep, root, 0, false, []), tail, k);
  }

  lemma DropHead<T>(x: T, tail: seq<T>, k: nat)
    requires k <= |tail|
    ensures ([x] + tail)[1 + k..] == tail[k..]
  {
  }

  /** One row per node. */
  lemma RenderLength(sep: string, root: Node)
    ensures |Render(sep, root)| == |Preorder(root)|
  {
    RowsFollowPreorder(sep, root, 0, false, []);
  }

  /** A node with a present, non-empty description. */
  predicate Described(n: Node) {
    Truthy(n.description)
  }

  /** A node without a `children` field is a file. */
  predicate LeafIsFile(n: Node) {
    n.children.Absent? ==> n.kind == File
  }

  /** When every node is described, every row carries the separator and its node's description. */
  lemma DescribedTreeRowsHaveSuffix(sep: string, root: Node)
    requires Every(root, Described)
    ensures forall i :: 0 <= i < |Render(sep, root)| ==>
      && i < |Preorder(root)| && Described(Preorder(root)[i])
      && Render(sep, root)[i].suffix == Some(sep + Preorder(root)[i].description.value)
  {
    var rows, pre := Render(sep, root), Preorder(root);
    RowsFollowPreorder(sep, root, 0, false, []);
    assert AllDepict(sep, rows, pre);
    EveryInPreorder(root, Described);
    forall i | 0 <= i < |rows|
      ensures i < |pre| && Described(pre[i])
      ensures rows[i].suffix == Some(sep + pre[i].description.value)
    {
      var f: Node -> bool := Described;
      assert f(pre[i]);
      assert Depicts(sep, rows[i], pre[i]);
    }
  }

  /** When every childless node is a file, every row without a children container has the file icon and no bold. */
  lemma LeafRowsArePlainFiles(sep: string, root: Node)
    requires Every(root, LeafIsFile)
    ensures forall i :: 0 <= i < |Render(sep, root)| && !Render(sep, root)[i].container ==>
      Render(sep, root)[i].icon == FileIcon && !Render(sep, root)[i].bold
  {
    var rows, pre := Render(sep, root), Preorder(root);
    RowsFollowPreorder(sep, root, 0, false, []);
    assert AllDepict(sep, rows, pre);
    EveryInPreorder(root, LeafIsFile);
    forall i | 0 <= i < |rows| && !rows[i].container ensures rows[i].icon == FileIcon && !rows[i].bold {
      var f: Node -> bool := LeafIsFile;
      assert f(pre[i]);
      assert Depicts(sep, rows[i], pre[i]);
    }
  }

  /**
   * Row `j` is the nearest enclosing ancestor of row `i`: it is shallower, and
   * every row between them is deeper than it.
   */
  predicate Encloses(rows: seq<Row>, j: int, i: int) {
    && 0 <= j < i < |rows|
    && rows[j].level < rows[i].level
    && forall k :: j < k < i ==> rows[k].level > rows[j].level
  }

  /** In every row, the ancestry flag at each enclosing ancestor's level is that ancestor's `isLast`. */
  ghost predicate RecordsAncestors(rows: seq<Row>) {
    forall j, i :: Encloses(rows, j, i) ==>
      rows[j].level < |rows[i].ancestry| && rows[i].ancestry[rows[j].level] == rows[j].isLast
  }

  /** Enclosure inside a sequence that opens with one extra row, away from that row. */
  lemma EnclosesAfterHead(rows: seq<Row>, tail: seq<Row>, j: int, i: int)
    requires |rows| == |tail| + 1 && rows[1..] == tail
    requires Encloses(rows, j, i) && j > 0
    ensures Encloses(tail, j - 1, i - 1)
  {
    forall k | j - 1 < k < i - 1 ensures tail[k].level > tail[j - 1].level {
      assert tail[k] == rows[k + 1];
    }
  }

  /**
   * Two sibling blocks: when the second opens at the lowest level of both,
   * no row of the first encloses a row of the second.
   */
  lemma EnclosesInOneBlock(a: seq<Row>, b: seq<Row>, level: nat, j: int, i: int)
    requires forall k :: 0 <= k < |a| ==> a[k].level >= level
    requires |b| > 0 ==> b[0].level == level
    requires Encloses(a + b, j, i)
    ensures i < |a| ==> Encloses(a, j, i)
    ensures i >= |a| ==> j >= |a| && Encloses(b, j - |a|, i - |a|)
  {
    var rows := a + b;
    if i < |a| {
      forall k | j < k < i ensures a[k].level > a[j].level {
        assert rows[k] == a[k] && rows[j] == a[j];
      }
    } else {
      assert rows[|a|] == b[0];
      assert forall k :: 0 <= k < |a| ==> rows[k] == a[k];
      assert j >= |a|;
      forall k | j - |a| < k < i - |a| ensures b[k].level > b[j - |a|].level {
        assert rows[k + |a|] == b[k];
      }
    }
  }

  /**
   * The ancestry list is the sequence of the ancestors' `isLast` flags: in a row,
   * the flag at position `m` is the `isLast` of its enclosing ancestor at level `m`.
   */
  lemma {:induction false} AncestryRecordsAncestors(sep: string, n: Node, level: nat, isLast: bool, ancestry: seq<bool>)
    requires |ancestry| == level
    ensures RecordsAncestors(Rows(sep, n, level, isLast, ancestry))
    decreases n
  {
    var rows := Rows(sep, n, level, isLast, ancestry);
    RowsContext(sep, n, level, isLast, ancestry);
    match n.children
    case Absent =>
    case Present(kids) =>
      var anc := ancestry + [isLast];
      var tail := ChildRows(sep, kids, level + 1, anc);
      assert rows == [rows[0]] + tail;
      ChildRowsAncestry(sep, kids, level + 1, anc);
      forall j, i | Encloses(rows, j, i)
        ensures rows[j].level < |rows[i].ancestry| && rows[i].ancestry[rows[j].level] == rows[j].isLast
      {
        if j == 0 {
          assert rows[i].ancestry[..level + 1][level] == isLast;
        } else {
          EnclosesAfterHead(rows, tail, j, i);
          assert rows[i] == tail[i - 1] && rows[j] == tail[j - 1];
        }
      }
  }

  lemma {:induction false} ChildRowsAncestry(sep: string, kids: seq<Node>, level: nat, ancestry: seq<bool>)
    requires |ancestry| == level
    ensures RecordsAncestors(ChildRows(sep, kids, level, ancestry))
    decreases kids
  {
    if kids != [] {
      var first := Rows(sep, kids[0], level, |kids| == 1, ancestry);
      var rest := ChildRows(sep, kids[1..], level, ancestry);
      AncestryRecordsAncestors(sep, kids[0], level, |kids| == 1, ancestry);
      ChildRowsAncestry(sep, kids[1..], level, ancestry);
      RowsContext(sep, kids[0], level, |kids| == 1, ancestry);
      ChildRowsContext(sep, kids[1..], level, ancestry);
      BlocksRecordAncestors(first, rest, level);
    }
  }

  lemma BlocksRecordAncestors(a: seq<Row>, b: seq<Row>, level: nat)
    requires RecordsAncestors(a) && RecordsAncestors(b)
    requires forall k :: 0 <= k < |a| ==> a[k].level >= level
    requires |b| > 0 ==> b[0].level == level
    ensures RecordsAncestors(a + b)
  {
    var rows := a + b;
    forall j, i | Encloses(rows, j, i)
      ensures rows[j].level < |rows[i].ancestry| && rows[i].ancestry[rows[j].level] == rows[j].isLast
    {
      EnclosesInOneBlock(a, b, level, j, i);
      if i >= |a| {
        assert rows[i] == b[i - |a|] && rows[j] == b[j - |a|];
      }
    }
  }

  /**
   * As the page calls it (root `isLast` defaulting to false), every row at
   * level 2 or deeper carries the line at x = 4 that belongs to level 1.
   */
  lemma DeepRowsCarryColumnFour(sep: string, root: Node)
    ensures var rows := Render(sep, root);
      forall i :: 0 <= i < |rows| && rows[i].level >= 2 ==> Column(1) in rows[i].lines
  {
    var rows := Render(sep, root);
    RowsContext(sep, root, 0, false, []);
    forall i | 0 <= i < |rows| && rows[i].level >= 2 ensures Column(1) in rows[i].lines {
      assert rows[i].ancestry[..1] == [false];
      assert rows[i].ancestry[0] == false;
    }
  }

  /**
   * What the connectors of a rendered row mean: the line at the column of level
   * `m + 1` is present exactly when the enclosing ancestor at level `m` is not
   * a last sibling, one level off from the ancestor that owns that column.
   */
  lemma AncestorColumnFollowsShallowerAncestor(sep: string, root: Node, j: int, i: int)
    requires Encloses(Render(sep, root), j, i)
    requires Render(sep, root)[j].level + 1 < Render(sep, root)[i].level
    ensures var rows := Render(sep, root);
      Column(rows[j].level + 1) in rows[i].lines <==> !rows[j].isLast
  {
    RowsContext(sep, root, 0, false, []);
    AncestryRecordsAncestors(sep, root, 0, false, []);
  }

  /**
   * The connector rule the tree drawing aims at: a line at the column of each
   * ancestor level `m` (1 <= m < level) whose ancestor is not a last sibling,
   * reading that ancestor's own flag `ancestry[m]`, plus the node's own line.
   */
  function IntendedConnectors(level: nat, isLast: bool, ancestry: seq<bool>): (lines: set<int>)
    requires |ancestry| == level
    ensures forall m :: 1 <= m < level ==> (Column(m) in lines <==> !ancestry[m])
    ensures level > 0 ==> (Column(level) in lines <==> !isLast)
    ensures forall c :: c in lines ==> exists m :: 1 <= m <= level && c == Column(m)
  {
    (set m | 1 <= m < level && !ancestry[m] :: Column(m))
    + (if level > 0 && !isLast then {Column(level)} else {})
  }

  /**
   * Under the intended rule the line at an ancestor's column follows that very
   * ancestor, and the root's own flag is never consulted.
   */
  lemma IntendedColumnFollowsAncestor(sep: string, root: Node, j: int, i: int)
    requires Encloses(Render(sep, root), j, i)
    requires Render(sep, root)[j].level >= 1
    ensures var rows := Render(sep, root);
      && |rows[i].ancestry| == rows[i].level
      && (Column(rows[j].level) in IntendedConnectors(rows[i].level, rows[i].isLast, rows[i].ancestry)
          <==> !rows[j].isLast)
  {
    RowsContext(sep, root, 0, false, []);
    AncestryRecordsAncestors(sep, root, 0, false, []);
  }

  lemma IntendedIgnoresRootFlag(level: nat, isLast: bool, ancestry: seq<bool>, b: bool)
    requires |ancestry| == level && level >= 1
    ensures IntendedConnectors(level, isLast, ancestry[0 := b]) == IntendedConnectors(level, isLast, ancestry)
  {
    var other := ancestry[0 := b];
    assert forall m :: 1 <= m < level ==> other[m] == ancestry[m];
  }

  /** A tree `A(B, C(D, E))`: the branch `C` is the root's last child. */
  const LastBranchTree: Node :=
    Node("A", Directory, None, Present([
      Node("B", File, None, Absent),
      Node("C", Directory, None, Present([Node("D", File, None, Absent), Node("E", File, None, Absent)]))]))

  /**
   * As written, the row of `D` draws a line at the column of level 1 although
   * its level-1 ancestor `C` is a last sibling; the intended rule draws only
   * `D`'s own line at the column of level 2.
   */
  lemma StrayLineUnderLastBranch(sep: string)
    ensures var rows := Render(sep, LastBranchTree);
      && |rows| == 5 && rows[2].name == "C" && rows[2].isLast && rows[3].name == "D"
      && rows[3].lines == {Column(1), Column(2)}
      && IntendedConnectors(rows[3].level, rows[3].isLast, rows[3].ancestry) == {Column(2)}
  {
    var rows := Render(sep, LastBranchTree);
    var d := Node("D", File, None, Absent);
    assert rows[3] == RowOf(sep, d, 2, false, [false, true]);
    var lines := Connectors(2, false, [false, true]);
    assert Column(1) in lines;
    assert lines == {Column(1), Column(2)};
  }
}
