/**
 * The skill-tree positions hook: the tree is rebuilt from the flat table's
 * parent links, laid out by subtree height (leaves stacked 80 apart, parents
 * centred on their first and last child, 120 per level to the right), and the
 * padded bounding box of the positions is computed.
 */
module SkillTreePositions {
  import opened Wrappers
  import opened SkillNodes
  import opened Normalize

  /** A table record with its rebuilt children. */
  datatype TreeNode = TreeNode(node: NormalizedSkillNode, children: seq<TreeNode>)

  /** Where a node is drawn, whether it is unlocked, and where its connector starts. */
  datatype NodePosition = NodePosition(x: real, y: real, nodeId: NodeId, unlocked: bool, parentPos: Option<Point>)

  /** The positions of a subtree, pre-order, and the number of rows it occupies. */
  datatype LayoutResult = LayoutResult(positions: seq<NodePosition>, usedHeight: nat)

  /** The padded view box of the positions. */
  datatype Dimensions = Dimensions(minX: real, maxX: real, minY: real, maxY: real, width: real, height: real)

  const VerticalSpacing: real := 80.0
  const HorizontalSpacing: real := 120.0

  // ---------------------------------------------------------------- buildTree

  /** `Object.values(nodes)`: the records in key insertion order. */
  function Values(nodes: map<NodeId, NormalizedSkillNode>, order: seq<NodeId>): (rs: seq<NormalizedSkillNode>)
    requires OrderListsKeys(nodes, order)
    ensures |rs| == |order| && forall i :: 0 <= i < |order| ==> rs[i] == nodes[order[i]]
  {
    seq(|order|, i requires 0 <= i < |order| => nodes[order[i]])
  }

  /** `.filter(n => n.parentId === nodeId)`: the records whose parent is `id`, in their order. */
  function ChildRecords(rs: seq<NormalizedSkillNode>, id: NodeId): seq<NormalizedSkillNode>
  {
    if rs == [] then []
    else (if rs[0].parentId == Some(id) then [rs[0]] else []) + ChildRecords(rs[1..], id)
  }

  /** The filter keeps exactly the records of `rs` that name `id` as their parent. */
  lemma {:induction false} ChildRecordsFrom(rs: seq<NormalizedSkillNode>, id: NodeId)
    ensures forall c :: c in ChildRecords(rs, id) <==> c in rs && c.parentId == Some(id)
    decreases |rs|
  {
    if rs != [] {
      ChildRecordsFrom(rs[1..], id);
      assert rs == [rs[0]] + rs[1..];
    }
  }

  /** The keys with a counter above `c`; it shrinks along every parent-to-child step. */
  function Later(nodes: map<NodeId, NormalizedSkillNode>, c: nat): set<NodeId>
  {
    set k | k in nodes && k.counter > c
  }

  /** `buildTree`: the record `nodeId` with its children rebuilt from the parent links; `None` for an unknown id. */
  function BuildTree(nodes: map<NodeId, NormalizedSkillNode>, order: seq<NodeId>, nodeId: NodeId): Option<TreeNode>
    requires Acyclic(nodes) && OrderListsKeys(nodes, order)
    decreases Later(nodes, nodeId.counter), 1
  {
    if nodeId !in nodes then
      None
    else
      var cs := ChildRecords(Values(nodes, order), nodeId);
      assert forall c :: c in cs ==> nodeId.counter < c.id.counter by {
        ChildRecordsFrom(Values(nodes, order), nodeId);
        forall c | c in cs ensures nodeId.counter < c.id.counter {
          var i :| 0 <= i < |order| && Values(nodes, order)[i] == c;
          assert nodes[order[i]] == c;
        }
      }
      Some(TreeNode(nodes[nodeId], BuildForest(nodes, order, cs, nodeId)))
  }

  /** `.map(child => buildTree(child.id)).filter(child => child !== null)` over child records of `parent`. */
  function BuildForest(nodes: map<NodeId, NormalizedSkillNode>, order: seq<NodeId>, cs: seq<NormalizedSkillNode>, parent: NodeId): seq<TreeNode>
    requires Acyclic(nodes) && OrderListsKeys(nodes, order)
    requires forall c :: c in cs ==> parent.counter < c.id.counter
    decreases Later(nodes, parent.counter), 0, |cs|
  {
    if cs == [] then
      []
    else
      var rest := BuildForest(nodes, order, cs[1..], parent);
      if cs[0].id in nodes then
        assert cs[0].id in Later(nodes, parent.counter) && cs[0].id !in Later(nodes, cs[0].id.counter);
        match BuildTree(nodes, order, cs[0].id)
        case Some(t) => [t] + rest
        case None => rest
      else
        rest
  }

  /**
   * On a table whose records carry their own keys, `buildTree(nodeId)` is
   * `null` exactly for an unknown id; otherwise it holds the record, and its
   * children are the records naming `nodeId` as parent, in iteration order.
   */
  lemma {:induction false} BuildTreeChildren(nodes: map<NodeId, NormalizedSkillNode>, order: seq<NodeId>, nodeId: NodeId)
    requires Acyclic(nodes) && OrderListsKeys(nodes, order)
    requires forall k :: k in nodes ==> nodes[k].id == k
    ensures nodeId !in nodes <==> BuildTree(nodes, order, nodeId).None?
    ensures nodeId in nodes ==>
      var t := BuildTree(nodes, order, nodeId).value;
      var cs := ChildRecords(Values(nodes, order), nodeId);
      && t.node == nodes[nodeId]
      && |t.children| == |cs|
      && forall i :: 0 <= i < |cs| ==> t.children[i].node == cs[i]
  {
    if nodeId in nodes {
      var vs := Values(nodes, order);
      var cs := ChildRecords(vs, nodeId);
      ChildRecordsFrom(vs, nodeId);
      forall c | c in cs ensures c.id in nodes && nodes[c.id] == c && nodeId.counter < c.id.counter {
        var i :| 0 <= i < |order| && vs[i] == c;
        assert nodes[order[i]] == c;
      }
      BuildForestRoots(nodes, order, cs, nodeId);
    }
  }

  /** Over records that are the table's own entries, `.map(buildTree)` drops nothing and keeps their order. */
  lemma {:induction false} BuildForestRoots(nodes: map<NodeId, NormalizedSkillNode>, order: seq<NodeId>, cs: seq<NormalizedSkillNode>, parent: NodeId)
    requires Acyclic(nodes) && OrderListsKeys(nodes, order)
    requires forall c :: c in cs ==> parent.counter < c.id.counter
    requires forall c :: c in cs ==> c.id in nodes && nodes[c.id] == c
    ensures var ts := BuildForest(nodes, order, cs, parent);
      |ts| == |cs| && forall i :: 0 <= i < |cs| ==> ts[i].node == cs[i]
    decreases |cs|
  {
    if cs != [] {
      assert forall c :: c in cs[1..] ==> c in cs;
      BuildForestRoots(nodes, order, cs[1..], parent);
      var ts := BuildForest(nodes, order, cs, parent);
      var rest := BuildForest(nodes, order, cs[1..], parent);
      assert cs[0] in cs;
      assert BuildTree(nodes, order, cs[0].id).Some? && BuildTree(nodes, order, cs[0].id).value.node == cs[0];
      assert ts == [BuildTree(nodes, order, cs[0].id).value] + rest;
      forall i | 0 < i < |cs| ensures ts[i].node == cs[i] {
        assert ts[i] == rest[i - 1] && cs[i] == cs[1..][i - 1];
      }
    }
  }

  // ------------------------------------------------------- calculatePositions

  /** `reduce((sum, r) => sum + r.usedHeight, 0)`. */
  function TotalHeight(rs: seq<LayoutResult>): nat
  {
    if rs == [] then 0 else TotalHeight(rs[..|rs| - 1]) + rs[|rs| - 1].usedHeight
  }

  /** `flatMap` of the children's position lists. */
  function Concat(rs: seq<LayoutResult>): seq<NodePosition>
  {
    if rs == [] then [] else Concat(rs[..|rs| - 1]) + rs[|rs| - 1].positions
  }

  /** A position whose connector starts at column `x` gets the parent's centred pin. */
  function Repin(p: NodePosition, x: real, centerY: real): NodePosition
  {
    if p.parentPos.Some? && p.parentPos.value.x == x then p.(parentPos := Some(Point(x, centerY))) else p
  }

  function RepinAll(ps: seq<NodePosition>, x: real, centerY: real): (r: seq<NodePosition>)
    ensures |r| == |ps|
  {
    seq(|ps|, i requires 0 <= i < |ps| => Repin(ps[i], x, centerY))
  }

  /**
   * `calculatePositions` as a function: a leaf is one position at `startY`;
   * otherwise the children's blocks are stacked and the node is centred on
   * the first and last child.
   */
  function Layout(node: TreeNode, x: real, startY: real, parentPos: Option<Point>, unlocked: seq<NodeId>): LayoutResult
    decreases node, |node.children| + 1
  {
    if |node.children| == 0 then
      LayoutResult([NodePosition(x, startY, node.node.id, node.node.id in unlocked, parentPos)], 1)
    else
      var results := LayoutChildren(node, |node.children|, x, startY, unlocked);
      var centerY := CentreRow(results, startY);
      var current := NodePosition(x, centerY, node.node.id, node.node.id in unlocked, parentPos);
      LayoutResult([current] + RepinAll(Concat(results), x, centerY), TotalHeight(results))
  }

  /** The row halfway between the first and the last child's rows; a child with no positions counts as `startY`. */
  function CentreRow(results: seq<LayoutResult>, startY: real): real
    requires |results| > 0
  {
    var first := results[0];
    var last := results[|results| - 1];
    var firstChildY := if |first.positions| > 0 then first.positions[0].y else startY;
    var lastChildY := if |last.positions| > 0 then last.positions[0].y else startY;
    (firstChildY + lastChildY) / 2.0
  }

  /** The results for the first `k` children, each started where the previous block ended. */
  function LayoutChildren(node: TreeNode, k: nat, x: real, startY: real, unlocked: seq<NodeId>): (rs: seq<LayoutResult>)
    requires k <= |node.children|
    ensures |rs| == k
    decreases node, k
  {
    if k == 0 then
      []
    else
      var prev := LayoutChildren(node, k - 1, x, startY, unlocked);
      var currentY := startY + TotalHeight(prev) as real * VerticalSpacing;
      prev + [Layout(node.children[k - 1], x + HorizontalSpacing, currentY, Some(Point(x, 0.0)), unlocked)]
  }

  /** `calculatePositions`, with its loop over the children. */
  method CalculatePositions(node: TreeNode, x: real, startY: real, parentPos: Option<Point>, unlocked: seq<NodeId>)
    returns (positions: seq<NodePosition>, usedHeight: nat)
    ensures LayoutResult(positions, usedHeight) == Layout(node, x, startY, parentPos, unlocked)
    decreases node
  {
    if |node.children| == 0 {
      var currentPos := NodePosition(x, startY, node.node.id, node.node.id in unlocked, parentPos);
      return [currentPos], 1;
    }
    var childResults: seq<LayoutResult> := [];
    var currentY := startY;
    for i := 0 to |node.children|
      invariant childResults == LayoutChildren(node, i, x, startY, unlocked)
      invariant currentY == startY + TotalHeight(childResults) as real * VerticalSpacing
    {
      var childPositions, childHeight := CalculatePositions(node.children[i], x + HorizontalSpacing, currentY, Some(Point(x, 0.0)), unlocked);
      childResults := childResults + [LayoutResult(childPositions, childHeight)];
      assert childResults[..|childResults| - 1] == LayoutChildren(node, i, x, startY, unlocked);
      currentY := currentY + childHeight as real * VerticalSpacing;
    }
    var totalChildrenHeight := TotalHeight(childResults);
    var first := childResults[0];
    var last := childResults[|childResults| - 1];
    var firstChildY := if |first.positions| > 0 then first.positions[0].y else startY;
    var lastChildY := if |last.positions| > 0 then last.positions[0].y else startY;
    var centerY := (firstChildY + lastChildY) / 2.0;
    var currentPos := NodePosition(x, centerY, node.node.id, node.node.id in unlocked, parentPos);
    positions := [currentPos] + RepinAll(Concat(childResults), x, centerY);
    usedHeight := totalChildrenHeight;
  }

  /**
   * The effect body: `None` when it returns early (no root, empty table or
   * unknown root) and leaves the positions as they were; otherwise the layout
   * of the rebuilt tree from (0, 0).
   */
  function ComputePositions(nodes: map<NodeId, NormalizedSkillNode>, order: seq<NodeId>, rootNodeId: Option<NodeId>, unlockedNodeIds: seq<NodeId>): Option<seq<NodePosition>>
    requires Acyclic(nodes) && OrderListsKeys(nodes, order)
  {
    if rootNodeId.None? || |nodes| == 0 then
      None
    else
      match BuildTree(nodes, order, rootNodeId.value)
      case None => None
      case Some(tree) => Some(Layout(tree, 0.0, 0.0, None, unlockedNodeIds).positions)
  }

  // --------------------------------------------------------------- dimensions

  /** `Math.min(...s)`. */
  function SeqMin(s: seq<real>): (m: real)
    requires |s| > 0
    ensures m in s && forall i :: 0 <= i < |s| ==> m <= s[i]
  {
    if |s| == 1 then s[0]
    else
      var rest := SeqMin(s[1..]);
      if s[0] <= rest then s[0] else rest
  }

  /** `Math.max(...s)`. */
  function SeqMax(s: seq<real>): (m: real)
    requires |s| > 0
    ensures m in s && forall i :: 0 <= i < |s| ==> s[i] <= m
  {
    if |s| == 1 then s[0]
    else
      var rest := SeqMax(s[1..]);
      if s[0] >= rest then s[0] else rest
  }

  function Xs(ps: seq<NodePosition>): (r: seq<real>)
    ensures |r| == |ps| && forall i :: 0 <= i < |ps| ==> r[i] == ps[i].x
  {
    seq(|ps|, i requires 0 <= i < |ps| => ps[i].x)
  }

  function Ys(ps: seq<NodePosition>): (r: seq<real>)
    ensures |r| == |ps| && forall i :: 0 <= i < |ps| ==> r[i] == ps[i].y
  {
    seq(|ps|, i requires 0 <= i < |ps| => ps[i].y)
  }

  /**
   * The `dimensions` memo: the fixed box (0, 1000, 0, 800) without positions;
   * otherwise every position lies 50 inside the left and top edges, 150 inside
   * the right and 100 inside the bottom edge, the extreme positions touch
   * those margins, so the box is at least 200 wide and 150 high.
   */
  function ComputeDimensions(positions: seq<NodePosition>): (d: Dimensions)
    ensures d.width == d.maxX - d.minX && d.height == d.maxY - d.minY
    ensures |positions| == 0 ==> d == Dimensions(0.0, 1000.0, 0.0, 800.0, 1000.0, 800.0)
    ensures forall i :: 0 <= i < |positions| ==>
      d.minX + 50.0 <= positions[i].x <= d.maxX - 150.0 && d.minY + 50.0 <= positions[i].y <= d.maxY - 100.0
    ensures |positions| > 0 ==>
      && (exists i :: 0 <= i < |positions| && positions[i].x == d.minX + 50.0)
      && (exists i :: 0 <= i < |positions| && positions[i].x == d.maxX - 150.0)
      && (exists i :: 0 <= i < |positions| && positions[i].y == d.minY + 50.0)
      && (exists i :: 0 <= i < |positions| && positions[i].y == d.maxY - 100.0)
      && d.width >= 200.0 && d.height >= 150.0
  {
    var nonEmpty := |positions| > 0;
    var minX := if nonEmpty then SeqMin(Xs(positions)) - 50.0 else 0.0;
    var maxX := if nonEmpty then SeqMax(Xs(positions)) + 150.0 else 1000.0;
    var minY := if nonEmpty then SeqMin(Ys(positions)) - 50.0 else 0.0;
    var maxY := if nonEmpty then SeqMax(Ys(positions)) + 100.0 else 800.0;
    Dimensions(minX, maxX, minY, maxY, maxX - minX, maxY - minY)
  }
}
