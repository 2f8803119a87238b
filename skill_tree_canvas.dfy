/**
 * The connectors of the skill-tree canvas: for every laid-out position that
 * has a parent pin, one group holding a border path and a fill path, both
 * the same four-point right-angle polyline from the parent's anchor to the
 * node's anchor, in coordinates shifted by the bounding box's minimum.
 */
module SkillTreeCanvas {
  import opened Wrappers
  import opened SkillNodes
  import opened Normalize
  import opened SkillTreePositions

  /** The parent anchor sits 20 to the right of the pin, the node anchor at its own x; both 32 down. */
  const AnchorOffsetX: real := 20.0
  const AnchorOffsetY: real := 32.0

  /**
   * One `<g>` of the canvas: its key is `line-{keyIndex}-{nodeId}` with
   * `keyIndex` one more than the position's index; `border` and `fill` are the
   * points of its two paths.
   */
  datatype ConnectorGroup = ConnectorGroup(keyIndex: nat, nodeId: NodeId, border: seq<Point>, fill: seq<Point>)

  /**
   * The points of `M .. L .. L .. L ..`: right along the parent's row to 20
   * short of the node, down (or up) to the node's row, then 20 to its anchor.
   */
  function ElbowPoints(parent: Point, x: real, y: real, minX: real, minY: real): (r: seq<Point>)
    ensures |r| == 4
    ensures r[0] == Point(parent.x - minX + AnchorOffsetX, parent.y - minY + AnchorOffsetY)
    ensures r[3] == Point(x - minX, y - minY + AnchorOffsetY)
    ensures r[0].y == r[1].y && r[1].x == r[2].x && r[2].y == r[3].y
    ensures r[3].x - r[2].x == AnchorOffsetX
  {
    var rowY := parent.y - minY + AnchorOffsetY;
    var elbowX := x - minX - AnchorOffsetX;
    [ Point(parent.x - minX + AnchorOffsetX, rowY),
      Point(elbowX, rowY),
      Point(elbowX, y - minY + AnchorOffsetY),
      Point(x - minX, y - minY + AnchorOffsetY) ]
  }

  /** The callback of `positions.map` at `index`: nothing without a parent pin. */
  function Connector(pos: NodePosition, index: nat, minX: real, minY: real): Option<ConnectorGroup>
  {
    match pos.parentPos
    case None => None
    case Some(parent) =>
      Some(ConnectorGroup(index + 1, pos.nodeId,
        ElbowPoints(parent, pos.x, pos.y, minX, minY),
        ElbowPoints(parent, pos.x, pos.y, minX, minY)))
  }

  /** The groups rendered for the first `k` positions; the `null`s React drops are skipped. */
  function GroupsUpTo(positions: seq<NodePosition>, k: nat, minX: real, minY: real): seq<ConnectorGroup>
    requires k <= |positions|
  {
    if k == 0 then
      []
    else
      GroupsUpTo(positions, k - 1, minX, minY) +
        match Connector(positions[k - 1], k - 1, minX, minY)
        case None => []
        case Some(g) => [g]
  }

  /** Every group the canvas renders, in `positions` order. */
  function ConnectorGroups(positions: seq<NodePosition>, minX: real, minY: real): seq<ConnectorGroup>
  {
    GroupsUpTo(positions, |positions|, minX, minY)
  }

  /** `g` is the connector of a pinned position among the first `k`, the one at `g.keyIndex - 1`. */
  ghost predicate Draws(positions: seq<NodePosition>, k: nat, g: ConnectorGroup, minX: real, minY: real)
  {
    var i := g.keyIndex - 1;
    && 0 <= i < k <= |positions|
    && positions[i].parentPos.Some?
    && Connector(positions[i], i, minX, minY) == Some(g)
  }

  /** One more position adds its group, when it has a pin, after the others. */
  lemma {:induction false} GroupsUpToStep(positions: seq<NodePosition>, k: nat, minX: real, minY: real)
    requires 0 < k <= |positions|
    ensures positions[k - 1].parentPos.None? ==> GroupsUpTo(positions, k, minX, minY) == GroupsUpTo(positions, k - 1, minX, minY)
    ensures positions[k - 1].parentPos.Some? ==>
      && Connector(positions[k - 1], k - 1, minX, minY).Some?
      && GroupsUpTo(positions, k, minX, minY) == GroupsUpTo(positions, k - 1, minX, minY) + [Connector(positions[k - 1], k - 1, minX, minY).value]
  {
  }

  /** Every group drawn for the first `k` positions is the connector of a pinned one of them. */
  lemma {:induction false} GroupsUpToDraw(positions: seq<NodePosition>, k: nat, minX: real, minY: real)
    requires k <= |positions|
    ensures |GroupsUpTo(positions, k, minX, minY)| <= k
    ensures forall g :: g in GroupsUpTo(positions, k, minX, minY) ==> Draws(positions, k, g, minX, minY)
  {
    if k > 0 {
      GroupsUpToDraw(positions, k - 1, minX, minY);
      GroupsUpToStep(positions, k, minX, minY);
      var prev := GroupsUpTo(positions, k - 1, minX, minY);
      forall g | g in prev ensures Draws(positions, k, g, minX, minY) {
        assert Draws(positions, k - 1, g, minX, minY);
      }
    }
  }

  /** The groups follow the positions' order, so their keys are distinct. */
  lemma {:induction false} GroupsUpToOrdered(positions: seq<NodePosition>, k: nat, minX: real, minY: real)
    requires k <= |positions|
    ensures var gs := GroupsUpTo(positions, k, minX, minY);
      forall j, j' :: 0 <= j < j' < |gs| ==> gs[j].keyIndex < gs[j'].keyIndex
  {
    if k > 0 {
      GroupsUpToOrdered(positions, k - 1, minX, minY);
      GroupsUpToStep(positions, k, minX, minY);
      var prev := GroupsUpTo(positions, k - 1, minX, minY);
      GroupsUpToDraw(positions, k - 1, minX, minY);
      if positions[k - 1].parentPos.Some? {
        var gs := GroupsUpTo(positions, k, minX, minY);
        forall j, j' | 0 <= j < j' < |gs| ensures gs[j].keyIndex < gs[j'].keyIndex {
          assert gs[j] == prev[j] && prev[j] in prev;
          assert Draws(positions, k - 1, prev[j], minX, minY);
          if j' < |prev| {
            assert gs[j'] == prev[j'];
          }
        }
      }
    }
  }

  /** No pinned position among the first `k` is missed. */
  lemma {:induction false} GroupsUpToComplete(positions: seq<NodePosition>, k: nat, minX: real, minY: real)
    requires k <= |positions|
    ensures var gs := GroupsUpTo(positions, k, minX, minY);
      forall i :: 0 <= i < k && positions[i].parentPos.Some? ==> exists j :: 0 <= j < |gs| && gs[j].keyIndex == i + 1
  {
    if k > 0 {
      GroupsUpToComplete(positions, k - 1, minX, minY);
      GroupsUpToStep(positions, k, minX, minY);
      var prev := GroupsUpTo(positions, k - 1, minX, minY);
      var gs := GroupsUpTo(positions, k, minX, minY);
      forall i | 0 <= i < k && positions[i].parentPos.Some? ensures exists j :: 0 <= j < |gs| && gs[j].keyIndex == i + 1 {
        if i < k - 1 {
          var j :| 0 <= j < |prev| && prev[j].keyIndex == i + 1;
          assert gs[j] == prev[j];
        } else {
          assert gs[|prev|].keyIndex == i + 1;
        }
      }
    }
  }

  /** The canvas draws one group per pinned position, in order, and nothing for an unpinned one. */
  lemma {:induction false} ConnectorGroupsEnumeratePinned(positions: seq<NodePosition>, minX: real, minY: real)
    ensures var g := ConnectorGroups(positions, minX, minY);
      && (forall gr :: gr in g ==> Draws(positions, |positions|, gr, minX, minY))
      && (forall j, j' :: 0 <= j < j' < |g| ==> g[j].keyIndex < g[j'].keyIndex)
      && (forall i :: 0 <= i < |positions| && positions[i].parentPos.Some? ==> exists j :: 0 <= j < |g| && g[j].keyIndex == i + 1)
      && (forall j :: 0 <= j < |g| ==> g[j].border == g[j].fill && |g[j].border| == 4)
  {
    var g := ConnectorGroups(positions, minX, minY);
    GroupsUpToDraw(positions, |positions|, minX, minY);
    GroupsUpToOrdered(positions, |positions|, minX, minY);
    GroupsUpToComplete(positions, |positions|, minX, minY);
    forall j | 0 <= j < |g| ensures g[j].border == g[j].fill && |g[j].border| == 4 {
      assert g[j] in g;
      assert Draws(positions, |positions|, g[j], minX, minY);
    }
  }

  /** `pts` moved by (`dx`, `dy`). */
  function Translate(pts: seq<Point>, dx: real, dy: real): (r: seq<Point>)
    ensures |r| == |pts|
  {
    seq(|pts|, i requires 0 <= i < |pts| => Point(pts[i].x + dx, pts[i].y + dy))
  }

  /** The displacement of each segment of the polyline `pts`. */
  function Segments(pts: seq<Point>): (r: seq<Point>)
    ensures |r| == if |pts| == 0 then 0 else |pts| - 1
  {
    if |pts| <= 1 then [] else seq(|pts| - 1, i requires 0 <= i < |pts| - 1 => Point(pts[i + 1].x - pts[i].x, pts[i + 1].y - pts[i].y))
  }

  /**
   * Moving the bounding box's corner by (`dx`, `dy`) moves every point of a
   * connector by (-`dx`, -`dy`) and leaves every segment as it was.
   */
  lemma {:induction false} ElbowTranslates(parent: Point, x: real, y: real, minX: real, minY: real, dx: real, dy: real)
    ensures ElbowPoints(parent, x, y, minX + dx, minY + dy) == Translate(ElbowPoints(parent, x, y, minX, minY), -dx, -dy)
    ensures Segments(ElbowPoints(parent, x, y, minX + dx, minY + dy)) == Segments(ElbowPoints(parent, x, y, minX, minY))
  {
    var a := ElbowPoints(parent, x, y, minX, minY);
    var b := ElbowPoints(parent, x, y, minX + dx, minY + dy);
    var t := Translate(a, -dx, -dy);
    forall i | 0 <= i < 4 ensures b[i] == t[i] {
    }
    assert b == t;
    forall i | 0 <= i < 3 ensures Segments(b)[i] == Segments(a)[i] {
    }
  }

  /**
   * The three segments of a connector: along the parent's row to 20 short of
   * the node, straight down or up by the rows' difference, then 20 across.
   */
  lemma {:induction false} ElbowSegments(parent: Point, x: real, y: real, minX: real, minY: real)
    ensures Segments(ElbowPoints(parent, x, y, minX, minY)) ==
      [Point(x - parent.x - 2.0 * AnchorOffsetX, 0.0), Point(0.0, y - parent.y), Point(AnchorOffsetX, 0.0)]
  {
    var s := Segments(ElbowPoints(parent, x, y, minX, minY));
    assert s[0] == Point(x - parent.x - 2.0 * AnchorOffsetX, 0.0);
    assert s[1] == Point(0.0, y - parent.y);
    assert s[2] == Point(AnchorOffsetX, 0.0);
  }
}
