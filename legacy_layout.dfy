/**
 * The legacy layout script: the nested tree fanned out to the right, each
 * node's children spread 140 apart and centred on the node's row, 180
 * further right, every child pinned to its parent's point.
 */
module LegacyLayout {
  import opened Wrappers
  import opened SkillNodes

  const FanSpacing: real := 140.0
  const FanStepX: real := 180.0

  /** A laid-out nested node; `parentPos` is the parent's own point. */
  datatype FanPosition = FanPosition(x: real, y: real, node: NestedSkillNode, unlocked: bool, parentPos: Option<Point>)

  /** The row of child `i` of `n`: `y + i * 140 - (n - 1) * 140 / 2`, with exact division. */
  function ChildY(y: real, i: nat, n: nat): real
    requires i < n
  {
    y + i as real * FanSpacing - ((n - 1) as real * FanSpacing) / 2.0
  }

  /** `calculatePositions` as a function: the node's own position, then each child's block in turn. */
  function FanOut(node: NestedSkillNode, x: real, y: real, parentPos: Option<Point>, unlocked: set<string>): seq<FanPosition>
    decreases node, 1
  {
    var currentPos := FanPosition(x, y, node, node.name in unlocked, parentPos);
    if |node.children| == 0 then
      [currentPos]
    else
      [currentPos] + FanOutChildren(node, |node.children|, x, y, unlocked)
  }

  /** The blocks of the first `k` children of `node`, placed at `x + 180` and pinned to (`x`, `y`). */
  function FanOutChildren(node: NestedSkillNode, k: nat, x: real, y: real, unlocked: set<string>): seq<FanPosition>
    requires k <= |node.children|
    decreases node, 0, k
  {
    if k == 0 then
      []
    else
      FanOutChildren(node, k - 1, x, y, unlocked) +
        FanOut(node.children[k - 1], x + FanStepX, ChildY(y, k - 1, |node.children|), Some(Point(x, y)), unlocked)
  }

  /** `calculatePositions`, pushing each child's positions in its `forEach`. */
  method CalculatePositions(node: NestedSkillNode, x: real, y: real, parentPos: Option<Point>, unlocked: set<string>)
    returns (positions: seq<FanPosition>)
    ensures positions == FanOut(node, x, y, parentPos, unlocked)
    decreases node
  {
    var currentPos := FanPosition(x, y, node, node.name in unlocked, parentPos);
    if |node.children| == 0 {
      return [currentPos];
    }
    var childPositions: seq<FanPosition> := [];
    for index := 0 to |node.children|
      invariant childPositions == FanOutChildren(node, index, x, y, unlocked)
    {
      var child := node.children[index];
      var childY := y + index as real * FanSpacing - ((|node.children| - 1) as real * FanSpacing) / 2.0;
      var childX := x + FanStepX;
      var pushed := CalculatePositions(child, childX, childY, Some(Point(x, y)), unlocked);
      childPositions := childPositions + pushed;
    }
    positions := [currentPos] + childPositions;
  }

  /** The script's top-level call: the data's root at (100, 400), no pin, and the empty unlocked set. */
  function AllPositions(data: NestedSkillNode): seq<FanPosition>
  {
    FanOut(data, 100.0, 400.0, None, {})
  }

  // ------------------------------------------------------------- properties

  /**
   * The output is the pre-order of the subtree, one position per node,
   * beginning with the node itself at (`x`, `y`) with the given pin, and each
   * position's flag is its node's name's membership of `unlocked`.
   */
  lemma {:induction false} FanOutPreorder(node: NestedSkillNode, x: real, y: real, parentPos: Option<Point>, unlocked: set<string>)
    ensures var ps := FanOut(node, x, y, parentPos, unlocked);
      && |ps| == Size(node)
      && ps[0] == FanPosition(x, y, node, node.name in unlocked, parentPos)
      && |Preorder(node)| == |ps|
      && forall i :: 0 <= i < |ps| ==> ps[i].node == Preorder(node)[i] && ps[i].unlocked == (ps[i].node.name in unlocked)
    decreases node, 1
  {
    var ps := FanOut(node, x, y, parentPos, unlocked);
    var cs := FanOutChildren(node, |node.children|, x, y, unlocked);
    FanOutChildrenPreorder(node, |node.children|, x, y, unlocked);
    PreorderLength(node);
    assert ps == [ps[0]] + cs;
    forall i | 0 < i < |ps| ensures ps[i].node == Preorder(node)[i] && ps[i].unlocked == (ps[i].node.name in unlocked) {
      assert ps[i] == cs[i - 1];
      assert Preorder(node)[i] == PreorderChildren(node, |node.children|)[i - 1];
    }
  }

  lemma {:induction false} FanOutChildrenPreorder(node: NestedSkillNode, k: nat, x: real, y: real, unlocked: set<string>)
    requires k <= |node.children|
    ensures var cs := FanOutChildren(node, k, x, y, unlocked);
      && |cs| == SizeChildren(node, k)
      && |PreorderChildren(node, k)| == |cs|
      && forall i :: 0 <= i < |cs| ==> cs[i].node == PreorderChildren(node, k)[i] && cs[i].unlocked == (cs[i].node.name in unlocked)
    decreases node, 0, k
  {
    if k > 0 {
      var c := node.children[k - 1];
      var prev := FanOutChildren(node, k - 1, x, y, unlocked);
      var block := FanOut(c, x + FanStepX, ChildY(y, k - 1, |node.children|), Some(Point(x, y)), unlocked);
      FanOutChildrenPreorder(node, k - 1, x, y, unlocked);
      FanOutPreorder(c, x + FanStepX, ChildY(y, k - 1, |node.children|), Some(Point(x, y)), unlocked);
      var cs := FanOutChildren(node, k, x, y, unlocked);
      var pc := PreorderChildren(node, k);
      assert cs == prev + block;
      assert pc == PreorderChildren(node, k - 1) + Preorder(c);
      forall i | |prev| <= i < |cs| ensures cs[i].node == pc[i] && cs[i].unlocked == (cs[i].node.name in unlocked) {
        assert cs[i] == block[i - |prev|];
        assert pc[i] == Preorder(c)[i - |prev|];
      }
    }
  }

  /** `p` has a pin and sits one column, 180, to the right of it. */
  predicate Pinned(p: FanPosition)
  {
    p.parentPos.Some? && p.x == p.parentPos.value.x + FanStepX
  }

  /**
   * Every position after the first is pinned, and sits 180 to the right of
   * its pin: each connector goes from a parent to a child one column on.
   */
  lemma {:induction false} FanOutPinned(node: NestedSkillNode, x: real, y: real, parentPos: Option<Point>, unlocked: set<string>)
    ensures var ps := FanOut(node, x, y, parentPos, unlocked);
      && ps[0].x == x && ps[0].parentPos == parentPos
      && forall i :: 0 < i < |ps| ==> Pinned(ps[i])
    decreases node, 1
  {
    var ps := FanOut(node, x, y, parentPos, unlocked);
    var cs := FanOutChildren(node, |node.children|, x, y, unlocked);
    FanOutChildrenPinned(node, |node.children|, x, y, unlocked);
    assert ps == [ps[0]] + cs;
    forall i | 0 < i < |ps| ensures Pinned(ps[i]) {
      assert ps[i] == cs[i - 1];
    }
  }

  lemma {:induction false} FanOutChildrenPinned(node: NestedSkillNode, k: nat, x: real, y: real, unlocked: set<string>)
    requires k <= |node.children|
    ensures forall i :: 0 <= i < |FanOutChildren(node, k, x, y, unlocked)| ==> Pinned(FanOutChildren(node, k, x, y, unlocked)[i])
    decreases node, 0, k
  {
    if k > 0 {
      var c := node.children[k - 1];
      var prev := FanOutChildren(node, k - 1, x, y, unlocked);
      var block := FanOut(c, x + FanStepX, ChildY(y, k - 1, |node.children|), Some(Point(x, y)), unlocked);
      FanOutChildrenPinned(node, k - 1, x, y, unlocked);
      FanOutPinned(c, x + FanStepX, ChildY(y, k - 1, |node.children|), Some(Point(x, y)), unlocked);
      var cs := FanOutChildren(node, k, x, y, unlocked);
      assert cs == prev + block;
      forall i | 0 <= i < |cs| ensures Pinned(cs[i]) {
        if i < |prev| {
          assert cs[i] == prev[i];
        } else {
          assert cs[i] == block[i - |prev|];
        }
      }
    }
  }

  /** Where child `j`'s block starts in the node's output. */
  function ChildStart(node: NestedSkillNode, j: nat): nat
    requires j < |node.children|
  {
    1 + SizeChildren(node, j)
  }

  /** The blocks of the first `k` children: child `j`'s block follows the earlier ones. */
  lemma {:induction false} FanOutChildrenBlock(node: NestedSkillNode, k: nat, j: nat, x: real, y: real, unlocked: set<string>)
    requires j < k <= |node.children|
    ensures var cs := FanOutChildren(node, k, x, y, unlocked);
      var block := FanOut(node.children[j], x + FanStepX, ChildY(y, j, |node.children|), Some(Point(x, y)), unlocked);
      && SizeChildren(node, j) + |block| <= |cs|
      && forall i :: 0 <= i < |block| ==> cs[SizeChildren(node, j) + i] == block[i]
    decreases k
  {
    var cs := FanOutChildren(node, k, x, y, unlocked);
    var prev := FanOutChildren(node, k - 1, x, y, unlocked);
    var last := FanOut(node.children[k - 1], x + FanStepX, ChildY(y, k - 1, |node.children|), Some(Point(x, y)), unlocked);
    assert cs == prev + last;
    FanOutChildrenPreorder(node, k - 1, x, y, unlocked);
    if j < k - 1 {
      FanOutChildrenBlock(node, k - 1, j, x, y, unlocked);
    }
  }

  /**
   * Child `j` of a node laid out at (`x`, `y`) heads its block at
   * `ChildStart`: that position is the child, at `x + 180` on row
   * `ChildY(y, j, n)`, pinned to (`x`, `y`).
   */
  lemma {:induction false} FanOutChildAt(node: NestedSkillNode, j: nat, x: real, y: real, parentPos: Option<Point>, unlocked: set<string>)
    requires j < |node.children|
    ensures var ps := FanOut(node, x, y, parentPos, unlocked);
      var c := node.children[j];
      && ChildStart(node, j) < |ps|
      && ps[ChildStart(node, j)] == FanPosition(x + FanStepX, ChildY(y, j, |node.children|), c, c.name in unlocked, Some(Point(x, y)))
  {
    var ps := FanOut(node, x, y, parentPos, unlocked);
    var cs := FanOutChildren(node, |node.children|, x, y, unlocked);
    var c := node.children[j];
    var block := FanOut(c, x + FanStepX, ChildY(y, j, |node.children|), Some(Point(x, y)), unlocked);
    FanOutChildrenBlock(node, |node.children|, j, x, y, unlocked);
    FanOutPreorder(c, x + FanStepX, ChildY(y, j, |node.children|), Some(Point(x, y)), unlocked);
    assert ps == [ps[0]] + cs;
    assert ps[ChildStart(node, j)] == cs[SizeChildren(node, j) + 0];
  }

  /**
   * The fan of children: consecutive siblings are 140 apart, child `i` and
   * child `n - 1 - i` are mirror images about the parent's row, and with an
   * odd count the middle child is on the parent's row.
   */
  lemma {:induction false} FanIsSymmetric(node: NestedSkillNode, x: real, y: real, parentPos: Option<Point>, unlocked: set<string>)
    ensures var ps := FanOut(node, x, y, parentPos, unlocked);
      var n := |node.children|;
      && (forall j :: 0 <= j < n ==> ChildStart(node, j) < |ps|)
      && (forall j :: 0 <= j < n - 1 ==> ps[ChildStart(node, j + 1)].y - ps[ChildStart(node, j)].y == FanSpacing)
      && (forall j :: 0 <= j < n ==> ps[ChildStart(node, j)].y + ps[ChildStart(node, n - 1 - j)].y == 2.0 * y)
      && (n % 2 == 1 ==> ps[ChildStart(node, n / 2)].y == y)
  {
    var ps := FanOut(node, x, y, parentPos, unlocked);
    var n := |node.children|;
    forall j | 0 <= j < n ensures ChildStart(node, j) < |ps| && ps[ChildStart(node, j)].y == ChildY(y, j, n) {
      FanOutChildAt(node, j, x, y, parentPos, unlocked);
    }
  }

  /**
   * The script's output: the data's pre-order, the root at (100, 400) with no
   * pin and every later position pinned, and nothing unlocked.
   */
  lemma {:induction false} AllPositionsShape(data: NestedSkillNode)
    ensures var ps := AllPositions(data);
      && |ps| == Size(data) == |Preorder(data)|
      && ps[0].x == 100.0 && ps[0].y == 400.0 && ps[0].parentPos == None
      && (forall i :: 0 <= i < |ps| ==> ps[i].node == Preorder(data)[i] && !ps[i].unlocked)
      && (forall i :: 0 < i < |ps| ==> ps[i].parentPos.Some?)
  {
    FanOutPreorder(data, 100.0, 400.0, None, {});
    FanOutPinned(data, 100.0, 400.0, None, {});
  }
}
