/**
 * What the subtree-height layout guarantees, stated against independent
 * reference definitions of the tree: its pre-order visits (with depth and
 * parent index) and its leaf count.
 */
module PositionsProofs {
  import opened Wrappers
  import opened SkillNodes
  import opened Normalize
  import opened SkillTreePositions

  /** One node in pre-order: its id, depth below the subtree root, and the index of its parent's visit. */
  datatype Visit = Visit(id: NodeId, depth: nat, parent: Option<nat>)

  /** Reference pre-order of a rebuilt tree. */
  function Visits(t: TreeNode): seq<Visit>
    decreases t, |t.children| + 1
  {
    [Visit(t.node.id, 0, None)] + VisitsChildren(t, |t.children|)
  }

  /** The visits of the first `k` children's subtrees, numbered as in `Visits(t)`. */
  function VisitsChildren(t: TreeNode, k: nat): seq<Visit>
    requires k <= |t.children|
    decreases t, k
  {
    if k == 0 then
      []
    else
      var prev := VisitsChildren(t, k - 1);
      prev + Nest(Visits(t.children[k - 1]), 1 + |prev|)
  }

  /** A child's visits, one level deeper, renumbered to start at `offset`; its root's parent is visit 0. */
  function Nest(vs: seq<Visit>, offset: nat): (r: seq<Visit>)
    ensures |r| == |vs|
  {
    seq(|vs|, i requires 0 <= i < |vs| =>
      Visit(vs[i].id, vs[i].depth + 1, if vs[i].parent.None? then Some(0) else Some(vs[i].parent.value + offset)))
  }

  /** Number of leaves of a rebuilt tree. */
  function LeafCount(t: TreeNode): (r: nat)
    ensures r >= 1
    decreases t, |t.children| + 1
  {
    if |t.children| == 0 then 1 else LeafCountChildren(t, |t.children|)
  }

  /** Leaves under the first `k` children; at least `k`. */
  function LeafCountChildren(t: TreeNode, k: nat): (r: nat)
    requires k <= |t.children|
    ensures r >= k
    decreases t, k
  {
    if k == 0 then 0 else LeafCountChildren(t, k - 1) + LeafCount(t.children[k - 1])
  }

  /**
   * The visits form a tree in pre-order: the root comes first at depth 0, and
   * every later visit's parent is an earlier visit one level up.
   */
  lemma {:induction false} VisitsWellFormed(t: TreeNode)
    ensures |Visits(t)| >= 1 && Visits(t)[0] == Visit(t.node.id, 0, None)
    ensures forall k :: 0 < k < |Visits(t)| ==>
      var v := Visits(t)[k];
      v.parent.Some? && v.parent.value < k && v.depth == Visits(t)[v.parent.value].depth + 1
    decreases t, |t.children| + 1
  {
    VisitsChildrenWellFormed(t, |t.children|);
    var vs := Visits(t);
    var w := VisitsChildren(t, |t.children|);
    forall k | 0 < k < |vs|
      ensures vs[k].parent.Some? && vs[k].parent.value < k && vs[k].depth == vs[vs[k].parent.value].depth + 1
    {
      assert vs[k] == w[k - 1];
      assert ChildVisitOk(w, k - 1);
      if w[k - 1].parent.value > 0 {
        assert vs[w[k - 1].parent.value] == w[w[k - 1].parent.value - 1];
      }
    }
  }

  /** Visit `m` of a children block has an earlier parent one level up; parent 0 is the block's root. */
  ghost predicate ChildVisitOk(w: seq<Visit>, m: nat)
    requires m < |w|
  {
    && w[m].parent.Some? && w[m].parent.value <= m && w[m].depth >= 1
    && (w[m].parent.value == 0 ==> w[m].depth == 1)
    && (w[m].parent.value > 0 ==> w[m].depth == w[w[m].parent.value - 1].depth + 1)
  }

  lemma {:induction false} VisitsChildrenWellFormed(t: TreeNode, k: nat)
    requires k <= |t.children|
    ensures forall m :: 0 <= m < |VisitsChildren(t, k)| ==> ChildVisitOk(VisitsChildren(t, k), m)
    decreases t, k
  {
    if k > 0 {
      var prev := VisitsChildren(t, k - 1);
      var c := t.children[k - 1];
      VisitsChildrenWellFormed(t, k - 1);
      VisitsWellFormed(c);
      var w := VisitsChildren(t, k);
      var vc := Visits(c);
      var off := 1 + |prev|;
      forall m | 0 <= m < |w| ensures ChildVisitOk(w, m) {
        if m < |prev| {
          assert w[m] == prev[m];
          assert ChildVisitOk(prev, m);
          if prev[m].parent.value > 0 {
            assert w[prev[m].parent.value - 1] == prev[prev[m].parent.value - 1];
          }
        } else {
        var mm := m - |prev|;
        assert w[m] == Nest(vc, off)[mm];
        if mm > 0 {
          var j := vc[mm].parent.value;
          assert w[off + j - 1] == Nest(vc, off)[j];
        }
        }
      }
    }
  }

  /** Position `p` is the one laid out for visit `v` in a layout started in column `x`. */
  predicate FollowsVisit(p: NodePosition, v: Visit, x: real, unlocked: seq<NodeId>)
  {
    && p.nodeId == v.id
    && p.x == x + HorizontalSpacing * v.depth as real
    && (p.unlocked <==> v.id in unlocked)
  }

  /**
   * Pre-order output: the layout has one position per visit, for the same
   * node, at x = x0 + 120 × depth, with `unlocked` telling whether the id is
   * in the unlocked list.
   */
  lemma {:induction false} LayoutFollowsVisits(t: TreeNode, x: real, startY: real, parentPos: Option<Point>, unlocked: seq<NodeId>)
    ensures var ps := Layout(t, x, startY, parentPos, unlocked).positions;
      var vs := Visits(t);
      && |ps| == |vs|
      && forall k :: 0 <= k < |ps| ==> FollowsVisit(ps[k], vs[k], x, unlocked)
    decreases t, |t.children| + 1
  {
    var n := |t.children|;
    if n > 0 {
      var rs := LayoutChildren(t, n, x, startY, unlocked);
      var q := Concat(rs);
      var w := VisitsChildren(t, n);
      var centerY := CentreRow(rs, startY);
      var current := NodePosition(x, centerY, t.node.id, t.node.id in unlocked, parentPos);
      var ps := [current] + RepinAll(q, x, centerY);
      LayoutNode(t, x, startY, parentPos, unlocked);
      assert |q| == |w| && forall m :: 0 <= m < |q| ==> FollowsVisit(q[m], w[m], x, unlocked) by {
        LayoutChildrenFollowVisits(t, n, x, startY, unlocked);
      }
      var vs := [Visit(t.node.id, 0, None)] + w;
      forall k | 0 <= k < |ps| ensures FollowsVisit(ps[k], vs[k], x, unlocked) {
        if k > 0 {
          assert ps[k] == Repin(q[k - 1], x, centerY) && vs[k] == w[k - 1];
          assert FollowsVisit(q[k - 1], w[k - 1], x, unlocked);
        }
      }
    }
  }

  /** The visits of the first `k` children end with child `k - 1`'s visits, one level deeper. */
  lemma {:induction false} VisitsChildrenSnoc(t: TreeNode, k: nat)
    requires 0 < k <= |t.children|
    ensures VisitsChildren(t, k) == VisitsChildren(t, k - 1) + Nest(Visits(t.children[k - 1]), 1 + |VisitsChildren(t, k - 1)|)
  {
  }

  /** Appending one child's block keeps the correspondence, the child being one column right and one level down. */
  lemma {:induction false} FollowBlock(q0: seq<NodePosition>, w0: seq<Visit>, cp: seq<NodePosition>, vc: seq<Visit>, x: real, off: nat,
                    unlocked: seq<NodeId>, q: seq<NodePosition>, w: seq<Visit>)
    requires q == q0 + cp && w == w0 + Nest(vc, off)
    requires |q0| == |w0| && forall m :: 0 <= m < |q0| ==> FollowsVisit(q0[m], w0[m], x, unlocked)
    requires |cp| == |vc| && forall m :: 0 <= m < |cp| ==> FollowsVisit(cp[m], vc[m], x + HorizontalSpacing, unlocked)
    ensures |q| == |w| && forall m :: 0 <= m < |q| ==> FollowsVisit(q[m], w[m], x, unlocked)
  {
    forall m | 0 <= m < |q| ensures FollowsVisit(q[m], w[m], x, unlocked) {
      if m < |q0| {
        assert q[m] == q0[m] && w[m] == w0[m];
      } else {
        var mm := m - |q0|;
        assert q[m] == cp[mm] && w[m] == Nest(vc, off)[mm];
        assert FollowsVisit(cp[mm], vc[mm], x + HorizontalSpacing, unlocked);
      }
    }
  }

  lemma {:induction false} LayoutChildrenFollowVisits(t: TreeNode, k: nat, x: real, startY: real, unlocked: seq<NodeId>)
    requires k <= |t.children|
    ensures var ps := Concat(LayoutChildren(t, k, x, startY, unlocked));
      var vs := VisitsChildren(t, k);
      && |ps| == |vs|
      && forall m :: 0 <= m < |ps| ==> FollowsVisit(ps[m], vs[m], x, unlocked)
    decreases t, k
  {
    if k > 0 {
      var rs := LayoutChildren(t, k, x, startY, unlocked);
      var c := t.children[k - 1];
      var cp := rs[k - 1].positions;
      var q0 := Concat(LayoutChildren(t, k - 1, x, startY, unlocked));
      var w0 := VisitsChildren(t, k - 1);
      assert Concat(rs) == q0 + cp by {
        LayoutChildrenConcat(t, k, x, startY, unlocked);
      }
      assert VisitsChildren(t, k) == w0 + Nest(Visits(c), 1 + |w0|) by {
        VisitsChildrenSnoc(t, k);
      }
      assert |q0| == |w0| && forall m :: 0 <= m < |q0| ==> FollowsVisit(q0[m], w0[m], x, unlocked) by {
        LayoutChildrenFollowVisits(t, k - 1, x, startY, unlocked);
      }
      assert |cp| == |Visits(c)| && forall m :: 0 <= m < |cp| ==> FollowsVisit(cp[m], Visits(c)[m], x + HorizontalSpacing, unlocked) by {
        LastChildFollowsVisits(t, k, x, startY, unlocked);
      }
      FollowBlock(q0, w0, cp, Visits(c), x, 1 + |w0|, unlocked, Concat(rs), VisitsChildren(t, k));
    }
  }

  /** The block of child `k - 1` follows that child's visits, one column right. */
  lemma {:induction false} LastChildFollowsVisits(t: TreeNode, k: nat, x: real, startY: real, unlocked: seq<NodeId>)
    requires 0 < k <= |t.children|
    ensures var cp := LayoutChildren(t, k, x, startY, unlocked)[k - 1].positions;
      var vc := Visits(t.children[k - 1]);
      && |cp| == |vc|
      && forall m :: 0 <= m < |cp| ==> FollowsVisit(cp[m], vc[m], x + HorizontalSpacing, unlocked)
    decreases t, 0
  {
    var prev := LayoutChildren(t, k - 1, x, startY, unlocked);
    LayoutChildrenSnoc(t, k, x, startY, unlocked);
    LayoutFollowsVisits(t.children[k - 1], x + HorizontalSpacing, startY + TotalHeight(prev) as real * VerticalSpacing, Some(Point(x, 0.0)), unlocked);
  }

  /** An internal node is placed at the centre row of its children's results, followed by their re-pinned positions. */
  lemma {:induction false} LayoutNode(t: TreeNode, x: real, startY: real, parentPos: Option<Point>, unlocked: seq<NodeId>)
    requires |t.children| > 0
    ensures var rs := LayoutChildren(t, |t.children|, x, startY, unlocked);
      var centerY := CentreRow(rs, startY);
      Layout(t, x, startY, parentPos, unlocked)
      == LayoutResult([NodePosition(x, centerY, t.node.id, t.node.id in unlocked, parentPos)]
                      + RepinAll(Concat(rs), x, centerY), TotalHeight(rs))
  {
  }

  /** The results of the first `k` children are those of the first `k - 1` and then child `k - 1`'s, started below them. */
  lemma {:induction false} LayoutChildrenSnoc(t: TreeNode, k: nat, x: real, startY: real, unlocked: seq<NodeId>)
    requires 0 < k <= |t.children|
    ensures var prev := LayoutChildren(t, k - 1, x, startY, unlocked);
      var rs := LayoutChildren(t, k, x, startY, unlocked);
      && rs[..k - 1] == prev
      && rs[k - 1] == Layout(t.children[k - 1], x + HorizontalSpacing, startY + TotalHeight(prev) as real * VerticalSpacing,
                            Some(Point(x, 0.0)), unlocked)
  {
  }

  /** The positions of the first `k` children's blocks end with child `k - 1`'s block. */
  lemma {:induction false} LayoutChildrenConcat(t: TreeNode, k: nat, x: real, startY: real, unlocked: seq<NodeId>)
    requires 0 < k <= |t.children|
    ensures var rs := LayoutChildren(t, k, x, startY, unlocked);
      Concat(rs) == Concat(LayoutChildren(t, k - 1, x, startY, unlocked)) + rs[k - 1].positions
  {
    LayoutChildrenSnoc(t, k, x, startY, unlocked);
  }

  /** A subtree's layout is never empty and occupies one row per leaf. */
  lemma {:induction false} LayoutUsedHeight(t: TreeNode, x: real, startY: real, parentPos: Option<Point>, unlocked: seq<NodeId>)
    ensures var r := Layout(t, x, startY, parentPos, unlocked);
      r.usedHeight == LeafCount(t) && |r.positions| > 0
    decreases t, |t.children| + 1
  {
    if |t.children| > 0 {
      LayoutChildrenUsedHeight(t, |t.children|, x, startY, unlocked);
    }
  }

  lemma {:induction false} LayoutChildrenUsedHeight(t: TreeNode, k: nat, x: real, startY: real, unlocked: seq<NodeId>)
    requires k <= |t.children|
    ensures var rs := LayoutChildren(t, k, x, startY, unlocked);
      && TotalHeight(rs) == LeafCountChildren(t, k)
      && forall i :: 0 <= i < k ==> |rs[i].positions| > 0
    decreases t, k
  {
    if k > 0 {
      var rs := LayoutChildren(t, k, x, startY, unlocked);
      var prev := LayoutChildren(t, k - 1, x, startY, unlocked);
      var cy := startY + TotalHeight(prev) as real * VerticalSpacing;
      LayoutChildrenSnoc(t, k, x, startY, unlocked);
      LayoutChildrenUsedHeight(t, k - 1, x, startY, unlocked);
      LayoutUsedHeight(t.children[k - 1], x + HorizontalSpacing, cy, Some(Point(x, 0.0)), unlocked);
      forall i | 0 <= i < k ensures |rs[i].positions| > 0 {
        if i < k - 1 {
          assert rs[i] == prev[i];
        }
      }
    }
  }

  /**
   * The rows a subtree occupies are its leaves, and every position of the
   * subtree lies between `startY` and `startY + 80 × (rows - 1)`.
   */
  lemma {:induction false} LayoutHeight(t: TreeNode, x: real, startY: real, parentPos: Option<Point>, unlocked: seq<NodeId>)
    ensures var r := Layout(t, x, startY, parentPos, unlocked);
      && r.usedHeight == LeafCount(t)
      && |r.positions| > 0
      && forall k :: 0 <= k < |r.positions| ==>
        startY <= r.positions[k].y <= startY + (LeafCount(t) - 1) as real * VerticalSpacing
    decreases t, |t.children| + 1
  {
    var n := |t.children|;
    if n > 0 {
      var rs := LayoutChildren(t, n, x, startY, unlocked);
      var top := startY + (LeafCount(t) - 1) as real * VerticalSpacing;
      assert LeafCount(t) == LeafCountChildren(t, n);
      LayoutUsedHeight(t, x, startY, parentPos, unlocked);
      LayoutChildrenUsedHeight(t, n, x, startY, unlocked);
      LayoutChildrenHeight(t, n, x, startY, unlocked);
      assert |rs[0].positions| > 0 && |rs[n - 1].positions| > 0;
      var centerY := CentreRow(rs, startY);
      assert centerY == (rs[0].positions[0].y + rs[n - 1].positions[0].y) / 2.0;
      ConcatWithin(rs, startY, top);
      RepinKeepsRows(Concat(rs), x, centerY);
      var current := NodePosition(x, centerY, t.node.id, t.node.id in unlocked, parentPos);
      var ps := [current] + RepinAll(Concat(rs), x, centerY);
      LayoutNode(t, x, startY, parentPos, unlocked);
      forall k | 0 <= k < |ps| ensures startY <= ps[k].y <= top {
        if k > 0 {
          assert ps[k] == RepinAll(Concat(rs), x, centerY)[k - 1];
        }
      }
    }
  }

  lemma {:induction false} LayoutChildrenHeight(t: TreeNode, k: nat, x: real, startY: real, unlocked: seq<NodeId>)
    requires k <= |t.children|
    ensures var rs := LayoutChildren(t, k, x, startY, unlocked);
      forall i, m :: 0 <= i < k && 0 <= m < |rs[i].positions| ==>
        startY <= rs[i].positions[m].y <= startY + (LeafCountChildren(t, k) - 1) as real * VerticalSpacing
    decreases t, k
  {
    if k > 0 {
      var rs := LayoutChildren(t, k, x, startY, unlocked);
      var prev := LayoutChildren(t, k - 1, x, startY, unlocked);
      var c := t.children[k - 1];
      var cy := startY + TotalHeight(prev) as real * VerticalSpacing;
      LayoutChildrenSnoc(t, k, x, startY, unlocked);
      LayoutChildrenUsedHeight(t, k - 1, x, startY, unlocked);
      LayoutChildrenHeight(t, k - 1, x, startY, unlocked);
      LayoutHeight(c, x + HorizontalSpacing, cy, Some(Point(x, 0.0)), unlocked);
      var a: int := LeafCountChildren(t, k - 1);
      var b: int := LeafCount(c);
      assert LeafCountChildren(t, k) == a + b;
      assert TotalHeight(prev) == a;
      RowArithmetic(a, b - 1);
      RowArithmetic(a - 1, a + b - 1);
      RowArithmetic(0, a);
      var top := startY + (LeafCountChildren(t, k) - 1) as real * VerticalSpacing;
      forall i, m | 0 <= i < k && 0 <= m < |rs[i].positions|
        ensures startY <= rs[i].positions[m].y <= top
      {
        if i < k - 1 {
          assert rs[i] == prev[i];
        } else {
          assert rs[i] == Layout(c, x + HorizontalSpacing, cy, Some(Point(x, 0.0)), unlocked);
        }
      }
    }
  }

  /** Rows are 80 apart: `a` rows and then `b` more make `a + b` rows, and more rows reach further down. */
  lemma {:induction false} RowArithmetic(a: int, b: int)
    ensures a as real * VerticalSpacing + b as real * VerticalSpacing == (a + b) as real * VerticalSpacing
    ensures a <= b ==> a as real * VerticalSpacing <= b as real * VerticalSpacing
  {
  }

  /** If every block's rows lie in [lo, hi], so do the rows of the concatenation. */
  lemma {:induction false} ConcatWithin(rs: seq<LayoutResult>, lo: real, hi: real)
    requires forall i, m :: 0 <= i < |rs| && 0 <= m < |rs[i].positions| ==> lo <= rs[i].positions[m].y <= hi
    ensures forall m :: 0 <= m < |Concat(rs)| ==> lo <= Concat(rs)[m].y <= hi
    decreases |rs|
  {
    if rs != [] {
      ConcatWithin(rs[..|rs| - 1], lo, hi);
    }
  }

  /** Re-pinning changes only `parentPos`. */
  lemma {:induction false} RepinKeepsRows(ps: seq<NodePosition>, x: real, centerY: real)
    ensures forall m :: 0 <= m < |ps| ==>
      var q := RepinAll(ps, x, centerY)[m];
      q.x == ps[m].x && q.y == ps[m].y && q.nodeId == ps[m].nodeId && q.unlocked == ps[m].unlocked
  {
  }

  /**
   * Child `i` is laid out one column to the right, starting at the row after
   * the leaves of its earlier siblings, with the placeholder pin (x, 0).
   */
  lemma {:induction false} LayoutChildAt(t: TreeNode, k: nat, i: nat, x: real, startY: real, unlocked: seq<NodeId>)
    requires i < k <= |t.children|
    ensures LayoutChildren(t, k, x, startY, unlocked)[i]
      == Layout(t.children[i], x + HorizontalSpacing,
                startY + LeafCountChildren(t, i) as real * VerticalSpacing, Some(Point(x, 0.0)), unlocked)
    decreases k
  {
    LayoutChildrenSnoc(t, k, x, startY, unlocked);
    if i < k - 1 {
      LayoutChildAt(t, k - 1, i, x, startY, unlocked);
    } else {
      assert i == k - 1;
      LayoutChildrenUsedHeight(t, k - 1, x, startY, unlocked);
      assert TotalHeight(LayoutChildren(t, k - 1, x, startY, unlocked)) == LeafCountChildren(t, i);
    }
  }

  /**
   * An internal node sits in its own column, centred between the first and
   * the last child, which are placed as `LayoutChildAt` says.
   */
  lemma {:induction false} LayoutCentred(t: TreeNode, x: real, startY: real, parentPos: Option<Point>, unlocked: seq<NodeId>)
    requires |t.children| > 0
    ensures var n := |t.children|;
      var first := Layout(t.children[0], x + HorizontalSpacing, startY, Some(Point(x, 0.0)), unlocked);
      var last := Layout(t.children[n - 1], x + HorizontalSpacing,
                         startY + LeafCountChildren(t, n - 1) as real * VerticalSpacing, Some(Point(x, 0.0)), unlocked);
      var ps := Layout(t, x, startY, parentPos, unlocked).positions;
      && |first.positions| > 0 && |last.positions| > 0 && |ps| > 0
      && ps[0] == NodePosition(x, (first.positions[0].y + last.positions[0].y) / 2.0, t.node.id, t.node.id in unlocked, parentPos)
  {
    var n := |t.children|;
    var rs := LayoutChildren(t, n, x, startY, unlocked);
    LayoutEnds(t, x, startY, unlocked);
    LayoutRoot(t, x, startY, parentPos, unlocked);
    assert CentreRow(rs, startY) == (rs[0].positions[0].y + rs[n - 1].positions[0].y) / 2.0;
  }

  /** The first and the last child's results, as `LayoutChildAt` places them; neither is empty. */
  lemma {:induction false} LayoutEnds(t: TreeNode, x: real, startY: real, unlocked: seq<NodeId>)
    requires |t.children| > 0
    ensures var n := |t.children|;
      var rs := LayoutChildren(t, n, x, startY, unlocked);
      && rs[0] == Layout(t.children[0], x + HorizontalSpacing, startY, Some(Point(x, 0.0)), unlocked)
      && rs[n - 1] == Layout(t.children[n - 1], x + HorizontalSpacing,
                             startY + LeafCountChildren(t, n - 1) as real * VerticalSpacing, Some(Point(x, 0.0)), unlocked)
      && |rs[0].positions| > 0 && |rs[n - 1].positions| > 0
  {
    var n := |t.children|;
    var c := Some(Point(x, 0.0));
    var yLast := startY + LeafCountChildren(t, n - 1) as real * VerticalSpacing;
    LayoutChildAtRow(t, n, 0, x, startY, startY, unlocked);
    LayoutChildAtRow(t, n, n - 1, x, startY, yLast, unlocked);
    LayoutUsedHeight(t.children[0], x + HorizontalSpacing, startY, c, unlocked);
    LayoutUsedHeight(t.children[n - 1], x + HorizontalSpacing, yLast, c, unlocked);
  }

  /** `LayoutChildAt` with the child's start row given as `y`. */
  lemma {:induction false} LayoutChildAtRow(t: TreeNode, k: nat, i: nat, x: real, startY: real, y: real, unlocked: seq<NodeId>)
    requires i < k <= |t.children|
    requires y == startY + LeafCountChildren(t, i) as real * VerticalSpacing
    ensures LayoutChildren(t, k, x, startY, unlocked)[i] == Layout(t.children[i], x + HorizontalSpacing, y, Some(Point(x, 0.0)), unlocked)
  {
    LayoutChildAt(t, k, i, x, startY, unlocked);
  }

  /** The first position of a layout is the subtree's root, on the centre row of its children's results. */
  lemma {:induction false} LayoutRoot(t: TreeNode, x: real, startY: real, parentPos: Option<Point>, unlocked: seq<NodeId>)
    requires |t.children| > 0
    ensures var ps := Layout(t, x, startY, parentPos, unlocked).positions;
      && |ps| > 0
      && ps[0] == NodePosition(x, CentreRow(LayoutChildren(t, |t.children|, x, startY, unlocked), startY), t.node.id, t.node.id in unlocked, parentPos)
  {
  }

  /** The pin a position's connector starts from is the resolved position of `p`. */
  predicate PinnedTo(q: NodePosition, p: NodePosition)
  {
    q.parentPos == Some(Point(p.x, p.y))
  }

  /**
   * Every position but the first starts its connector at the position of its
   * parent visit.
   */
  ghost predicate PinsOk(ps: seq<NodePosition>, vs: seq<Visit>)
  {
    && |ps| == |vs|
    && forall k :: 0 < k < |ps| ==>
      vs[k].parent.Some? && vs[k].parent.value < k && PinnedTo(ps[k], ps[vs[k].parent.value])
  }

  /** Position `m` of a children block: its pin is (x, 0) for a direct child, else its parent's position. */
  ghost predicate ChildPinOk(q: seq<NodePosition>, w: seq<Visit>, m: nat, x: real)
    requires |q| == |w| && m < |q|
  {
    && w[m].parent.Some? && w[m].parent.value <= m
    && q[m].x >= x + HorizontalSpacing
    && (w[m].parent.value == 0 ==> q[m].parentPos == Some(Point(x, 0.0)))
    && (w[m].parent.value > 0 ==> PinnedTo(q[m], q[w[m].parent.value - 1]))
  }

  /** Appending one child's block, whose own pins are resolved, keeps the block invariant. */
  lemma {:induction false} BlockPins(q0: seq<NodePosition>, w0: seq<Visit>, cp: seq<NodePosition>, vc: seq<Visit>, x: real,
                  q: seq<NodePosition>, w: seq<Visit>)
    requires q == q0 + cp && w == w0 + Nest(vc, 1 + |w0|)
    requires |q0| == |w0| && forall m :: 0 <= m < |q0| ==> ChildPinOk(q0, w0, m, x)
    requires PinsOk(cp, vc) && |vc| > 0 && vc[0].parent.None?
    requires cp[0].parentPos == Some(Point(x, 0.0))
    requires forall k :: 0 <= k < |cp| ==> cp[k].x >= x + HorizontalSpacing
    ensures |q| == |w|
    ensures forall m :: 0 <= m < |q| ==> ChildPinOk(q, w, m, x)
  {
    forall m | 0 <= m < |q| ensures ChildPinOk(q, w, m, x) {
      if m < |q0| {
        assert w[m] == w0[m] && q[m] == q0[m];
        assert ChildPinOk(q0, w0, m, x);
        if w[m].parent.value > 0 {
          assert q[w[m].parent.value - 1] == q0[w[m].parent.value - 1];
        }
      } else {
        var mm := m - |q0|;
        assert q[m] == cp[mm];
        assert w[m] == Nest(vc, 1 + |w0|)[mm];
        if mm > 0 {
          var j := vc[mm].parent.value;
          assert q[|q0| + j] == cp[j];
        }
      }
    }
  }

  /** Placing the parent in front of a resolved children block and re-pinning resolves every pin. */
  lemma {:induction false} RootPins(q: seq<NodePosition>, w: seq<Visit>, x: real, centerY: real, current: NodePosition, v0: Visit)
    requires |q| == |w| && forall m :: 0 <= m < |q| ==> ChildPinOk(q, w, m, x)
    requires current.x == x && current.y == centerY
    ensures PinsOk([current] + RepinAll(q, x, centerY), [v0] + w)
  {
    var ps := [current] + RepinAll(q, x, centerY);
    var vs := [v0] + w;
    forall k | 0 < k < |ps|
      ensures vs[k].parent.Some? && vs[k].parent.value < k && PinnedTo(ps[k], ps[vs[k].parent.value])
    {
      assert vs[k] == w[k - 1];
      assert ps[k] == Repin(q[k - 1], x, centerY);
      assert ChildPinOk(q, w, k - 1, x);
      var j := w[k - 1].parent.value;
      if j > 0 {
        assert ps[j] == Repin(q[j - 1], x, centerY);
        assert ChildPinOk(q, w, j - 1, x);
      }
    }
  }

  /**
   * After the re-pinning pass every position except the first starts its
   * connector at the final, centred position of its parent in the tree, and
   * the first keeps the pin the caller passed.
   */
  lemma {:induction false} LayoutPinsParents(t: TreeNode, x: real, startY: real, parentPos: Option<Point>, unlocked: seq<NodeId>)
    ensures var ps := Layout(t, x, startY, parentPos, unlocked).positions;
      |ps| > 0 && ps[0].parentPos == parentPos && PinsOk(ps, Visits(t))
    decreases t, |t.children| + 1
  {
    var n := |t.children|;
    if n > 0 {
      var rs := LayoutChildren(t, n, x, startY, unlocked);
      var q := Concat(rs);
      var w := VisitsChildren(t, n);
      LayoutChildrenPins(t, n, x, startY, unlocked);
      var centerY := CentreRow(rs, startY);
      var current := NodePosition(x, centerY, t.node.id, t.node.id in unlocked, parentPos);
      RootPins(q, w, x, centerY, current, Visit(t.node.id, 0, None));
      LayoutNode(t, x, startY, parentPos, unlocked);
    }
  }

  /** No position of a layout lies left of the column it started in. */
  lemma {:induction false} LayoutRightOf(t: TreeNode, x: real, startY: real, parentPos: Option<Point>, unlocked: seq<NodeId>)
    ensures forall k :: 0 <= k < |Layout(t, x, startY, parentPos, unlocked).positions| ==>
      Layout(t, x, startY, parentPos, unlocked).positions[k].x >= x
  {
    var ps := Layout(t, x, startY, parentPos, unlocked).positions;
    LayoutFollowsVisits(t, x, startY, parentPos, unlocked);
    forall k | 0 <= k < |ps| ensures ps[k].x >= x {
      assert FollowsVisit(ps[k], Visits(t)[k], x, unlocked);
    }
  }

  /** Inside the children's blocks, direct children are pinned to (x, 0) and deeper nodes to their parents. */
  lemma {:induction false} LayoutChildrenPins(t: TreeNode, k: nat, x: real, startY: real, unlocked: seq<NodeId>)
    requires k <= |t.children|
    ensures var q := Concat(LayoutChildren(t, k, x, startY, unlocked));
      var w := VisitsChildren(t, k);
      && |q| == |w|
      && forall m :: 0 <= m < |q| ==> ChildPinOk(q, w, m, x)
    decreases t, k
  {
    if k > 0 {
      var rs := LayoutChildren(t, k, x, startY, unlocked);
      var vc := Visits(t.children[k - 1]);
      var cp := rs[k - 1].positions;
      var q0 := Concat(LayoutChildren(t, k - 1, x, startY, unlocked));
      var w0 := VisitsChildren(t, k - 1);
      assert Concat(rs) == q0 + cp by {
        LayoutChildrenConcat(t, k, x, startY, unlocked);
      }
      assert VisitsChildren(t, k) == w0 + Nest(vc, 1 + |w0|) by {
        VisitsChildrenSnoc(t, k);
      }
      assert |q0| == |w0| && forall m :: 0 <= m < |q0| ==> ChildPinOk(q0, w0, m, x) by {
        LayoutChildrenPins(t, k - 1, x, startY, unlocked);
      }
      LastChildPins(t, k, x, startY, unlocked);
      BlockPins(q0, w0, cp, vc, x, Concat(rs), VisitsChildren(t, k));
    }
  }

  /** The block of child `k - 1` starts with the child pinned to (x, 0), keeps its own pins and lies right of column `x`. */
  lemma {:induction false} LastChildPins(t: TreeNode, k: nat, x: real, startY: real, unlocked: seq<NodeId>)
    requires 0 < k <= |t.children|
    ensures var cp := LayoutChildren(t, k, x, startY, unlocked)[k - 1].positions;
      var vc := Visits(t.children[k - 1]);
      && |cp| > 0 && cp[0].parentPos == Some(Point(x, 0.0)) && PinsOk(cp, vc)
      && (forall j :: 0 <= j < |cp| ==> cp[j].x >= x + HorizontalSpacing)
      && vc[0].parent.None?
    decreases t, 0
  {
    var prev := LayoutChildren(t, k - 1, x, startY, unlocked);
    var c := t.children[k - 1];
    var cy := startY + TotalHeight(prev) as real * VerticalSpacing;
    LayoutChildrenSnoc(t, k, x, startY, unlocked);
    LayoutPinsParents(c, x + HorizontalSpacing, cy, Some(Point(x, 0.0)), unlocked);
    LayoutRightOf(c, x + HorizontalSpacing, cy, Some(Point(x, 0.0)), unlocked);
  }

  /** In a resolved children block, exactly the depth-1 visits carry a pin in column `x`. */
  lemma {:induction false} DirectRepin(q: seq<NodePosition>, w: seq<Visit>, x: real, centerY: real)
    requires |q| == |w| && forall m :: 0 <= m < |q| ==> ChildPinOk(q, w, m, x)
    requires forall m :: 0 <= m < |w| ==> ChildVisitOk(w, m)
    ensures forall m :: 0 <= m < |q| ==>
      && (w[m].depth == 1 ==> Repin(q[m], x, centerY) == q[m].(parentPos := Some(Point(x, centerY))))
      && (w[m].depth >= 2 ==> Repin(q[m], x, centerY) == q[m])
  {
    forall m | 0 <= m < |q|
      ensures w[m].depth == 1 ==> Repin(q[m], x, centerY) == q[m].(parentPos := Some(Point(x, centerY)))
      ensures w[m].depth >= 2 ==> Repin(q[m], x, centerY) == q[m]
    {
      assert ChildPinOk(q, w, m, x) && ChildVisitOk(w, m);
      var j := w[m].parent.value;
      if j > 0 {
        assert ChildPinOk(q, w, j - 1, x) && ChildVisitOk(w, j - 1);
      }
    }
  }

  /**
   * The re-pinning touches exactly the direct children: a visit at depth 1
   * gets the pin (x, centre), every deeper one keeps the position it had in
   * its child's layout.
   */
  lemma {:induction false} RepinOnlyDirectChildren(t: TreeNode, x: real, startY: real, parentPos: Option<Point>, unlocked: seq<NodeId>)
    requires |t.children| > 0
    ensures var q := Concat(LayoutChildren(t, |t.children|, x, startY, unlocked));
      var ps := Layout(t, x, startY, parentPos, unlocked).positions;
      var vs := Visits(t);
      && |ps| == |vs| == |q| + 1
      && forall k :: 0 < k < |ps| ==>
        && (vs[k].depth == 1 ==> ps[k] == q[k - 1].(parentPos := Some(Point(x, ps[0].y))))
        && (vs[k].depth >= 2 ==> ps[k] == q[k - 1])
  {
    var n := |t.children|;
    var rs := LayoutChildren(t, n, x, startY, unlocked);
    var q := Concat(rs);
    var w := VisitsChildren(t, n);
    var centerY := CentreRow(rs, startY);
    var current := NodePosition(x, centerY, t.node.id, t.node.id in unlocked, parentPos);
    var ps := [current] + RepinAll(q, x, centerY);
    LayoutNode(t, x, startY, parentPos, unlocked);
    assert Visits(t) == [Visit(t.node.id, 0, None)] + w;
    LayoutChildrenPins(t, n, x, startY, unlocked);
    VisitsChildrenWellFormed(t, n);
    DirectRepin(q, w, x, centerY);
    forall k | 0 < k < |ps|
      ensures Visits(t)[k].depth == 1 ==> ps[k] == q[k - 1].(parentPos := Some(Point(x, ps[0].y)))
      ensures Visits(t)[k].depth >= 2 ==> ps[k] == q[k - 1]
    {
      assert Visits(t)[k] == w[k - 1];
      assert ps[k] == Repin(q[k - 1], x, centerY);
    }
  }

  /** A root with two leaves: the leaves take rows 0 and 80 one column right, the root sits between them. */
  lemma {:induction false} LayoutTwoLeaves(r: NormalizedSkillNode, a: NormalizedSkillNode, b: NormalizedSkillNode)
    requires r.id != a.id && r.id != b.id
    ensures var p := Point(0.0, 40.0);
      Layout(TreeNode(r, [TreeNode(a, []), TreeNode(b, [])]), 0.0, 0.0, None, [a.id])
      == LayoutResult([NodePosition(0.0, 40.0, r.id, false, None),
                       NodePosition(120.0, 0.0, a.id, true, Some(p)),
                       NodePosition(120.0, 80.0, b.id, b.id == a.id, Some(p))], 2)
  {
    var t := TreeNode(r, [TreeNode(a, []), TreeNode(b, [])]);
    var u := [a.id];
    var pin := Some(Point(0.0, 0.0));
    var r1 := LayoutResult([NodePosition(120.0, 0.0, a.id, true, pin)], 1);
    var r2 := LayoutResult([NodePosition(120.0, 80.0, b.id, b.id == a.id, pin)], 1);
    assert Layout(t.children[0], 120.0, 0.0, pin, u) == r1;
    assert LayoutChildren(t, 1, 0.0, 0.0, u) == [r1] by {
      assert LayoutChildren(t, 0, 0.0, 0.0, u) == [];
    }
    assert TotalHeight([r1]) == 1 by {
      assert [r1][..0] == [];
    }
    assert Layout(t.children[1], 120.0, 80.0, pin, u) == r2;
    assert LayoutChildren(t, 2, 0.0, 0.0, u) == [r1, r2];
    assert [r1, r2][..1] == [r1];
    assert TotalHeight([r1, r2]) == 2;
    assert Concat([r1]) == r1.positions by {
      assert [r1][..0] == [];
      assert Concat([]) == [];
    }
    assert Concat([r1, r2]) == Concat([r1]) + r2.positions;
    var q := r1.positions + r2.positions;
    assert RepinAll(q, 0.0, 40.0) == [Repin(q[0], 0.0, 40.0), Repin(q[1], 0.0, 40.0)];
  }
}
