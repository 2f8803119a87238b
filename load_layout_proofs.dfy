/**
 * The store and the positions hook together: after `loadSkillTree`, the
 * effect of the positions hook lays out the nested tree that was loaded, one
 * position per node, the ids `node-0 ..` in pre-order, nothing unlocked and
 * no connector on the top node.
 */
module LoadLayoutProofs {
  import opened Wrappers
  import opened SkillNodes
  import opened Normalize
  import opened SkillTreeSlice
  import opened SkillTreePositions
  import opened PositionsProofs
  import opened BuildTreeProofs

  /** The pre-order visits of the annotated tree carry the walk's ids `prefix-s ..` one after another. */
  lemma {:induction false} VisitsAnnotated(n: NestedSkillNode, p: Option<NodeId>, prefix: string, s: nat)
    ensures |Visits(Annotated(n, p, prefix, s))| == Size(n)
    ensures forall k :: 0 <= k < Size(n) ==> Visits(Annotated(n, p, prefix, s))[k].id == NodeId(prefix, s + k)
    decreases n, 1
  {
    var t := Annotated(n, p, prefix, s);
    VisitsAnnotatedChildren(n, |n.children|, p, prefix, s);
    var w := VisitsChildren(t, |n.children|);
    assert Visits(t) == [Visit(NodeId(prefix, s), 0, None)] + w;
    forall k | 0 < k < Size(n) ensures Visits(t)[k].id == NodeId(prefix, s + k) {
      assert Visits(t)[k] == w[k - 1];
    }
  }

  lemma {:induction false} VisitsAnnotatedChildren(n: NestedSkillNode, k: nat, p: Option<NodeId>, prefix: string, s: nat)
    requires k <= |n.children|
    ensures var t := Annotated(n, p, prefix, s);
      && |t.children| == |n.children|
      && |VisitsChildren(t, k)| == SizeChildren(n, k)
      && forall i :: 0 <= i < SizeChildren(n, k) ==> VisitsChildren(t, k)[i].id == NodeId(prefix, s + 1 + i)
    decreases n, 0, k
  {
    var t := Annotated(n, p, prefix, s);
    var id := NodeId(prefix, s);
    if k > 0 {
      var prev := VisitsChildren(t, k - 1);
      var off := SizeChildren(n, k - 1);
      VisitsAnnotatedChildren(n, k - 1, p, prefix, s);
      AnnotatedChildAt(n, |n.children|, k - 1, id, prefix, s + 1);
      var c := Annotated(n.children[k - 1], Some(id), prefix, s + 1 + off);
      assert t.children[k - 1] == c;
      VisitsAnnotated(n.children[k - 1], Some(id), prefix, s + 1 + off);
      var nested := Nest(Visits(c), 1 + |prev|);
      var w: seq<Visit> := prev + nested;
      assert VisitsChildren(t, k) == w;
      forall i | off <= i < SizeChildren(n, k) ensures w[i].id == NodeId(prefix, s + 1 + i) {
        assert w[i] == nested[i - off];
        assert nested[i - off].id == Visits(c)[i - off].id;
      }
    }
  }

  /**
   * `loadSkillTree` followed by the positions effect: the state is
   * well formed, the effect does not return early, and it sets the layout of
   * the loaded tree started at (0, 0), one position per node of `tree`, the
   * `k`-th for `node-k` and locked, 120 per level to the right, and the top
   * node without a connector.
   */
  lemma {:induction false} LoadedLayout(tree: NestedSkillNode)
    ensures var s := LoadStep(tree);
      && WellFormed(s)
      && var t := Annotated(tree, None, IdPrefix, 0);
         var ps := Layout(t, 0.0, 0.0, None, []).positions;
         && ComputePositions(s.nodes, s.order, s.rootNodeId, s.unlockedNodes) == Some(ps)
         && |ps| == Size(tree) == |Visits(t)|
         && ps[0].parentPos == None
         && forall k :: 0 <= k < |ps| ==>
              && ps[k].nodeId == NodeId(IdPrefix, k)
              && !ps[k].unlocked
              && ps[k].x == HorizontalSpacing * Visits(t)[k].depth as real
  {
    var s := LoadStep(tree);
    LoadStepWellFormed(tree);
    BuildRoundTrip(tree, IdPrefix);
    var t := Annotated(tree, None, IdPrefix, 0);
    assert NodeId(IdPrefix, 0) in s.nodes;
    assert |s.nodes| != 0;
    var ps := Layout(t, 0.0, 0.0, None, []).positions;
    LayoutFollowsVisits(t, 0.0, 0.0, None, []);
    LayoutPinsParents(t, 0.0, 0.0, None, []);
    VisitsAnnotated(tree, None, IdPrefix, 0);
    forall k | 0 <= k < |ps|
      ensures ps[k].nodeId == NodeId(IdPrefix, k) && !ps[k].unlocked
        && ps[k].x == HorizontalSpacing * Visits(t)[k].depth as real
    {
      assert FollowsVisit(ps[k], Visits(t)[k], 0.0, []);
    }
  }
}
