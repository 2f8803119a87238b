/**
 * The skill-tree slice: the stored state, its three reducers written as pure
 * transitions (state, action) -> state, the two selectors, and a store object
 * whose methods apply the reducers in place.
 */
module SkillTreeSlice {
  import opened Wrappers
  import opened SkillNodes
  import opened Normalize

  /**
   * The slice state. `order` is the insertion order of the keys of `nodes`,
   * the order in which the dictionary's values are enumerated.
   */
  datatype TreeState = TreeState(
    nodes: map<NodeId, NormalizedSkillNode>,
    order: seq<NodeId>,
    rootNodeId: Option<NodeId>,
    unlockedNodes: seq<NodeId>)

  const InitialState: TreeState := TreeState(map[], [], None, [])

  /** `loadSkillTree`: replace the tree by the normalized payload and clear progress. */
  function LoadStep(tree: NestedSkillNode): TreeState
  {
    var records := Flatten(tree, None, IdPrefix, 0);
    TreeState(Insert(map[], records), Ids(records), Some(NodeId(IdPrefix, 0)), [])
  }

  /** The state with `nodeId` pushed onto the unlocked list. */
  function Push(s: TreeState, nodeId: NodeId): TreeState
  {
    s.(unlockedNodes := s.unlockedNodes + [nodeId])
  }

  /** `unlockNode`: unlock a known, still locked node if it has no parent or its parent is unlocked. */
  function UnlockStep(s: TreeState, nodeId: NodeId): TreeState
  {
    if nodeId !in s.nodes || nodeId in s.unlockedNodes then
      s
    else if s.nodes[nodeId].parentId.None? then
      if nodeId !in s.unlockedNodes then Push(s, nodeId) else s
    else if s.nodes[nodeId].parentId.value in s.unlockedNodes && nodeId !in s.unlockedNodes then
      Push(s, nodeId)
    else
      s
  }

  /** `resetProgress`: only the root (if any) stays unlocked. */
  function ResetStep(s: TreeState): TreeState
  {
    s.(unlockedNodes := if s.rootNodeId.Some? then [s.rootNodeId.value] else [])
  }

  /** `selectIsNodeUnlocked`. */
  predicate IsNodeUnlocked(s: TreeState, nodeId: NodeId)
  {
    nodeId in s.unlockedNodes
  }

  /** `selectCanUnlockNode`: the node exists and is the root or has an unlocked parent. */
  predicate CanUnlockNode(s: TreeState, nodeId: NodeId)
  {
    if nodeId !in s.nodes then false
    else if s.nodes[nodeId].parentId.None? then true
    else s.nodes[nodeId].parentId.value in s.unlockedNodes
  }

  /** Applies `unlockNode` for each id in turn. */
  function UnlockAll(s: TreeState, ids: seq<NodeId>): TreeState
    decreases |ids|
  {
    if ids == [] then s else UnlockAll(UnlockStep(s, ids[0]), ids[1..])
  }

  ghost predicate NoDuplicates(ids: seq<NodeId>)
  {
    forall i, j :: 0 <= i < j < |ids| ==> ids[i] != ids[j]
  }

  /**
   * The state invariant: unlocked ids are distinct keys of `nodes`, every
   * unlocked node's parent is unlocked, the root is a parentless key, and
   * the table can be rebuilt into a tree (parents precede children, the key
   * order lists keys).
   */
  ghost predicate WellFormed(s: TreeState)
  {
    && (forall u :: u in s.unlockedNodes ==> u in s.nodes)
    && NoDuplicates(s.unlockedNodes)
    && (forall u :: u in s.unlockedNodes && u in s.nodes && s.nodes[u].parentId.Some? ==>
          s.nodes[u].parentId.value in s.unlockedNodes)
    && (s.rootNodeId.Some? ==> s.rootNodeId.value in s.nodes && s.nodes[s.rootNodeId.value].parentId.None?)
    && Acyclic(s.nodes)
    && OrderListsKeys(s.nodes, s.order)
  }

  /**
   * `unlockNode` never touches the tree, appends `nodeId` exactly when the
   * node is locked and `selectCanUnlockNode` holds, and otherwise changes nothing.
   */
  lemma {:induction false} UnlockStepEffect(s: TreeState, nodeId: NodeId)
    ensures var t := UnlockStep(s, nodeId);
      && t.nodes == s.nodes && t.order == s.order && t.rootNodeId == s.rootNodeId
      && (if !IsNodeUnlocked(s, nodeId) && CanUnlockNode(s, nodeId)
          then t.unlockedNodes == s.unlockedNodes + [nodeId]
          else t.unlockedNodes == s.unlockedNodes)
      && (IsNodeUnlocked(t, nodeId) <==> IsNodeUnlocked(s, nodeId) || CanUnlockNode(s, nodeId))
  {
  }

  /** Unlocking twice is the same as unlocking once. */
  lemma {:induction false} UnlockStepIdempotent(s: TreeState, nodeId: NodeId)
    ensures UnlockStep(UnlockStep(s, nodeId), nodeId) == UnlockStep(s, nodeId)
  {
  }

  /** `unlockNode` keeps the invariant; in particular it never creates a duplicate or an island. */
  lemma {:induction false} UnlockStepWellFormed(s: TreeState, nodeId: NodeId)
    requires WellFormed(s)
    ensures WellFormed(UnlockStep(s, nodeId))
  {
    var t := UnlockStep(s, nodeId);
    if t != s {
      assert t.unlockedNodes == s.unlockedNodes + [nodeId];
      assert forall i :: 0 <= i < |t.unlockedNodes| - 1 ==> t.unlockedNodes[i] == s.unlockedNodes[i];
    }
  }

  /** `loadSkillTree` yields a well-formed state with nothing unlocked. */
  lemma {:induction false} LoadStepWellFormed(tree: NestedSkillNode)
    ensures WellFormed(LoadStep(tree))
    ensures LoadStep(tree).unlockedNodes == []
  {
    var f := Flatten(tree, None, IdPrefix, 0);
    var nodes, order := Insert(map[], f), Ids(f);
    var root := NodeId(IdPrefix, 0);
    assert LoadStep(tree) == TreeState(nodes, order, Some(root), []);
    assert root in nodes && nodes[root].parentId.None? by {
      NormalizedTable(tree, None, IdPrefix, f);
    }
    assert Acyclic(nodes) by {
      NormalizedTable(tree, None, IdPrefix, f);
      forall k | k in nodes && nodes[k].parentId.Some?
        ensures nodes[k].parentId.value.counter < nodes[k].id.counter
      {
        assert nodes[k].id == k;
      }
    }
    assert OrderListsKeys(nodes, order) by {
      NormalizedTable(tree, None, IdPrefix, f);
      forall i | 0 <= i < |order| ensures order[i] in nodes {
        assert order[i] == NodeId(IdPrefix, i);
      }
    }
  }

  /** `resetProgress` keeps the invariant and is idempotent. */
  lemma {:induction false} ResetStepWellFormed(s: TreeState)
    requires WellFormed(s)
    ensures WellFormed(ResetStep(s))
    ensures ResetStep(ResetStep(s)) == ResetStep(s)
  {
  }

  /**
   * After `resetProgress` the root can be unlocked, and a non-root node can be
   * unlocked exactly when its parent is the root.
   */
  lemma {:induction false} ResetThenCanUnlock(s: TreeState, nodeId: NodeId)
    requires WellFormed(s) && s.rootNodeId.Some?
    ensures CanUnlockNode(ResetStep(s), s.rootNodeId.value)
    ensures nodeId in s.nodes && s.nodes[nodeId].parentId.Some? ==>
      (CanUnlockNode(ResetStep(s), nodeId) <==> s.nodes[nodeId].parentId == s.rootNodeId)
  {
  }

  /**
   * Any sequence of `unlockNode` calls from a well-formed state keeps the
   * invariant and leaves the tree and the root as they were.
   */
  lemma {:induction false} UnlockAllWellFormed(s: TreeState, ids: seq<NodeId>)
    requires WellFormed(s)
    ensures WellFormed(UnlockAll(s, ids))
    ensures UnlockAll(s, ids).nodes == s.nodes && UnlockAll(s, ids).rootNodeId == s.rootNodeId
    ensures |s.unlockedNodes| <= |UnlockAll(s, ids).unlockedNodes| <= |s.unlockedNodes| + |ids|
    decreases |ids|
  {
    if ids != [] {
      UnlockStepWellFormed(s, ids[0]);
      UnlockStepEffect(s, ids[0]);
      UnlockAllWellFormed(UnlockStep(s, ids[0]), ids[1..]);
    }
  }

  /** The store: the slice state held in fields that the reducers update in place. */
  class SkillTreeStore {
    var nodes: map<NodeId, NormalizedSkillNode>
    var order: seq<NodeId>
    var rootNodeId: Option<NodeId>
    var unlockedNodes: seq<NodeId>

    function State(): TreeState
      reads this
    {
      TreeState(nodes, order, rootNodeId, unlockedNodes)
    }

    ghost predicate Valid()
      reads this
    {
      WellFormed(State())
    }

    constructor ()
      ensures Valid() && State() == InitialState
    {
      nodes, order, rootNodeId, unlockedNodes := map[], [], None, [];
    }

    method LoadSkillTree(tree: NestedSkillNode)
      modifies this
      ensures Valid() && State() == LoadStep(tree)
    {
      var normalized, keys, rootId := NormalizeSkillTree(tree, None, IdPrefix);
      nodes := normalized;
      order := keys;
      rootNodeId := Some(rootId);
      unlockedNodes := [];
      LoadStepWellFormed(tree);
    }

    method UnlockNode(nodeId: NodeId)
      requires Valid()
      modifies this
      ensures Valid() && State() == UnlockStep(old(State()), nodeId)
    {
      UnlockStepWellFormed(State(), nodeId);
      if nodeId !in nodes || nodeId in unlockedNodes {
        return;
      }
      var node := nodes[nodeId];
      if node.parentId.None? {
        if nodeId !in unlockedNodes {
          unlockedNodes := unlockedNodes + [nodeId];
        }
        return;
      }
      var parentUnlocked := node.parentId.value in unlockedNodes;
      if parentUnlocked && nodeId !in unlockedNodes {
        unlockedNodes := unlockedNodes + [nodeId];
      }
    }

    method ResetProgress()
      requires Valid()
      modifies this
      ensures Valid() && State() == ResetStep(old(State()))
    {
      ResetStepWellFormed(State());
      unlockedNodes := if rootNodeId.Some? then [rootNodeId.value] else [];
    }
  }
}
