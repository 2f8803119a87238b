/**
 * The tree normalizer of the skill-tree slice: a depth-first, pre-order walk
 * that gives every node the id `prefix-counter` (one counter for the whole
 * walk) and records each node with the id of the node it was reached from.
 */
module Normalize {
  import opened Wrappers
  import opened SkillNodes

  /** The id `prefix-counter`, kept as its two parts instead of as a string. */
  datatype NodeId = NodeId(prefix: string, counter: nat)

  /** A flat record of the store; `parentId` is `None` for the root. */
  datatype NormalizedSkillNode = NormalizedSkillNode(
    id: NodeId,
    name: string,
    description: string,
    image: string,
    parentId: Option<NodeId>)

  /** The prefix `loadSkillTree` uses (the default of `idPrefix`). */
  const IdPrefix: string := "node"

  /** The record the walk writes for `n` under `id`. */
  function Record(n: NestedSkillNode, id: NodeId, parent: Option<NodeId>): NormalizedSkillNode
  {
    NormalizedSkillNode(id, n.name, n.description, n.image, parent)
  }

  /** The records the walk writes for the subtree `n`, in writing order, when the counter starts at `start`. */
  function Flatten(n: NestedSkillNode, parent: Option<NodeId>, prefix: string, start: nat): seq<NormalizedSkillNode>
    decreases n, 1
  {
    [Record(n, NodeId(prefix, start), parent)]
      + FlattenChildren(n, |n.children|, NodeId(prefix, start), prefix, start + 1)
  }

  /** The records written for the first `k` children of `n`, whose parent is `id`. */
  function FlattenChildren(n: NestedSkillNode, k: nat, id: NodeId, prefix: string, start: nat): seq<NormalizedSkillNode>
    requires k <= |n.children|
    decreases n, 0, k
  {
    if k == 0 then
      []
    else
      FlattenChildren(n, k - 1, id, prefix, start)
      + Flatten(n.children[k - 1], Some(id), prefix, start + SizeChildren(n, k - 1))
  }

  /** The ids of a list of records. */
  function Ids(rs: seq<NormalizedSkillNode>): seq<NodeId>
  {
    if rs == [] then [] else Ids(rs[..|rs| - 1]) + [rs[|rs| - 1].id]
  }

  /** The map after writing the records one after another (`nodes[id] = record`). */
  function Insert(m: map<NodeId, NormalizedSkillNode>, rs: seq<NormalizedSkillNode>): map<NodeId, NormalizedSkillNode>
  {
    if rs == [] then m else Insert(m, rs[..|rs| - 1])[rs[|rs| - 1].id := rs[|rs| - 1]]
  }

  /** No id occurs twice in the list. */
  ghost predicate DistinctIds(rs: seq<NormalizedSkillNode>)
  {
    forall i, j :: 0 <= i < j < |rs| ==> rs[i].id != rs[j].id
  }

  /**
   * The state of one `normalizeSkillTree` call: the `nodes` dictionary, the
   * insertion order of its keys, and the shared `counter`.
   */
  class Normalizer {
    var nodes: map<NodeId, NormalizedSkillNode>
    var order: seq<NodeId>
    var counter: nat

    /** Every id written so far used a smaller counter value. */
    ghost predicate Valid()
      reads this
    {
      forall k :: k in nodes ==> k.counter < counter
    }

    constructor ()
      ensures Valid() && nodes == map[] && order == [] && counter == 0
    {
      nodes, order, counter := map[], [], 0;
    }

    /** `traverse`: record `node` and, in order, its children; return the id given to `node`. */
    method Traverse(node: NestedSkillNode, parent: Option<NodeId>, prefix: string) returns (nodeId: NodeId)
      requires Valid()
      modifies this
      ensures Valid()
      ensures nodeId == NodeId(prefix, old(counter))
      ensures counter == old(counter) + Size(node)
      ensures nodes == Insert(old(nodes), Flatten(node, parent, prefix, old(counter)))
      ensures order == old(order) + Ids(Flatten(node, parent, prefix, old(counter)))
      decreases node
    {
      ghost var nodes0, order0 := nodes, order;
      nodeId := NodeId(prefix, counter);
      counter := counter + 1;
      var record := Record(node, nodeId, parent);
      // the key is fresh, so it goes to the end of the dictionary's iteration order
      assert nodeId !in nodes;
      order := order + [nodeId];
      nodes := nodes[nodeId := record];
      ghost var start := old(counter) + 1;
      ghost var written := [record];
      InsertOne(nodes0, record);
      for i := 0 to |node.children|
        invariant Valid()
        invariant written == [record] + FlattenChildren(node, i, nodeId, prefix, start)
        invariant counter == start + SizeChildren(node, i)
        invariant nodes == Insert(nodes0, written)
        invariant order == order0 + Ids(written)
      {
        ghost var child := Flatten(node.children[i], Some(nodeId), prefix, counter);
        var childId := Traverse(node.children[i], Some(nodeId), prefix);
        TraverseStep(nodes0, order0, record, node, i, nodeId, prefix, start, written, child);
        written := written + child;
      }
      assert written == Flatten(node, parent, prefix, old(counter));
    }
  }

  /** `normalizeSkillTree`: the flat map, its key order, and the id of the top node. */
  method NormalizeSkillTree(nestedNode: NestedSkillNode, parentId: Option<NodeId>, idPrefix: string)
    returns (nodes: map<NodeId, NormalizedSkillNode>, order: seq<NodeId>, rootId: NodeId)
    ensures rootId == NodeId(idPrefix, 0)
    ensures nodes == Insert(map[], Flatten(nestedNode, parentId, idPrefix, 0))
    ensures order == Ids(Flatten(nestedNode, parentId, idPrefix, 0))
  {
    var walk := new Normalizer();
    rootId := walk.Traverse(nestedNode, parentId, idPrefix);
    nodes, order := walk.nodes, walk.order;
  }

  /** One child's records appended to what `traverse` has written so far, as the loop invariant needs it. */
  lemma {:induction false} TraverseStep(nodes0: map<NodeId, NormalizedSkillNode>, order0: seq<NodeId>, record: NormalizedSkillNode,
                     node: NestedSkillNode, i: nat, id: NodeId, prefix: string, start: nat,
                     written: seq<NormalizedSkillNode>, child: seq<NormalizedSkillNode>)
    requires i < |node.children|
    requires written == [record] + FlattenChildren(node, i, id, prefix, start)
    requires child == Flatten(node.children[i], Some(id), prefix, start + SizeChildren(node, i))
    ensures written + child == [record] + FlattenChildren(node, i + 1, id, prefix, start)
    ensures Insert(nodes0, written + child) == Insert(Insert(nodes0, written), child)
    ensures order0 + Ids(written + child) == (order0 + Ids(written)) + Ids(child)
  {
    InsertAppend(nodes0, written, child);
    IdsAppend(written, child);
    SeqAssoc(order0, Ids(written), Ids(child));
    FlattenChildrenStep(node, i, id, prefix, start);
    SeqAssoc([record], FlattenChildren(node, i, id, prefix, start), child);
  }

  lemma {:induction false} InsertAppend(m: map<NodeId, NormalizedSkillNode>, a: seq<NormalizedSkillNode>, b: seq<NormalizedSkillNode>)
    ensures Insert(m, a + b) == Insert(Insert(m, a), b)
    decreases |b|
  {
    if b == [] {
      assert a + b == a;
    } else {
      assert (a + b)[..|a + b| - 1] == a + b[..|b| - 1];
      InsertAppend(m, a, b[..|b| - 1]);
    }
  }

  lemma {:induction false} InsertOne(m: map<NodeId, NormalizedSkillNode>, r: NormalizedSkillNode)
    ensures Insert(m, [r]) == m[r.id := r]
  {
    assert [r][..0] == [];
  }

  lemma {:induction false} IdsAppend(a: seq<NormalizedSkillNode>, b: seq<NormalizedSkillNode>)
    ensures Ids(a + b) == Ids(a) + Ids(b)
    decreases |b|
  {
    if b == [] {
      assert a + b == a;
    } else {
      assert (a + b)[..|a + b| - 1] == a + b[..|b| - 1];
      IdsAppend(a, b[..|b| - 1]);
    }
  }

  lemma {:induction false} FlattenChildrenStep(n: NestedSkillNode, i: nat, id: NodeId, prefix: string, start: nat)
    requires i < |n.children|
    ensures FlattenChildren(n, i + 1, id, prefix, start)
      == FlattenChildren(n, i, id, prefix, start) + Flatten(n.children[i], Some(id), prefix, start + SizeChildren(n, i))
  {
  }

  lemma {:induction false} SeqAssoc<T>(a: seq<T>, b: seq<T>, c: seq<T>)
    ensures (a + b) + c == a + (b + c)
  {
  }

  /** Every parent has a smaller counter than its child, so parent links cannot form a cycle. */
  ghost predicate Acyclic(nodes: map<NodeId, NormalizedSkillNode>)
  {
    forall k :: k in nodes && nodes[k].parentId.Some? ==> nodes[k].parentId.value.counter < nodes[k].id.counter
  }

  /** The iteration order lists only keys of the map. */
  ghost predicate OrderListsKeys(nodes: map<NodeId, NormalizedSkillNode>, order: seq<NodeId>)
  {
    forall i :: 0 <= i < |order| ==> order[i] in nodes
  }

  /** `q` is an id with prefix `prefix` and a counter in `[lo, hi)`. */
  predicate PointsInto(q: Option<NodeId>, prefix: string, lo: int, hi: int)
  {
    q.Some? && q.value.prefix == prefix && lo <= q.value.counter < hi
  }

  lemma {:induction false} IdsIndex(rs: seq<NormalizedSkillNode>)
    ensures |Ids(rs)| == |rs|
    ensures forall i :: 0 <= i < |rs| ==> Ids(rs)[i] == rs[i].id
    decreases |rs|
  {
    if rs != [] {
      IdsIndex(rs[..|rs| - 1]);
    }
  }

  /** The walk writes one record per node of the subtree. */
  lemma {:induction false} FlattenLength(n: NestedSkillNode, parent: Option<NodeId>, prefix: string, start: nat)
    ensures |Flatten(n, parent, prefix, start)| == Size(n)
    decreases n, 1
  {
    FlattenChildrenLength(n, |n.children|, NodeId(prefix, start), prefix, start + 1);
  }

  lemma {:induction false} FlattenChildrenLength(n: NestedSkillNode, k: nat, id: NodeId, prefix: string, start: nat)
    requires k <= |n.children|
    ensures |FlattenChildren(n, k, id, prefix, start)| == SizeChildren(n, k)
    decreases n, 0, k
  {
    if k > 0 {
      FlattenChildrenLength(n, k - 1, id, prefix, start);
      FlattenLength(n.children[k - 1], Some(id), prefix, start + SizeChildren(n, k - 1));
    }
  }

  /** The i-th record written gets the id `prefix-(start + i)`: the shared counter makes ids consecutive. */
  lemma {:induction false} FlattenIds(n: NestedSkillNode, parent: Option<NodeId>, prefix: string, start: nat)
    ensures |Flatten(n, parent, prefix, start)| == Size(n)
    ensures forall i :: 0 <= i < Size(n) ==> Flatten(n, parent, prefix, start)[i].id == NodeId(prefix, start + i)
    decreases n, 1
  {
    FlattenLength(n, parent, prefix, start);
    FlattenChildrenIds(n, |n.children|, NodeId(prefix, start), prefix, start + 1);
  }

  lemma {:induction false} FlattenChildrenIds(n: NestedSkillNode, k: nat, id: NodeId, prefix: string, start: nat)
    requires k <= |n.children|
    ensures |FlattenChildren(n, k, id, prefix, start)| == SizeChildren(n, k)
    ensures forall i :: 0 <= i < SizeChildren(n, k) ==>
      FlattenChildren(n, k, id, prefix, start)[i].id == NodeId(prefix, start + i)
    decreases n, 0, k
  {
    FlattenChildrenLength(n, k, id, prefix, start);
    if k > 0 {
      var off := SizeChildren(n, k - 1);
      FlattenChildrenIds(n, k - 1, id, prefix, start);
      FlattenIds(n.children[k - 1], Some(id), prefix, start + off);
    }
  }

  /**
   * The first record has the caller's parent; every later record's parent is
   * the id of a record written before it in the same walk.
   */
  lemma {:induction false} FlattenParents(n: NestedSkillNode, parent: Option<NodeId>, prefix: string, start: nat)
    ensures |Flatten(n, parent, prefix, start)| == Size(n)
    ensures Flatten(n, parent, prefix, start)[0].parentId == parent
    ensures forall i :: 0 < i < Size(n) ==>
      PointsInto(Flatten(n, parent, prefix, start)[i].parentId, prefix, start, start + i)
    decreases n, 1
  {
    FlattenLength(n, parent, prefix, start);
    FlattenChildrenParents(n, |n.children|, NodeId(prefix, start), prefix, start + 1);
  }

  lemma {:induction false} FlattenChildrenParents(n: NestedSkillNode, k: nat, id: NodeId, prefix: string, start: nat)
    requires k <= |n.children|
    ensures |FlattenChildren(n, k, id, prefix, start)| == SizeChildren(n, k)
    ensures forall i :: 0 <= i < SizeChildren(n, k) ==>
      var q := FlattenChildren(n, k, id, prefix, start)[i].parentId;
      q == Some(id) || PointsInto(q, prefix, start, start + i)
    decreases n, 0, k
  {
    FlattenChildrenLength(n, k, id, prefix, start);
    if k > 0 {
      var off := SizeChildren(n, k - 1);
      FlattenChildrenParents(n, k - 1, id, prefix, start);
      FlattenParents(n.children[k - 1], Some(id), prefix, start + off);
    }
  }

  /** The records carry the name, description and image of the nodes in pre-order. */
  lemma {:induction false} FlattenFollowsPreorder(n: NestedSkillNode, parent: Option<NodeId>, prefix: string, start: nat)
    ensures |Flatten(n, parent, prefix, start)| == |Preorder(n)|
    ensures forall i :: 0 <= i < |Preorder(n)| ==> SameData(Flatten(n, parent, prefix, start)[i], Preorder(n)[i])
    decreases n, 1
  {
    FlattenChildrenFollowPreorder(n, |n.children|, NodeId(prefix, start), prefix, start + 1);
  }

  lemma {:induction false} FlattenChildrenFollowPreorder(n: NestedSkillNode, k: nat, id: NodeId, prefix: string, start: nat)
    requires k <= |n.children|
    ensures |FlattenChildren(n, k, id, prefix, start)| == |PreorderChildren(n, k)|
    ensures forall i :: 0 <= i < |PreorderChildren(n, k)| ==>
      SameData(FlattenChildren(n, k, id, prefix, start)[i], PreorderChildren(n, k)[i])
    decreases n, 0, k
  {
    if k > 0 {
      FlattenChildrenFollowPreorder(n, k - 1, id, prefix, start);
      FlattenFollowsPreorder(n.children[k - 1], Some(id), prefix, start + SizeChildren(n, k - 1));
    }
  }

  /** The record holds the nested node's own data. */
  predicate SameData(r: NormalizedSkillNode, n: NestedSkillNode)
  {
    r.name == n.name && r.description == n.description && r.image == n.image
  }

  /** Writing records with distinct ids keeps every one of them and adds exactly their ids. */
  lemma {:induction false} InsertDistinct(m: map<NodeId, NormalizedSkillNode>, rs: seq<NormalizedSkillNode>)
    requires DistinctIds(rs)
    ensures forall i :: 0 <= i < |rs| ==> rs[i].id in Insert(m, rs) && Insert(m, rs)[rs[i].id] == rs[i]
    ensures forall k :: k in Insert(m, rs) <==> k in m || k in Ids(rs)
    ensures forall k :: k in m && k !in Ids(rs) ==> Insert(m, rs)[k] == m[k]
    decreases |rs|
  {
    if rs != [] {
      InsertDistinct(m, rs[..|rs| - 1]);
    }
  }

  lemma {:induction false} InsertCardinality(rs: seq<NormalizedSkillNode>)
    requires DistinctIds(rs)
    ensures |Insert(map[], rs)| == |rs|
    decreases |rs|
  {
    if rs != [] {
      var init := rs[..|rs| - 1];
      InsertCardinality(init);
      InsertDistinct(map[], init);
      IdsIndex(init);
      assert rs[|rs| - 1].id !in Insert(map[], init);
    }
  }

  /** Records numbered `prefix-0 ..` in order, written into an empty map, make a table keyed by those ids. */
  lemma {:induction false} NumberedTable(f: seq<NormalizedSkillNode>, prefix: string)
    requires forall i :: 0 <= i < |f| ==> f[i].id == NodeId(prefix, i)
    ensures var nodes := Insert(map[], f);
      var order := Ids(f);
      && |nodes| == |order| == |f|
      && (forall i :: 0 <= i < |order| ==> order[i] == NodeId(prefix, i))
      && (forall k :: k in nodes <==> k.prefix == prefix && k.counter < |f|)
      && (forall i :: 0 <= i < |f| ==> nodes[NodeId(prefix, i)] == f[i])
      && (forall k :: k in nodes ==> nodes[k].id == k)
  {
    assert DistinctIds(f);
    InsertDistinct(map[], f);
    InsertCardinality(f);
    IdsIndex(f);
    var nodes := Insert(map[], f);
    forall k | k in nodes
      ensures k.prefix == prefix && k.counter < |f| && nodes[k] == f[k.counter]
    {
      var i :| 0 <= i < |f| && Ids(f)[i] == k;
    }
  }

  /**
   * What `normalizeSkillTree` returns: one entry per node, keyed `prefix-0`
   * ... `prefix-(Size-1)` in pre-order, each with its own data; the top entry
   * has the caller's parent, every other entry's parent is an entry written
   * earlier, and the key order is the pre-order.
   */
  lemma {:induction false} NormalizedTable(tree: NestedSkillNode, parent: Option<NodeId>, prefix: string, f: seq<NormalizedSkillNode>)
    requires f == Flatten(tree, parent, prefix, 0)
    ensures var nodes := Insert(map[], f);
      var order := Ids(f);
      && |f| == Size(tree) == |nodes| == |order|
      && (forall i :: 0 <= i < |order| ==> order[i] == NodeId(prefix, i))
      && (forall k :: k in nodes <==> k.prefix == prefix && k.counter < Size(tree))
      && (forall i :: 0 <= i < |f| ==> nodes[NodeId(prefix, i)] == f[i])
      && (forall k :: k in nodes ==> nodes[k].id == k)
      && |Preorder(tree)| == Size(tree)
      && (forall i :: 0 <= i < Size(tree) ==> SameData(nodes[NodeId(prefix, i)], Preorder(tree)[i]))
      && nodes[NodeId(prefix, 0)].parentId == parent
      && (forall k :: k in nodes && k.counter > 0 ==>
            nodes[k].parentId.Some? && nodes[k].parentId.value in nodes
            && nodes[k].parentId.value.counter < k.counter)
  {
    FlattenIds(tree, parent, prefix, 0);
    FlattenParents(tree, parent, prefix, 0);
    FlattenFollowsPreorder(tree, parent, prefix, 0);
    PreorderLength(tree);
    assert forall i :: 0 <= i < |f| ==> f[i].id == NodeId(prefix, 0 + i);
    NumberedTable(f, prefix);
    var nodes := Insert(map[], f);
    forall k | k in nodes && k.counter > 0
      ensures nodes[k].parentId.Some? && nodes[k].parentId.value in nodes
        && nodes[k].parentId.value.counter < k.counter
    {
      assert nodes[NodeId(prefix, k.counter)] == f[k.counter];
    }
  }
}
