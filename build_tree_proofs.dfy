/**
 * Rebuilding the tree from the normalized table gives back the nested tree:
 * `buildTree` applied to the table of `normalizeSkillTree` and its top id is
 * the nested tree, each node carrying the record the walk wrote for it.
 */
module BuildTreeProofs {
  import opened Wrappers
  import opened SkillNodes
  import opened Normalize
  import opened SkillTreePositions

  /** The nested tree `n` with every node replaced by the record the walk writes for it. */
  function Annotated(n: NestedSkillNode, p: Option<NodeId>, prefix: string, start: nat): TreeNode
    decreases n, 1
  {
    TreeNode(Record(n, NodeId(prefix, start), p),
             AnnotatedChildren(n, |n.children|, NodeId(prefix, start), prefix, start + 1))
  }

  /** The annotated first `k` children of `n`, numbered as the walk numbers them. */
  function AnnotatedChildren(n: NestedSkillNode, k: nat, id: NodeId, prefix: string, start: nat): (ts: seq<TreeNode>)
    requires k <= |n.children|
    ensures |ts| == k
    decreases n, 0, k
  {
    if k == 0 then
      []
    else
      AnnotatedChildren(n, k - 1, id, prefix, start)
      + [Annotated(n.children[k - 1], Some(id), prefix, start + SizeChildren(n, k - 1))]
  }

  lemma {:induction false} AnnotatedChildrenLast(n: NestedSkillNode, k: nat, id: NodeId, prefix: string, start: nat)
    requires 0 < k <= |n.children|
    ensures AnnotatedChildren(n, k, id, prefix, start)
      == AnnotatedChildren(n, k - 1, id, prefix, start) + [Annotated(n.children[k - 1], Some(id), prefix, start + SizeChildren(n, k - 1))]
  {
  }

  /** The nested node a rebuilt tree stands for: its records' data, with the ids and parent links dropped. */
  function Erase(t: TreeNode): NestedSkillNode
  {
    NestedSkillNode(t.node.name, t.node.description, t.node.image,
                    seq(|t.children|, i requires 0 <= i < |t.children| => Erase(t.children[i])))
  }

  /** The `i`-th annotated child is the `i`-th child, numbered after its earlier siblings' subtrees. */
  lemma {:induction false} AnnotatedChildAt(n: NestedSkillNode, k: nat, i: nat, id: NodeId, prefix: string, start: nat)
    requires i < k <= |n.children|
    ensures AnnotatedChildren(n, k, id, prefix, start)[i]
      == Annotated(n.children[i], Some(id), prefix, start + SizeChildren(n, i))
    decreases k
  {
    if i < k - 1 {
      AnnotatedChildAt(n, k - 1, i, id, prefix, start);
    }
  }

  /** Dropping the ids of the annotated tree gives back the nested tree. */
  lemma {:induction false} EraseAnnotated(n: NestedSkillNode, p: Option<NodeId>, prefix: string, start: nat)
    ensures Erase(Annotated(n, p, prefix, start)) == n
    decreases n
  {
    var t := Annotated(n, p, prefix, start);
    var cs := seq(|t.children|, i requires 0 <= i < |t.children| => Erase(t.children[i]));
    forall i | 0 <= i < |n.children| ensures cs[i] == n.children[i] {
      AnnotatedChildAt(n, |n.children|, i, NodeId(prefix, start), prefix, start + 1);
      EraseAnnotated(n.children[i], Some(NodeId(prefix, start)), prefix, start + 1 + SizeChildren(n, i));
    }
    assert cs == n.children;
  }

  // ------------------------------------------------- the filter over the table

  lemma {:induction false} ChildRecordsAppend(a: seq<NormalizedSkillNode>, b: seq<NormalizedSkillNode>, id: NodeId)
    ensures ChildRecords(a + b, id) == ChildRecords(a, id) + ChildRecords(b, id)
    decreases |a|
  {
    if a != [] {
      assert (a + b)[1..] == a[1..] + b;
      ChildRecordsAppend(a[1..], b, id);
    } else {
      assert a + b == b;
    }
  }

  lemma {:induction false} ChildRecordsNone(rs: seq<NormalizedSkillNode>, id: NodeId)
    requires forall i :: 0 <= i < |rs| ==> rs[i].parentId != Some(id)
    ensures ChildRecords(rs, id) == []
    decreases |rs|
  {
    if rs != [] {
      ChildRecordsNone(rs[1..], id);
    }
  }

  /** The records of the direct children among the first `k`, as the walk writes them. */
  function DirectChildren(n: NestedSkillNode, k: nat, id: NodeId, prefix: string, start: nat): (rs: seq<NormalizedSkillNode>)
    requires k <= |n.children|
    ensures |rs| == k
  {
    if k == 0 then
      []
    else
      DirectChildren(n, k - 1, id, prefix, start)
      + [Record(n.children[k - 1], NodeId(prefix, start + SizeChildren(n, k - 1)), Some(id))]
  }

  lemma {:induction false} DirectChildAt(n: NestedSkillNode, k: nat, i: nat, id: NodeId, prefix: string, start: nat)
    requires i < k <= |n.children|
    ensures DirectChildren(n, k, id, prefix, start)[i]
      == Record(n.children[i], NodeId(prefix, start + SizeChildren(n, i)), Some(id))
    decreases k
  {
    if i < k - 1 {
      DirectChildAt(n, k - 1, i, id, prefix, start);
    }
  }

  /** Among one child's records only its first names the parent. */
  lemma {:induction false} ChildRecordsOfBlock(c: NestedSkillNode, id: NodeId, prefix: string, b: nat)
    requires id.counter < b
    ensures ChildRecords(Flatten(c, Some(id), prefix, b), id) == [Record(c, NodeId(prefix, b), Some(id))]
  {
    var f := Flatten(c, Some(id), prefix, b);
    FlattenParents(c, Some(id), prefix, b);
    assert f[1..] == FlattenChildren(c, |c.children|, NodeId(prefix, b), prefix, b + 1);
    forall i | 0 <= i < |f[1..]| ensures f[1..][i].parentId != Some(id) {
      assert f[1..][i] == f[i + 1];
    }
    ChildRecordsNone(f[1..], id);
  }

  /** The filter over the children's records yields the direct children. */
  lemma {:induction false} ChildRecordsOfChildren(n: NestedSkillNode, k: nat, id: NodeId, prefix: string, start: nat)
    requires k <= |n.children| && id.counter < start
    ensures ChildRecords(FlattenChildren(n, k, id, prefix, start), id) == DirectChildren(n, k, id, prefix, start)
    decreases k
  {
    if k > 0 {
      var a := FlattenChildren(n, k - 1, id, prefix, start);
      var b := start + SizeChildren(n, k - 1);
      var c := Flatten(n.children[k - 1], Some(id), prefix, b);
      assert FlattenChildren(n, k, id, prefix, start) == a + c;
      assert DirectChildren(n, k, id, prefix, start)
        == DirectChildren(n, k - 1, id, prefix, start) + [Record(n.children[k - 1], NodeId(prefix, b), Some(id))];
      ChildRecordsOfChildren(n, k - 1, id, prefix, start);
      ChildRecordsAppend(a, c, id);
      ChildRecordsOfBlock(n.children[k - 1], id, prefix, b);
    }
  }

  /** Every direct child record has a counter from `start` on. */
  lemma {:induction false} DirectChildrenAfter(n: NestedSkillNode, k: nat, id: NodeId, prefix: string, start: nat)
    requires k <= |n.children|
    ensures forall c :: c in DirectChildren(n, k, id, prefix, start) ==> start <= c.id.counter
    decreases k
  {
    if k > 0 {
      DirectChildrenAfter(n, k - 1, id, prefix, start);
    }
  }

  // ------------------------------------------------ blocks of the walk's output

  /** Child `j`'s records are the slice of the children's records that starts after its earlier siblings'. */
  lemma {:induction false} FlattenChildrenBlock(n: NestedSkillNode, k: nat, j: nat, id: NodeId, prefix: string, start: nat)
    requires j < k <= |n.children|
    ensures |FlattenChildren(n, k, id, prefix, start)| == SizeChildren(n, k)
    ensures SizeChildren(n, j + 1) <= SizeChildren(n, k)
    ensures FlattenChildren(n, k, id, prefix, start)[SizeChildren(n, j)..SizeChildren(n, j + 1)]
      == Flatten(n.children[j], Some(id), prefix, start + SizeChildren(n, j))
    decreases k
  {
    FlattenChildrenLength(n, k, id, prefix, start);
    SizeChildrenMonotone(n, j + 1, k);
    var a := FlattenChildren(n, k - 1, id, prefix, start);
    var c := Flatten(n.children[k - 1], Some(id), prefix, start + SizeChildren(n, k - 1));
    assert FlattenChildren(n, k, id, prefix, start) == a + c;
    FlattenChildrenLength(n, k - 1, id, prefix, start);
    if j == k - 1 {
      FlattenLength(n.children[k - 1], Some(id), prefix, start + SizeChildren(n, k - 1));
      assert (a + c)[|a|..|a| + |c|] == c;
    } else {
      FlattenChildrenBlock(n, k - 1, j, id, prefix, start);
      assert (a + c)[SizeChildren(n, j)..SizeChildren(n, j + 1)] == a[SizeChildren(n, j)..SizeChildren(n, j + 1)];
    }
  }

  /**
   * After child `j`'s records, every record names either the parent `id` or a
   * record written after child `j`'s subtree.
   */
  lemma {:induction false} FlattenChildrenTail(n: NestedSkillNode, k: nat, j: nat, id: NodeId, prefix: string, start: nat)
    requires j < k <= |n.children|
    ensures |FlattenChildren(n, k, id, prefix, start)| == SizeChildren(n, k)
    ensures forall i :: SizeChildren(n, j + 1) <= i < SizeChildren(n, k) ==>
      var q := FlattenChildren(n, k, id, prefix, start)[i].parentId;
      q == Some(id) || PointsInto(q, prefix, start + SizeChildren(n, j + 1), start + i)
    decreases k
  {
    FlattenChildrenLength(n, k, id, prefix, start);
    if j < k - 1 {
      var a := FlattenChildren(n, k - 1, id, prefix, start);
      var off := SizeChildren(n, k - 1);
      var c := Flatten(n.children[k - 1], Some(id), prefix, start + off);
      var ac: seq<NormalizedSkillNode> := a + c;
      assert FlattenChildren(n, k, id, prefix, start) == ac;
      FlattenChildrenLength(n, k - 1, id, prefix, start);
      FlattenChildrenTail(n, k - 1, j, id, prefix, start);
      FlattenParents(n.children[k - 1], Some(id), prefix, start + off);
      SizeChildrenMonotone(n, j + 1, k - 1);
      forall i | SizeChildren(n, j + 1) <= i < SizeChildren(n, k)
        ensures var q := ac[i].parentId;
          q == Some(id) || PointsInto(q, prefix, start + SizeChildren(n, j + 1), start + i)
      {
        if i >= off {
          assert ac[i] == c[i - off];
        } else {
          assert ac[i] == a[i];
        }
      }
    }
  }

  // ------------------------------------------------------------ the rebuild

  /** The table of a walk `f` over ids `prefix-0 ..`: keys, iteration order and acyclic parent links. */
  ghost predicate Table(nodes: map<NodeId, NormalizedSkillNode>, order: seq<NodeId>, f: seq<NormalizedSkillNode>, prefix: string)
  {
    && Acyclic(nodes) && OrderListsKeys(nodes, order)
    && Values(nodes, order) == f
    && forall i :: 0 <= i < |f| ==> NodeId(prefix, i) in nodes && nodes[NodeId(prefix, i)] == f[i] && f[i].id == NodeId(prefix, i)
  }

  /** `f` holds the walk of `sub` (reached from `p`) at positions `s ..`. */
  ghost predicate Placed(f: seq<NormalizedSkillNode>, prefix: string, sub: NestedSkillNode, p: Option<NodeId>, s: nat)
  {
    && s + Size(sub) <= |f|
    && |Flatten(sub, p, prefix, s)| == Size(sub)
    && forall i :: 0 <= i < Size(sub) ==> f[s + i] == Flatten(sub, p, prefix, s)[i]
  }

  /** The record at `k` does not name a record of [lo, hi) as parent. */
  ghost predicate Outside(f: seq<NormalizedSkillNode>, k: nat, prefix: string, lo: int, hi: int)
    requires k < |f|
  {
    !PointsInto(f[k].parentId, prefix, lo, hi)
  }

  /** No record from `hi` on names a record of [lo, hi) as parent. */
  ghost predicate Sealed(f: seq<NormalizedSkillNode>, prefix: string, lo: int, hi: nat)
  {
    forall k: nat :: hi <= k < |f| ==> Outside(f, k, prefix, lo, hi)
  }

  /**
   * `f` holds the walk of `sub` (reached from `p`) at positions `s ..`, and no
   * record after that block names a record inside it as parent.
   */
  ghost predicate Block(f: seq<NormalizedSkillNode>, prefix: string, sub: NestedSkillNode, p: Option<NodeId>, s: nat)
  {
    Placed(f, prefix, sub, p, s) && Sealed(f, prefix, s, s + Size(sub))
  }

  lemma {:induction false} BuildForestAppend(nodes: map<NodeId, NormalizedSkillNode>, order: seq<NodeId>,
                                             a: seq<NormalizedSkillNode>, b: seq<NormalizedSkillNode>, parent: NodeId)
    requires Acyclic(nodes) && OrderListsKeys(nodes, order)
    requires forall c :: c in a + b ==> parent.counter < c.id.counter
    ensures BuildForest(nodes, order, a + b, parent) == BuildForest(nodes, order, a, parent) + BuildForest(nodes, order, b, parent)
    decreases |a|
  {
    if a == [] {
      assert a + b == b;
    } else {
      assert (a + b)[1..] == a[1..] + b;
      BuildForestAppend(nodes, order, a[1..], b, parent);
    }
  }

  /** Child `j`'s walk sits in the walk of `n` right after the records of its earlier siblings. */
  lemma {:induction false} FlattenChildAt(n: NestedSkillNode, p: Option<NodeId>, prefix: string, s: nat, j: nat)
    requires j < |n.children|
    ensures var b := s + 1 + SizeChildren(n, j);
      var w := Flatten(n.children[j], Some(NodeId(prefix, s)), prefix, b);
      b - s + |w| <= |Flatten(n, p, prefix, s)|
      && forall i :: 0 <= i < |w| ==> Flatten(n, p, prefix, s)[b - s + i] == w[i]
  {
    var id := NodeId(prefix, s);
    var fc := FlattenChildren(n, |n.children|, id, prefix, s + 1);
    var whole := Flatten(n, p, prefix, s);
    assert whole == [Record(n, id, p)] + fc;
    var lo, hi := SizeChildren(n, j), SizeChildren(n, j + 1);
    var w := Flatten(n.children[j], Some(id), prefix, s + 1 + lo);
    assert |fc| == SizeChildren(n, |n.children|) && hi <= |fc| && fc[lo..hi] == w by {
      FlattenChildrenBlock(n, |n.children|, j, id, prefix, s + 1);
    }
    forall i | 0 <= i < |w| ensures whole[1 + lo + i] == w[i] {
      assert whole[1 + lo + i] == fc[lo + i];
      assert fc[lo + i] == fc[lo..hi][i];
    }
  }

  /**
   * In the walk of `n`, every record after child `j`'s subtree names either the
   * root of `n` or a record written after child `j`'s subtree.
   */
  lemma {:induction false} FlattenTail(n: NestedSkillNode, p: Option<NodeId>, prefix: string, s: nat, j: nat)
    requires j < |n.children|
    ensures var lo := 1 + SizeChildren(n, j + 1);
      forall i :: lo <= i < |Flatten(n, p, prefix, s)| ==>
        var q := Flatten(n, p, prefix, s)[i].parentId;
        q == Some(NodeId(prefix, s)) || PointsInto(q, prefix, s + lo, s + i)
  {
    var id := NodeId(prefix, s);
    var k := |n.children|;
    var fc := FlattenChildren(n, k, id, prefix, s + 1);
    var whole := Flatten(n, p, prefix, s);
    assert whole == [Record(n, id, p)] + fc;
    FlattenChildrenTail(n, k, j, id, prefix, s + 1);
    forall i | 1 + SizeChildren(n, j + 1) <= i < |whole|
      ensures var q := whole[i].parentId;
        q == Some(id) || PointsInto(q, prefix, s + 1 + SizeChildren(n, j + 1), s + i)
    {
      assert whole[i] == fc[i - 1];
    }
  }

  /** The block of child `j` is placed in `f` right after the blocks of its earlier siblings. */
  lemma {:induction false} BlockSlice(f: seq<NormalizedSkillNode>, prefix: string, sub: NestedSkillNode, p: Option<NodeId>, s: nat, j: nat, b: nat)
    requires Placed(f, prefix, sub, p, s) && j < |sub.children| && b == s + 1 + SizeChildren(sub, j)
    ensures Placed(f, prefix, sub.children[j], Some(NodeId(prefix, s)), b)
  {
    var id := NodeId(prefix, s);
    var whole := Flatten(sub, p, prefix, s);
    var w := Flatten(sub.children[j], Some(id), prefix, b);
    FlattenChildAt(sub, p, prefix, s, j);
    FlattenLength(sub.children[j], Some(id), prefix, b);
    forall i | 0 <= i < |w| ensures f[b + i] == w[i] {
      assert f[s + (b - s + i)] == whole[b - s + i];
    }
  }

  /** After child `j`'s block no record names a record of that block as parent. */
  lemma {:induction false} BlockAfter(f: seq<NormalizedSkillNode>, prefix: string, sub: NestedSkillNode, p: Option<NodeId>, s: nat, j: nat,
                    b: nat, x: nat)
    requires Block(f, prefix, sub, p, s) && j < |sub.children|
    requires b == s + 1 + SizeChildren(sub, j) && x == b + Size(sub.children[j])
    ensures Sealed(f, prefix, b, x)
  {
    var e := s + Size(sub);
    var whole := Flatten(sub, p, prefix, s);
    FlattenTail(sub, p, prefix, s, j);
    SizeChildrenMonotone(sub, j + 1, |sub.children|);
    assert Size(sub) == 1 + SizeChildren(sub, |sub.children|);
    assert x == s + 1 + SizeChildren(sub, j + 1);
    forall k: nat | x <= k < |f| ensures Outside(f, k, prefix, b, x) {
      if k < e {
        assert f[s + (k - s)] == whole[k - s];
      } else {
        assert Outside(f, k, prefix, s, e);
      }
    }
  }

  /** The block of child `j` inside the block of `sub` is a block in its own right. */
  lemma {:induction false} ChildBlock(f: seq<NormalizedSkillNode>, prefix: string, sub: NestedSkillNode, p: Option<NodeId>, s: nat, j: nat, b: nat)
    requires Block(f, prefix, sub, p, s) && j < |sub.children| && b == s + 1 + SizeChildren(sub, j)
    ensures Block(f, prefix, sub.children[j], Some(NodeId(prefix, s)), b)
  {
    BlockSlice(f, prefix, sub, p, s, j, b);
    BlockAfter(f, prefix, sub, p, s, j, b, b + Size(sub.children[j]));
  }

  /** Before a block, no record names its first record as parent: parents come earlier than children. */
  lemma {:induction false} BeforeBlock(nodes: map<NodeId, NormalizedSkillNode>, order: seq<NodeId>, f: seq<NormalizedSkillNode>, prefix: string, s: nat)
    requires Table(nodes, order, f, prefix) && s <= |f|
    ensures ChildRecords(f[..s], NodeId(prefix, s)) == []
  {
    forall i | 0 <= i < |f[..s]| ensures f[..s][i].parentId != Some(NodeId(prefix, s)) {
      assert f[..s][i] == nodes[NodeId(prefix, i)];
    }
    ChildRecordsNone(f[..s], NodeId(prefix, s));
  }

  /** A sequence that holds `t` from `s` on splits around it. */
  lemma {:induction false} Split<T>(f: seq<T>, s: nat, t: seq<T>)
    requires s + |t| <= |f| && forall i :: 0 <= i < |t| ==> f[s + i] == t[i]
    ensures f == f[..s] + t + f[s + |t|..]
  {
    var g := f[..s] + t + f[s + |t|..];
    forall i | 0 <= i < |f| ensures f[i] == g[i] {
      if s <= i < s + |t| {
        assert f[s + (i - s)] == t[i - s];
      }
    }
  }

  /** After a block, no record names the block's first record as parent. */
  lemma {:induction false} AfterBlock(f: seq<NormalizedSkillNode>, prefix: string, sub: NestedSkillNode, p: Option<NodeId>, s: nat)
    requires Block(f, prefix, sub, p, s)
    ensures ChildRecords(f[s + Size(sub)..], NodeId(prefix, s)) == []
  {
    var e := s + Size(sub);
    forall i | 0 <= i < |f[e..]| ensures f[e..][i].parentId != Some(NodeId(prefix, s)) {
      assert f[e..][i] == f[e + i];
      assert Outside(f, e + i, prefix, s, e);
    }
    ChildRecordsNone(f[e..], NodeId(prefix, s));
  }

  /** The filter over the whole table finds exactly the direct children of the block's first record. */
  lemma {:induction false} ChildRecordsOfTable(nodes: map<NodeId, NormalizedSkillNode>, order: seq<NodeId>, f: seq<NormalizedSkillNode>,
                            prefix: string, sub: NestedSkillNode, p: Option<NodeId>, s: nat)
    requires Table(nodes, order, f, prefix) && Block(f, prefix, sub, p, s)
    ensures ChildRecords(Values(nodes, order), NodeId(prefix, s))
      == DirectChildren(sub, |sub.children|, NodeId(prefix, s), prefix, s + 1)
  {
    var n := |sub.children|;
    var id := NodeId(prefix, s);
    var e := s + Size(sub);
    var rec := Record(sub, id, p);
    var fc := FlattenChildren(sub, n, id, prefix, s + 1);
    var blk := Flatten(sub, p, prefix, s);
    assert blk == [rec] + fc;
    Split(f, s, blk);
    var before, after := f[..s], f[e..];
    assert f == before + (blk + after);
    BeforeBlock(nodes, order, f, prefix, s);
    AfterBlock(f, prefix, sub, p, s);
    assert rec.parentId != Some(id) by {
      assert f[s + 0] == blk[0];
      assert nodes[id] == rec;
    }
    ChildRecordsAround(f, before, blk, after, rec, fc, id);
    ChildRecordsOfChildren(sub, n, id, prefix, s + 1);
  }

  /** Splitting the filter around a block whose first record does not name `id`. */
  lemma {:induction false} ChildRecordsAround(f: seq<NormalizedSkillNode>, before: seq<NormalizedSkillNode>, blk: seq<NormalizedSkillNode>,
                                              after: seq<NormalizedSkillNode>, rec: NormalizedSkillNode, fc: seq<NormalizedSkillNode>, id: NodeId)
    requires f == before + (blk + after) && blk == [rec] + fc && rec.parentId != Some(id)
    requires ChildRecords(before, id) == [] && ChildRecords(after, id) == []
    ensures ChildRecords(f, id) == ChildRecords(fc, id)
  {
    assert ChildRecords([rec], id) == [] by {
      assert [rec][1..] == [];
    }
    ChildRecordsAppend(before, blk + after, id);
    ChildRecordsAppend(blk, after, id);
    ChildRecordsAppend([rec], fc, id);
  }

  /** `buildTree` on the id at the start of a block rebuilds the annotated subtree. */
  lemma {:induction false} BuildBlock(nodes: map<NodeId, NormalizedSkillNode>, order: seq<NodeId>, f: seq<NormalizedSkillNode>,
                                      prefix: string, sub: NestedSkillNode, p: Option<NodeId>, s: nat)
    requires Table(nodes, order, f, prefix) && Block(f, prefix, sub, p, s)
    ensures BuildTree(nodes, order, NodeId(prefix, s)) == Some(Annotated(sub, p, prefix, s))
    decreases sub, 1
  {
    var id := NodeId(prefix, s);
    assert nodes[id] == Record(sub, id, p) by {
      assert f[s + 0] == Flatten(sub, p, prefix, s)[0];
    }
    ChildRecordsOfTable(nodes, order, f, prefix, sub, p, s);
    BuildForestBlock(nodes, order, f, prefix, sub, p, s, |sub.children|);
  }

  /** `.map(buildTree)` over `cs` yields `ts`. */
  ghost predicate Rebuilds(nodes: map<NodeId, NormalizedSkillNode>, order: seq<NodeId>, cs: seq<NormalizedSkillNode>,
                           parent: NodeId, ts: seq<TreeNode>)
    requires Acyclic(nodes) && OrderListsKeys(nodes, order)
    requires forall c :: c in cs ==> parent.counter < c.id.counter
  {
    BuildForest(nodes, order, cs, parent) == ts
  }

  /** `.map(buildTree)` over the direct children of a block rebuilds the annotated children. */
  lemma {:induction false} BuildForestBlock(nodes: map<NodeId, NormalizedSkillNode>, order: seq<NodeId>, f: seq<NormalizedSkillNode>,
                                            prefix: string, sub: NestedSkillNode, p: Option<NodeId>, s: nat, k: nat)
    requires Table(nodes, order, f, prefix) && Block(f, prefix, sub, p, s) && k <= |sub.children|
    ensures forall c :: c in DirectChildren(sub, k, NodeId(prefix, s), prefix, s + 1) ==> s < c.id.counter
    ensures Rebuilds(nodes, order, DirectChildren(sub, k, NodeId(prefix, s), prefix, s + 1), NodeId(prefix, s),
                     AnnotatedChildren(sub, k, NodeId(prefix, s), prefix, s + 1))
    decreases sub, 0, k
  {
    var id := NodeId(prefix, s);
    DirectChildrenAfter(sub, k, id, prefix, s + 1);
    if k > 0 {
      var j := k - 1;
      var c := sub.children[j];
      var b := s + 1 + SizeChildren(sub, j);
      var rec := Record(c, NodeId(prefix, b), Some(id));
      var prev := DirectChildren(sub, j, id, prefix, s + 1);
      var ts := AnnotatedChildren(sub, j, id, prefix, s + 1);
      var t := Annotated(c, Some(id), prefix, b);
      assert DirectChildren(sub, k, id, prefix, s + 1) == prev + [rec];
      assert AnnotatedChildren(sub, k, id, prefix, s + 1) == ts + [t] by {
        AnnotatedChildrenLast(sub, k, id, prefix, s + 1);
      }
      assert Rebuilds(nodes, order, prev, id, ts) by {
        BuildForestBlock(nodes, order, f, prefix, sub, p, s, j);
      }
      assert rec.id in nodes && BuildTree(nodes, order, rec.id) == Some(t) by {
        ChildBlock(f, prefix, sub, p, s, j, b);
        BuildBlock(nodes, order, f, prefix, c, Some(id), b);
        assert NodeId(prefix, b) in nodes;
      }
      BuildForestSnoc(nodes, order, prev, rec, id, ts, t, DirectChildren(sub, k, id, prefix, s + 1), AnnotatedChildren(sub, k, id, prefix, s + 1));
    }
  }

  /** `.map(buildTree)` over the records with one more record whose subtree builds appended. */
  lemma {:induction false} BuildForestSnoc(nodes: map<NodeId, NormalizedSkillNode>, order: seq<NodeId>, prev: seq<NormalizedSkillNode>,
                                           rec: NormalizedSkillNode, parent: NodeId, ts: seq<TreeNode>, t: TreeNode,
                                           cs: seq<NormalizedSkillNode>, us: seq<TreeNode>)
    requires Acyclic(nodes) && OrderListsKeys(nodes, order)
    requires cs == prev + [rec] && us == ts + [t]
    requires forall c :: c in cs ==> parent.counter < c.id.counter
    requires Rebuilds(nodes, order, prev, parent, ts)
    requires rec.id in nodes && BuildTree(nodes, order, rec.id) == Some(t)
    ensures Rebuilds(nodes, order, cs, parent, us)
  {
    BuildForestAppend(nodes, order, prev, [rec], parent);
    assert [rec][1..] == [];
  }

  /**
   * The round trip of the store: `buildTree` over the table that
   * `normalizeSkillTree` writes for `tree`, started at the top id, rebuilds
   * `tree`: every node with its own data, its children in their order, each
   * carrying the record written for it.
   */
  lemma {:induction false} BuildRoundTrip(tree: NestedSkillNode, prefix: string)
    ensures var f := Flatten(tree, None, prefix, 0);
      var nodes := Insert(map[], f);
      var order := Ids(f);
      && Acyclic(nodes) && OrderListsKeys(nodes, order)
      && BuildTree(nodes, order, NodeId(prefix, 0)) == Some(Annotated(tree, None, prefix, 0))
      && Erase(Annotated(tree, None, prefix, 0)) == tree
  {
    var f := Flatten(tree, None, prefix, 0);
    WalkTable(tree, prefix, f);
    BuildBlock(Insert(map[], f), Ids(f), f, prefix, tree, None, 0);
    EraseAnnotated(tree, None, prefix, 0);
  }

  /** The table written for `tree` holds the whole walk as one block. */
  lemma {:induction false} WalkTable(tree: NestedSkillNode, prefix: string, f: seq<NormalizedSkillNode>)
    requires f == Flatten(tree, None, prefix, 0)
    ensures Table(Insert(map[], f), Ids(f), f, prefix) && Block(f, prefix, tree, None, 0)
  {
    FlattenIds(tree, None, prefix, 0);
    FlattenParents(tree, None, prefix, 0);
    assert forall i :: 0 <= i < |f| ==> f[i].id == NodeId(prefix, 0 + i);
    assert forall i :: 0 < i < |f| ==> PointsInto(f[i].parentId, prefix, 0, 0 + i);
    NumberedWalkTable(f, prefix);
    WholeBlock(f, prefix, tree, None);
  }

  /** A walk started at 0 is one block of itself. */
  lemma {:induction false} WholeBlock(f: seq<NormalizedSkillNode>, prefix: string, tree: NestedSkillNode, p: Option<NodeId>)
    requires f == Flatten(tree, p, prefix, 0)
    ensures Block(f, prefix, tree, p, 0)
  {
    FlattenLength(tree, p, prefix, 0);
    assert forall i :: 0 <= i < Size(tree) ==> f[0 + i] == f[i];
  }

  /**
   * Records numbered `prefix-0 ..` in order, the first without a parent and
   * every later one naming an earlier one, written into an empty map, make a table.
   */
  lemma {:induction false} NumberedWalkTable(f: seq<NormalizedSkillNode>, prefix: string)
    requires forall i :: 0 <= i < |f| ==> f[i].id == NodeId(prefix, i)
    requires |f| > 0 ==> f[0].parentId == None
    requires forall i :: 0 < i < |f| ==> PointsInto(f[i].parentId, prefix, 0, i)
    ensures Table(Insert(map[], f), Ids(f), f, prefix)
  {
    NumberedTable(f, prefix);
    var nodes, order := Insert(map[], f), Ids(f);
    assert Acyclic(nodes) by {
      forall k | k in nodes && nodes[k].parentId.Some?
        ensures nodes[k].parentId.value.counter < nodes[k].id.counter
      {
        assert nodes[k] == f[k.counter] by {
          assert k == NodeId(prefix, k.counter);
        }
      }
    }
    assert OrderListsKeys(nodes, order) by {
      forall i | 0 <= i < |order| ensures order[i] in nodes {
        assert order[i] == NodeId(prefix, i);
      }
    }
    assert Values(nodes, order) == f by {
      forall i | 0 <= i < |f| ensures Values(nodes, order)[i] == f[i] {
        assert order[i] == NodeId(prefix, i);
      }
    }
  }
}
