/**
 * The nested skill tree as it arrives from the tree JSON, shared by the
 * normalizer and by the legacy fan-out layout, together with 2D points.
 */
module SkillNodes {

  /** A skill with its ordered children; it has no id, its identity is its place. */
  datatype NestedSkillNode = NestedSkillNode(
    name: string,
    description: string,
    image: string,
    children: seq<NestedSkillNode>)

  /** A layout coordinate pair; JS numbers are modelled as exact reals. */
  datatype Point = Point(x: real, y: real)

  /** Number of nodes in the subtree rooted at `n`. */
  function Size(n: NestedSkillNode): (r: nat)
    ensures r >= 1
    decreases n, 1
  {
    1 + SizeChildren(n, |n.children|)
  }

  /** Number of nodes in the subtrees of the first `k` children of `n`. */
  function SizeChildren(n: NestedSkillNode, k: nat): nat
    requires k <= |n.children|
    decreases n, 0, k
  {
    if k == 0 then 0 else SizeChildren(n, k - 1) + Size(n.children[k - 1])
  }

  /** Reference pre-order: the node itself, then each child's subtree in turn. */
  function Preorder(n: NestedSkillNode): seq<NestedSkillNode>
    decreases n, 1
  {
    [n] + PreorderChildren(n, |n.children|)
  }

  /** Pre-order of the subtrees of the first `k` children of `n`. */
  function PreorderChildren(n: NestedSkillNode, k: nat): seq<NestedSkillNode>
    requires k <= |n.children|
    decreases n, 0, k
  {
    if k == 0 then [] else PreorderChildren(n, k - 1) + Preorder(n.children[k - 1])
  }

  /** The pre-order lists every node of the subtree once: its length is the node count. */
  lemma {:induction false} PreorderLength(n: NestedSkillNode)
    ensures |Preorder(n)| == Size(n)
    decreases n, 1
  {
    PreorderChildrenLength(n, |n.children|);
  }

  lemma {:induction false} PreorderChildrenLength(n: NestedSkillNode, k: nat)
    requires k <= |n.children|
    ensures |PreorderChildren(n, k)| == SizeChildren(n, k)
    decreases n, 0, k
  {
    if k > 0 {
      PreorderChildrenLength(n, k - 1);
      PreorderLength(n.children[k - 1]);
    }
  }

  /** Blocks of earlier children end before later ones start. */
  lemma {:induction false} SizeChildrenMonotone(n: NestedSkillNode, i: nat, k: nat)
    requires i <= k <= |n.children|
    ensures SizeChildren(n, i) <= SizeChildren(n, k)
    decreases k
  {
    if i < k {
      SizeChildrenMonotone(n, i, k - 1);
    }
  }
}
