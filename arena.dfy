/**
 * The decode tree of a Huffman table, kept as an arena of nodes.
 *
 * In C++ each `Node` holds `shared_ptr` links: two owning links to its children and
 * a back link to its parent.  Here every node lives at an index of a sequence, the
 * root at index 0, and each link is an optional index.  A child is always appended
 * after its parent, so a parent's index is smaller than its child's: the parent links
 * can never form a cycle, and following them always reaches the root.
 */
module Arena {
  import opened Wrappers

  /** Longest code length, and so the most length buckets, a table may describe. */
  const MaxCodeLength: nat := 16

  /** An unsigned 8-bit quantity. */
  newtype byte = x: int | 0 <= x < 256

  /**
   * One tree vertex.  `value` is the decoded symbol (meaningful at a leaf), `used`
   * marks a leaf that received a symbol, and `visited` is the construction pass in
   * which the node was last found to have no free slot below it.
   */
  datatype Node = Node(left: Option<nat>, right: Option<nat>, parent: Option<nat>,
                       value: byte, visited: int, used: bool)

  /**
   * A node as the node constructor makes it.  Its symbol is left uninitialised
   * there; the model gives it 0.
   */
  function NewNode(parent: Option<nat>): Node {
    Node(None, None, parent, 0, 0, false)
  }

  predicate IsLeaf(n: Node) {
    n.left.None? && n.right.None?
  }

  /** The edge a bit selects: `true` is the right child, `false` the left one. */
  function Child(n: Node, bit: bool): Option<nat> {
    if bit then n.right else n.left
  }

  /** Node `p` owns the node at index `k`. */
  predicate Owns(p: Node, k: nat) {
    p.left == Some(k) || p.right == Some(k)
  }

  /** The parent link of non-root node `k` names an earlier node that owns `k`. */
  ghost predicate ParentLinked(nodes: seq<Node>, k: nat)
    requires k < |nodes|
  {
    match nodes[k].parent
    case None => false
    case Some(p) => p < k && Owns(nodes[p], k)
  }

  /** A child link of node `k`, if present, names a later node whose parent is `k`. */
  ghost predicate ChildLink(nodes: seq<Node>, k: nat, c: Option<nat>) {
    c.Some? ==> k < c.value < |nodes| && nodes[c.value].parent == Some(k)
  }

  ghost predicate ChildrenLinked(nodes: seq<Node>, k: nat)
    requires k < |nodes|
  {
    && ChildLink(nodes, k, nodes[k].left)
    && ChildLink(nodes, k, nodes[k].right)
    && (nodes[k].left.Some? && nodes[k].right.Some? ==> nodes[k].left != nodes[k].right)
  }

  /**
   * The arena is a binary tree rooted at index 0: the root has no parent, every
   * other node's parent is the node that owns it, and child and parent links agree.
   */
  ghost predicate Linked(nodes: seq<Node>) {
    && |nodes| >= 1
    && nodes[0].parent.None?
    && (forall k :: 0 < k < |nodes| ==> ParentLinked(nodes, k))
    && (forall k :: 0 <= k < |nodes| ==> ChildrenLinked(nodes, k))
  }

  /** `a` and `b` have the same links; they may differ in symbols, flags and stamps. */
  ghost predicate SameLinks(a: seq<Node>, b: seq<Node>) {
    && |a| == |b|
    && forall k :: 0 <= k < |a| ==>
         a[k].left == b[k].left && a[k].right == b[k].right && a[k].parent == b[k].parent
  }

  lemma LinkedFrame(a: seq<Node>, b: seq<Node>)
    requires SameLinks(a, b) && Linked(a)
    ensures Linked(b)
  {
    forall k | 0 < k < |b| ensures ParentLinked(b, k) {
      assert ParentLinked(a, k);
    }
    forall k | 0 <= k < |b| ensures ChildrenLinked(b, k) {
      assert ChildrenLinked(a, k);
    }
  }

  /** Number of edges from the root down to node `k`. */
  ghost function Depth(nodes: seq<Node>, k: nat): nat
    decreases k
  {
    if k < |nodes| && nodes[k].parent.Some? && nodes[k].parent.value < k
    then Depth(nodes, nodes[k].parent.value) + 1
    else 0
  }

  /** Only the root has no parent, so only the root is at depth 0. */
  lemma DepthZeroIsRoot(nodes: seq<Node>, k: nat)
    requires Linked(nodes) && k < |nodes|
    ensures Depth(nodes, k) == 0 <==> k == 0
    ensures nodes[k].parent.None? <==> k == 0
  {
    if k > 0 {
      assert ParentLinked(nodes, k);
    }
  }

  /** `a` and `b` agree on the parent links of their first `n` nodes. */
  ghost predicate SameParents(a: seq<Node>, b: seq<Node>, n: nat) {
    n <= |a| && n <= |b| && forall k :: 0 <= k < n ==> a[k].parent == b[k].parent
  }

  lemma {:induction false} DepthFrame(a: seq<Node>, b: seq<Node>, n: nat, k: nat)
    requires SameParents(a, b, n) && k < n
    ensures Depth(a, k) == Depth(b, k)
    decreases k
  {
    if a[k].parent.Some? && a[k].parent.value < k {
      DepthFrame(a, b, n, a[k].parent.value);
    }
  }

  /** Indices below `n` of the nodes that hold an assigned symbol, in increasing order. */
  ghost function LeafIndices(nodes: seq<Node>, n: nat): (ks: seq<nat>)
    requires n <= |nodes|
    ensures forall t :: 0 <= t < |ks| ==> ks[t] < n && nodes[ks[t]].used
    ensures forall t, u :: 0 <= t < u < |ks| ==> ks[t] < ks[u]
    ensures forall k :: 0 <= k < n && nodes[k].used ==> k in ks
  {
    if n == 0 then [] else LeafIndices(nodes, n - 1) + (if nodes[n - 1].used then [n - 1] else [])
  }

  /** Number of nodes below index `n` that hold a symbol and sit at depth `d`. */
  ghost function UsedAtDepth(nodes: seq<Node>, n: nat, d: nat): nat
    requires n <= |nodes|
  {
    if n == 0 then 0
    else UsedAtDepth(nodes, n - 1, d) + (if nodes[n - 1].used && Depth(nodes, n - 1) == d then 1 else 0)
  }

  /** A node that holds a symbol is counted at its own depth. */
  lemma {:induction false} UsedIsCounted(nodes: seq<Node>, n: nat, k: nat)
    requires n <= |nodes| && k < n && nodes[k].used
    ensures UsedAtDepth(nodes, n, Depth(nodes, k)) >= 1
    decreases n
  {
    if k < n - 1 {
      UsedIsCounted(nodes, n - 1, k);
    }
  }

  /** Changing anything but parent links and `used` flags leaves the leaves alone. */
  lemma LeavesFrame(a: seq<Node>, b: seq<Node>, n: nat)
    requires SameParents(a, b, n)
    requires forall k :: 0 <= k < n ==> a[k].used == b[k].used
    ensures LeafIndices(a, n) == LeafIndices(b, n)
    ensures forall d :: UsedAtDepth(a, n, d) == UsedAtDepth(b, n, d)
  {
    LeafIndicesFrame(a, b, n);
    forall d: nat ensures UsedAtDepth(a, n, d) == UsedAtDepth(b, n, d) {
      UsedAtDepthFrame(a, b, n, d);
    }
  }

  lemma {:induction false} LeafIndicesFrame(a: seq<Node>, b: seq<Node>, n: nat)
    requires n <= |a| && n <= |b|
    requires forall k :: 0 <= k < n ==> a[k].used == b[k].used
    ensures LeafIndices(a, n) == LeafIndices(b, n)
  {
    if n > 0 {
      LeafIndicesFrame(a, b, n - 1);
    }
  }

  lemma {:induction false} UsedAtDepthFrame(a: seq<Node>, b: seq<Node>, n: nat, d: nat)
    requires SameParents(a, b, n)
    requires forall k :: 0 <= k < n ==> a[k].used == b[k].used
    ensures UsedAtDepth(a, n, d) == UsedAtDepth(b, n, d)
  {
    if n > 0 {
      UsedAtDepthFrame(a, b, n - 1, d);
      DepthFrame(a, b, n, n - 1);
    }
  }
}
