/**
 * Construction of the decode tree from a table of code-length counts and a symbol
 * list: the loop of `HuffmanTree::Impl::Build`, one iteration at a time.
 *
 * `Step` is one iteration of that loop, `Walk` runs it until the loop exits or an
 * iteration throws, and `BuildSpec` adds the table-size check made before the loop.
 * The method `Huffman.HuffmanTree.Build` is proved to leave exactly the state
 * `BuildSpec` describes; the lemmas here say what that state is.
 */
module Construction {
  import opened Wrappers
  import opened Arena

  /** The three ways a build fails: too many length buckets, too few symbols, and a
      histogram that no binary tree realises. */
  datatype BuildError = TooBig | Short | CantBuild

  /**
   * The variables of the construction loop: the arena, the cursor `current`, the
   * working copy `codes` of the counts, the bucket `i` (codes of length `i + 1`),
   * the cursor's `depth`, the number `index` of symbols consumed so far and the
   * pass counter `order`.
   */
  datatype Walker = Walker(nodes: seq<Node>, current: nat, codes: seq<byte>, i: nat,
                           depth: nat, index: nat, order: int)

  /** Where a build stops, and whether it stopped because of an error. */
  datatype Finished = Finished(state: Walker, outcome: Outcome<BuildError>)

  /** The root of a previous tree with its children dropped. */
  function Reset(root: Node): Node {
    root.(left := None, right := None, parent := None)
  }

  /** The loop variables on entry to the loop. */
  function Initial(root: Node, codeLengths: seq<byte>): Walker {
    Walker([Reset(root)], 0, codeLengths, 0, 0, 0, 1)
  }

  /** Total of a table of counts. */
  function Sum(s: seq<byte>): nat {
    if s == [] then 0 else s[0] as nat + Sum(s[1..])
  }

  /** A child the walk may enter: it exists, holds no symbol and has not been found
      full during the current pass. */
  predicate Open(nodes: seq<Node>, c: nat, order: int) {
    c < |nodes| && !nodes[c].used && nodes[c].visited != order
  }

  /** Appends a fresh node as the left (or right) child of the cursor and moves there. */
  function Grow(w: Walker, right: bool): Walker
    requires w.current < |w.nodes|
  {
    var c := |w.nodes|;
    var n := w.nodes[w.current];
    var n' := if right then n.(right := Some(c)) else n.(left := Some(c));
    w.(nodes := w.nodes[w.current := n'] + [NewNode(Some(w.current))],
       current := c, depth := w.depth + 1)
  }

  /** One iteration of the construction loop, taken while `i < |codes|`. */
  function Step(w: Walker, values: seq<byte>): Result<Walker, BuildError>
    requires w.i < |w.codes| && w.current < |w.nodes|
    requires Linked(w.nodes) && w.depth == Depth(w.nodes, w.current)
  {
    if w.codes[w.i] == 0 then
      Success(w.(i := w.i + 1))
    else if w.depth == w.i + 1 then
      if w.index >= |values| then Failure(Short)
      else
        Success(w.(nodes := w.nodes[w.current := w.nodes[w.current].(value := values[w.index], used := true)],
                   current := 0, depth := 0, order := w.order + 1, index := w.index + 1,
                   codes := w.codes[w.i := w.codes[w.i] - 1]))
    else
      var n := w.nodes[w.current];
      if n.left.None? then Success(Grow(w, false))
      else if Open(w.nodes, n.left.value, w.order) then
        Success(w.(current := n.left.value, depth := w.depth + 1))
      else if n.right.None? then Success(Grow(w, true))
      else if Open(w.nodes, n.right.value, w.order) then
        Success(w.(current := n.right.value, depth := w.depth + 1))
      else
        match n.parent
        case Some(p) =>
          assert ParentLinked(w.nodes, w.current);
          Success(w.(nodes := w.nodes[w.current := n.(visited := w.order)],
                     current := p, depth := w.depth - 1))
        case None => Failure(CantBuild)
  }

  /** Node count at the start of the pass the loop is in after moving from `w` to `w'`:
      an assignment (which advances `order`) starts a new pass. */
  function NextStart(w: Walker, w': Walker, start: nat): nat {
    if w'.order != w.order then |w'.nodes| else start
  }

  // ---------------------------------------------------------------------------
  // Invariants of the loop

  /** A node that holds no symbol and carries no stamp. */
  predicate Unmarked(n: Node) {
    !n.used && n.visited == 0
  }

  /** The root never receives a symbol and is never stamped. */
  ghost predicate RootIntact(nodes: seq<Node>) {
    |nodes| >= 1 && Unmarked(nodes[0])
  }

  /** A node that holds a symbol has no children. */
  ghost predicate UsedAreLeaves(nodes: seq<Node>) {
    forall k :: 0 <= k < |nodes| && nodes[k].used ==> IsLeaf(nodes[k])
  }

  /** Neither node `k` nor any of its ancestors is stamped with pass `order`. */
  ghost predicate PathClear(nodes: seq<Node>, k: nat, order: int)
    decreases k
  {
    && k < |nodes|
    && nodes[k].visited != order
    && (nodes[k].parent.Some? && nodes[k].parent.value < k ==> PathClear(nodes, nodes[k].parent.value, order))
  }

  /** `a` and `b` agree on the parent links and stamps of their first `n` nodes. */
  ghost predicate SameStamps(a: seq<Node>, b: seq<Node>, n: nat) {
    SameParents(a, b, n) && forall k :: 0 <= k < n ==> a[k].visited == b[k].visited
  }

  lemma {:induction false} PathClearFrame(a: seq<Node>, b: seq<Node>, n: nat, k: nat, order: int)
    requires SameStamps(a, b, n) && k < n
    ensures PathClear(a, k, order) == PathClear(b, k, order)
    decreases k
  {
    if a[k].parent.Some? && a[k].parent.value < k {
      PathClearFrame(a, b, n, a[k].parent.value, order);
    }
  }

  /** Number of nodes below index `n` stamped with pass `order`. */
  ghost function Stamped(nodes: seq<Node>, order: int, n: nat): (c: nat)
    requires n <= |nodes|
    ensures c <= n
  {
    if n == 0 then 0 else Stamped(nodes, order, n - 1) + (if nodes[n - 1].visited == order then 1 else 0)
  }

  /**
   * The shape of the loop state between iterations.  `start` is the number of
   * nodes the arena held when the current pass began: the nodes created during
   * a pass form a chain that ends at the cursor, so the walk never backs out of
   * a node it created in the same pass.
   */
  ghost predicate Shape(w: Walker, start: nat) {
    && Linked(w.nodes) && RootIntact(w.nodes) && UsedAreLeaves(w.nodes)
    && w.current < |w.nodes| && !w.nodes[w.current].used
    && w.depth == Depth(w.nodes, w.current)
    && w.order >= 1 && PathClear(w.nodes, w.current, w.order)
    && |w.codes| <= MaxCodeLength && w.i <= |w.codes|
    && (forall j :: 0 <= j < w.i ==> w.codes[j] == 0)
    && (w.depth > 0 ==> w.i < |w.codes| && w.codes[w.i] > 0 && w.depth <= w.i + 1)
    && (forall k :: 0 <= k < |w.nodes| && !IsLeaf(w.nodes[k]) ==> Depth(w.nodes, k) <= w.i)
    && start <= |w.nodes| && |w.nodes| - start <= w.depth
    && (start < |w.nodes| ==> w.current == |w.nodes| - 1 && IsLeaf(w.nodes[w.current]))
    && (forall k :: 0 < k < |w.nodes| && IsLeaf(w.nodes[k]) && !w.nodes[k].used ==>
          start < |w.nodes| && k == w.current)
    && (forall k :: 0 <= k < |w.nodes| && w.nodes[k].used ==> k < start)
  }

  /** Child link `c` names a node that holds a symbol or was found full in pass `order`. */
  ghost predicate Closed(nodes: seq<Node>, c: Option<nat>, order: int) {
    c.Some? && c.value < |nodes| && (nodes[c.value].used || nodes[c.value].visited == order)
  }

  /**
   * No stamp is ahead of the pass counter, and a node stamped in the current pass
   * has two children, each holding a symbol or stamped in this pass as well.
   */
  ghost predicate Stamps(w: Walker) {
    && (forall k :: 0 <= k < |w.nodes| ==> w.nodes[k].visited <= w.order)
    && (forall k :: 0 <= k < |w.nodes| && w.nodes[k].visited == w.order ==>
          Closed(w.nodes, w.nodes[k].left, w.order) && Closed(w.nodes, w.nodes[k].right, w.order))
  }

  /** The symbol-holding leaves, in arena order, are no deeper than `i + 1` and
      never shallower than a leaf before them. */
  ghost predicate LeafOrder(nodes: seq<Node>, i: nat) {
    var leaves := LeafIndices(nodes, |nodes|);
    && (forall t :: 0 <= t < |leaves| ==> Depth(nodes, leaves[t]) <= i + 1)
    && (forall t, u :: 0 <= t < u < |leaves| ==> Depth(nodes, leaves[t]) <= Depth(nodes, leaves[u]))
  }

  /**
   * What the loop has produced so far: the leaves at depth `j + 1` number the
   * codes of that length already placed, the symbols consumed are the first
   * `index` ones, given to the leaves in arena order, leaves come no deeper than
   * the current bucket and never shallower than a leaf before them, and every
   * count placed is one symbol consumed.
   */
  ghost predicate Tally(w: Walker, codeLengths: seq<byte>, values: seq<byte>) {
    && |w.codes| == |codeLengths|
    && w.index + Sum(w.codes) == Sum(codeLengths)
    && (forall j :: 0 <= j < |codeLengths| ==> w.codes[j] <= codeLengths[j])
    && (forall j :: 0 <= j < |codeLengths| ==>
          UsedAtDepth(w.nodes, |w.nodes|, j + 1) == codeLengths[j] as int - w.codes[j] as int)
    && (forall d: nat :: d == 0 || d > |codeLengths| ==> UsedAtDepth(w.nodes, |w.nodes|, d) == 0)
    && w.index <= |values|
    && |LeafIndices(w.nodes, |w.nodes|)| == w.index
    && (forall t :: 0 <= t < w.index ==> w.nodes[LeafIndices(w.nodes, |w.nodes|)[t]].value == values[t])
    && LeafOrder(w.nodes, w.i)
  }
}
