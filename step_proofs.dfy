/**
 * One iteration of the construction loop keeps the loop invariants and makes
 * progress in a well-founded order, so the loop always terminates.
 */
module StepProofs {
  import opened Wrappers
  import opened Arena
  import opened Construction

  lemma NextBucketKeepsShape(w: Walker, start: nat)
    requires Shape(w, start) && w.i < |w.codes| && w.codes[w.i] == 0
    ensures Shape(w.(i := w.i + 1), start)
  {
  }

  /** Appending a child to the cursor keeps the arena linked. */
  lemma GrowKeepsLinked(nodes: seq<Node>, c: nat, right: bool)
    requires Linked(nodes) && c < |nodes| && Child(nodes[c], right).None?
    ensures var n := nodes[c];
      var n' := if right then n.(right := Some(|nodes|)) else n.(left := Some(|nodes|));
      Linked(nodes[c := n'] + [NewNode(Some(c))])
  {
    var N := |nodes|;
    var n := nodes[c];
    var n' := if right then n.(right := Some(N)) else n.(left := Some(N));
    var b := nodes[c := n'] + [NewNode(Some(c))];
    forall k | 0 < k < N + 1 ensures ParentLinked(b, k) {
      if k < N {
        assert ParentLinked(nodes, k);
      }
    }
    forall k | 0 <= k < N + 1 ensures ChildrenLinked(b, k) {
      if k < N {
        assert ChildrenLinked(nodes, k);
      }
    }
  }

  lemma GrowKeepsShape(w: Walker, start: nat, right: bool)
    requires Shape(w, start) && w.i < |w.codes| && w.codes[w.i] != 0 && w.depth != w.i + 1
    requires Child(w.nodes[w.current], right).None?
    ensures Shape(Grow(w, right), start)
  {
    var N := |w.nodes|;
    var w' := Grow(w, right);
    var a, b := w.nodes, w'.nodes;
    assert SameStamps(a, b, N);
    GrowKeepsLinked(a, w.current, right);
    assert Linked(b);
    forall k | 0 <= k < N ensures Depth(b, k) == Depth(a, k) {
      DepthFrame(a, b, N, k);
    }
    assert Depth(b, N) == Depth(b, w.current) + 1;
    PathClearFrame(a, b, N, w.current, w.order);
    assert PathClear(b, N, w.order);
    forall k | 0 <= k < N + 1 && !IsLeaf(b[k]) ensures Depth(b, k) <= w'.i {
      if k != w.current {
        assert !IsLeaf(a[k]);
      }
    }
  }

  lemma DescendKeepsShape(w: Walker, start: nat, right: bool)
    requires Shape(w, start) && w.i < |w.codes| && w.codes[w.i] != 0 && w.depth != w.i + 1
    requires Child(w.nodes[w.current], right).Some?
    requires Open(w.nodes, Child(w.nodes[w.current], right).value, w.order)
    ensures Shape(w.(current := Child(w.nodes[w.current], right).value, depth := w.depth + 1), start)
  {
    var c := Child(w.nodes[w.current], right).value;
    assert ChildrenLinked(w.nodes, w.current);
    assert Depth(w.nodes, c) == Depth(w.nodes, w.current) + 1;
  }

  lemma AscendKeepsShape(w: Walker, start: nat)
    requires Shape(w, start) && w.i < |w.codes| && w.codes[w.i] != 0 && w.depth != w.i + 1
    requires w.nodes[w.current].left.Some? && w.nodes[w.current].right.Some?
    requires w.nodes[w.current].parent.Some?
    ensures w.depth >= 1
    ensures Shape(w.(nodes := w.nodes[w.current := w.nodes[w.current].(visited := w.order)],
                     current := w.nodes[w.current].parent.value, depth := w.depth - 1), start)
  {
    var N := |w.nodes|;
    var n := w.nodes[w.current];
    var p := n.parent.value;
    assert ParentLinked(w.nodes, w.current);
    var a, b := w.nodes, w.nodes[w.current := n.(visited := w.order)];
    assert SameLinks(a, b);
    LinkedFrame(a, b);
    assert SameParents(a, b, N);
    forall k | 0 <= k < N ensures Depth(b, k) == Depth(a, k) {
      DepthFrame(a, b, N, k);
    }
    assert SameStamps(a, b, p + 1);
    PathClearFrame(a, b, p + 1, p, w.order);
    assert !IsLeaf(a[p]);
  }

  lemma AssignKeepsShape(w: Walker, start: nat, values: seq<byte>)
    requires Shape(w, start) && w.i < |w.codes| && w.codes[w.i] != 0 && w.depth == w.i + 1
    requires w.index < |values|
    ensures Shape(w.(nodes := w.nodes[w.current := w.nodes[w.current].(value := values[w.index], used := true)],
                     current := 0, depth := 0, order := w.order + 1, index := w.index + 1,
                     codes := w.codes[w.i := w.codes[w.i] - 1]), |w.nodes|)
  {
    var N := |w.nodes|;
    var n := w.nodes[w.current];
    var a, b := w.nodes, w.nodes[w.current := n.(value := values[w.index], used := true)];
    AssignTarget(w, start);
    assert SameLinks(a, b);
    LinkedFrame(a, b);
    assert SameParents(a, b, N);
    forall k | 0 <= k < N ensures Depth(b, k) == Depth(a, k) {
      DepthFrame(a, b, N, k);
    }
  }

  lemma {:induction false} StampedFrame(a: seq<Node>, b: seq<Node>, order: int, n: nat)
    requires n <= |a| && n <= |b|
    requires forall k :: 0 <= k < n ==> a[k].visited == b[k].visited
    ensures Stamped(a, order, n) == Stamped(b, order, n)
  {
    if n > 0 {
      StampedFrame(a, b, order, n - 1);
    }
  }

  /** Stamping one more node raises the count of stamped nodes by one. */
  lemma {:induction false} StampOne(nodes: seq<Node>, k: nat, order: int, n: nat)
    requires k < n <= |nodes| && nodes[k].visited != order
    ensures Stamped(nodes[k := nodes[k].(visited := order)], order, n) == Stamped(nodes, order, n) + 1
  {
    var stamped := nodes[k := nodes[k].(visited := order)];
    if k == n - 1 {
      StampedFrame(stamped, nodes, order, n - 1);
    } else {
      StampOne(nodes, k, order, n - 1);
    }
  }

  /** Taking one code from a bucket lowers the total by one. */
  lemma {:induction false} SumDecrement(s: seq<byte>, j: nat)
    requires j < |s| && s[j] > 0
    ensures Sum(s[j := s[j] - 1]) == Sum(s) - 1
  {
    var t := s[j := s[j] - 1];
    if j == 0 {
      assert t[1..] == s[1..];
    } else {
      assert t[1..] == s[1..][j - 1 := s[j] - 1];
      SumDecrement(s[1..], j - 1);
    }
  }

  /** The well-founded order the construction loop descends in. */
  ghost predicate Progress(w: Walker, start: nat, w': Walker, start': nat) {
    var a, a' := Sum(w.codes), Sum(w'.codes);
    var b, b' := |w.codes| - w.i, |w'.codes| - w'.i;
    var c, c' := MaxCodeLength - (|w.nodes| - start), MaxCodeLength - (|w'.nodes| - start');
    var d, d' := |w.nodes| - Stamped(w.nodes, w.order, |w.nodes|), |w'.nodes| - Stamped(w'.nodes, w'.order, |w'.nodes|);
    var e, e' := MaxCodeLength - w.depth, MaxCodeLength - w'.depth;
    && 0 <= a && 0 <= b && 0 <= c && 0 <= d && 0 <= e
    && (a' < a || (a' == a && (b' < b || (b' == b && (c' < c || (c' == c && (d' < d || (d' == d && e' < e))))))))
  }

  /** Every iteration that does not throw keeps the loop's shape and makes progress. */
  lemma StepKeepsShape(w: Walker, values: seq<byte>, start: nat)
    requires Shape(w, start) && w.i < |w.codes|
    ensures Step(w, values).Success? ==>
      && Shape(Step(w, values).value, NextStart(w, Step(w, values).value, start))
      && Progress(w, start, Step(w, values).value, NextStart(w, Step(w, values).value, start))
  {
    if w.codes[w.i] == 0 {
      NextBucketKeepsShape(w, start);
    } else if w.depth == w.i + 1 {
      if w.index < |values| {
        AssignKeepsShape(w, start, values);
        AssignTarget(w, start);
        SumDecrement(w.codes, w.i);
      }
    } else {
      ExploreKeepsShape(w, values, start);
    }
  }

  /** The iterations that move the cursor without placing a symbol. */
  lemma ExploreKeepsShape(w: Walker, values: seq<byte>, start: nat)
    requires Shape(w, start) && w.i < |w.codes| && w.codes[w.i] != 0 && w.depth != w.i + 1
    ensures Step(w, values).Success? ==>
      && Shape(Step(w, values).value, start)
      && Progress(w, start, Step(w, values).value, start)
  {
    var n := w.nodes[w.current];
    if n.left.None? {
      GrowKeepsShape(w, start, false);
    } else if Open(w.nodes, n.left.value, w.order) {
      DescendKeepsShape(w, start, false);
    } else if n.right.None? {
      GrowKeepsShape(w, start, true);
    } else if Open(w.nodes, n.right.value, w.order) {
      DescendKeepsShape(w, start, true);
    } else if n.parent.Some? {
      AscendKeepsShape(w, start);
      StampOne(w.nodes, w.current, w.order, |w.nodes|);
    }
  }

  /** The tally depends only on the leaves, their depths and their symbols. */
  lemma TallyTransfer(w: Walker, w': Walker, codeLengths: seq<byte>, values: seq<byte>)
    requires Tally(w, codeLengths, values)
    requires w'.codes == w.codes && w'.index == w.index && w'.i == w.i
    requires LeafIndices(w'.nodes, |w'.nodes|) == LeafIndices(w.nodes, |w.nodes|)
    requires forall d: nat :: UsedAtDepth(w'.nodes, |w'.nodes|, d) == UsedAtDepth(w.nodes, |w.nodes|, d)
    requires forall t :: 0 <= t < w.index ==>
      w'.nodes[LeafIndices(w.nodes, |w.nodes|)[t]].value == w.nodes[LeafIndices(w.nodes, |w.nodes|)[t]].value
    requires forall t :: 0 <= t < w.index ==>
      Depth(w'.nodes, LeafIndices(w.nodes, |w.nodes|)[t]) == Depth(w.nodes, LeafIndices(w.nodes, |w.nodes|)[t])
    ensures Tally(w', codeLengths, values)
  {
    assert LeafOrder(w'.nodes, w'.i);
  }

  /** A node appended without a symbol adds no leaf. */
  lemma AppendUnused(b: seq<Node>, n: nat)
    requires n + 1 == |b| && !b[n].used
    ensures LeafIndices(b, n + 1) == LeafIndices(b, n)
    ensures forall d: nat :: UsedAtDepth(b, n + 1, d) == UsedAtDepth(b, n, d)
  {
  }

  lemma GrowKeepsTally(w: Walker, codeLengths: seq<byte>, values: seq<byte>, right: bool)
    requires Tally(w, codeLengths, values) && w.current < |w.nodes| && !w.nodes[w.current].used
    ensures Tally(Grow(w, right), codeLengths, values)
  {
    var N := |w.nodes|;
    var w' := Grow(w, right);
    var a, b := w.nodes, w'.nodes;
    assert SameParents(a, b, N);
    assert forall k :: 0 <= k < N ==> a[k].used == b[k].used && a[k].value == b[k].value;
    LeavesFrame(a, b, N);
    AppendUnused(b, N);
    forall k | 0 <= k < N ensures Depth(b, k) == Depth(a, k) {
      DepthFrame(a, b, N, k);
    }
    TallyTransfer(w, w', codeLengths, values);
  }

  lemma AscendKeepsTally(w: Walker, codeLengths: seq<byte>, values: seq<byte>)
    requires Tally(w, codeLengths, values) && w.current < |w.nodes|
    requires w.nodes[w.current].parent.Some? && w.depth >= 1
    ensures Tally(w.(nodes := w.nodes[w.current := w.nodes[w.current].(visited := w.order)],
                     current := w.nodes[w.current].parent.value, depth := w.depth - 1), codeLengths, values)
  {
    var N := |w.nodes|;
    var w' := w.(nodes := w.nodes[w.current := w.nodes[w.current].(visited := w.order)],
                 current := w.nodes[w.current].parent.value, depth := w.depth - 1);
    var a, b := w.nodes, w'.nodes;
    assert SameParents(a, b, N);
    LeavesFrame(a, b, N);
    forall k | 0 <= k < N ensures Depth(b, k) == Depth(a, k) {
      DepthFrame(a, b, N, k);
    }
    TallyTransfer(w, w', codeLengths, values);
  }

  /** The node that receives a symbol is the leaf most recently appended. */
  lemma AssignTarget(w: Walker, start: nat)
    requires Shape(w, start) && w.i < |w.codes| && w.depth == w.i + 1
    ensures w.current != 0 && w.current == |w.nodes| - 1 && start < |w.nodes|
    ensures IsLeaf(w.nodes[w.current])
  {
  }

  /** Giving the last node of the arena a symbol adds it as the last leaf... */
  lemma AssignLeaves(a: seq<Node>, v: byte)
    requires |a| >= 1 && !a[|a| - 1].used
    ensures var c := |a| - 1;
      LeafIndices(a[c := a[c].(value := v, used := true)], |a|) == LeafIndices(a, |a|) + [c]
  {
    var c := |a| - 1;
    var b := a[c := a[c].(value := v, used := true)];
    LeafIndicesFrame(a, b, c);
    assert LeafIndices(b, |a|) == LeafIndices(b, c) + [c];
    assert LeafIndices(a, |a|) == LeafIndices(a, c);
  }

  /** ...and adds one to the count of leaves at its depth. */
  lemma AssignDepthCount(a: seq<Node>, v: byte, d: nat)
    requires |a| >= 1 && !a[|a| - 1].used
    ensures var c := |a| - 1;
      UsedAtDepth(a[c := a[c].(value := v, used := true)], |a|, d)
        == UsedAtDepth(a, |a|, d) + (if d == Depth(a, c) then 1 else 0)
  {
    var c := |a| - 1;
    var b := a[c := a[c].(value := v, used := true)];
    assert SameParents(a, b, |a|);
    DepthFrame(a, b, |a|, c);
    UsedAtDepthFrame(a, b, c, d);
    assert UsedAtDepth(a, |a|, d) == UsedAtDepth(a, c, d);
  }

  lemma AssignKeepsTally(w: Walker, codeLengths: seq<byte>, values: seq<byte>)
    requires Tally(w, codeLengths, values) && w.current < |w.nodes|
    requires w.current == |w.nodes| - 1 && !w.nodes[w.current].used && w.depth == Depth(w.nodes, w.current)
    requires w.i < |w.codes| && w.codes[w.i] != 0 && w.depth == w.i + 1 && w.index < |values|
    ensures Tally(w.(nodes := w.nodes[w.current := w.nodes[w.current].(value := values[w.index], used := true)],
                     current := 0, depth := 0, order := w.order + 1, index := w.index + 1,
                     codes := w.codes[w.i := w.codes[w.i] - 1]), codeLengths, values)
  {
    SumDecrement(w.codes, w.i);
    var N := |w.nodes|;
    var a, b := w.nodes, w.nodes[w.current := w.nodes[w.current].(value := values[w.index], used := true)];
    var codes' := w.codes[w.i := w.codes[w.i] - 1];
    AssignLeaves(a, values[w.index]);
    var L := LeafIndices(a, N);
    assert LeafIndices(b, N) == L + [N - 1];
    forall d: nat ensures UsedAtDepth(b, N, d) == UsedAtDepth(a, N, d) + (if d == w.i + 1 then 1 else 0) {
      AssignDepthCount(a, values[w.index], d);
    }
    forall j | 0 <= j < |codeLengths|
      ensures UsedAtDepth(b, N, j + 1) == codeLengths[j] as int - codes'[j] as int
    {
    }
    forall t | 0 <= t < w.index + 1 ensures b[(L + [N - 1])[t]].value == values[t] {
      if t < w.index {
        assert L[t] < N - 1;
      }
    }
    AssignKeepsOrder(a, values[w.index], w.i);
  }

  /** A leaf given a symbol at depth `i + 1`, after every other, keeps the leaves in order. */
  lemma AssignKeepsOrder(a: seq<Node>, v: byte, i: nat)
    requires |a| >= 1 && !a[|a| - 1].used && Depth(a, |a| - 1) == i + 1
    requires LeafOrder(a, i)
    ensures var c := |a| - 1; LeafOrder(a[c := a[c].(value := v, used := true)], i)
  {
    var N, c := |a|, |a| - 1;
    var b := a[c := a[c].(value := v, used := true)];
    AssignLeaves(a, v);
    assert SameParents(a, b, N);
    forall k | 0 <= k < N ensures Depth(b, k) == Depth(a, k) {
      DepthFrame(a, b, N, k);
    }
    var L, L' := LeafIndices(a, N), LeafIndices(b, N);
    assert L' == L + [c];
    forall t | 0 <= t < |L'| ensures Depth(b, L'[t]) <= i + 1 {
      if t < |L| {
        assert L'[t] == L[t];
      }
    }
    forall t, u | 0 <= t < u < |L'| ensures Depth(b, L'[t]) <= Depth(b, L'[u]) {
      assert L'[t] == L[t];
      if u < |L| {
        assert L'[u] == L[u];
      }
    }
  }

  /** Every iteration that does not throw keeps the tally of placed codes and symbols. */
  lemma StepKeepsTally(w: Walker, codeLengths: seq<byte>, values: seq<byte>, start: nat)
    requires Shape(w, start) && Tally(w, codeLengths, values) && w.i < |w.codes|
    ensures Step(w, values).Success? ==> Tally(Step(w, values).value, codeLengths, values)
  {
    var n := w.nodes[w.current];
    if w.codes[w.i] == 0 {
    } else if w.depth == w.i + 1 {
      if w.index < |values| {
        AssignTarget(w, start);
        AssignKeepsTally(w, codeLengths, values);
      }
    } else if n.left.None? {
      GrowKeepsTally(w, codeLengths, values, false);
    } else if Open(w.nodes, n.left.value, w.order) {
    } else if n.right.None? {
      GrowKeepsTally(w, codeLengths, values, true);
    } else if Open(w.nodes, n.right.value, w.order) {
    } else if n.parent.Some? {
      AscendKeepsShape(w, start);
      AscendKeepsTally(w, codeLengths, values);
    }
  }

  /** Every iteration that does not throw keeps the stamps behind the pass counter
      and keeps every node stamped in the current pass full. */
  lemma StepKeepsStamps(w: Walker, values: seq<byte>, start: nat)
    requires Shape(w, start) && Stamps(w) && w.i < |w.codes|
    ensures Step(w, values).Success? ==> Stamps(Step(w, values).value)
  {
    var n := w.nodes[w.current];
    if w.codes[w.i] == 0 {
    } else if w.depth == w.i + 1 {
    } else if n.left.None? {
      GrowKeepsStamps(w, start, false);
    } else if Open(w.nodes, n.left.value, w.order) {
    } else if n.right.None? {
      GrowKeepsStamps(w, start, true);
    } else if Open(w.nodes, n.right.value, w.order) {
    } else if n.parent.Some? {
      AscendKeepsStamps(w, start);
    }
  }

  lemma GrowKeepsStamps(w: Walker, start: nat, right: bool)
    requires Shape(w, start) && Stamps(w) && Child(w.nodes[w.current], right).None?
    ensures Stamps(Grow(w, right))
  {
    var a, b := w.nodes, Grow(w, right).nodes;
    forall k | 0 <= k < |b| && b[k].visited == w.order
      ensures Closed(b, b[k].left, w.order) && Closed(b, b[k].right, w.order)
    {
      assert k < |a| && k != w.current;
    }
  }

  lemma AscendKeepsStamps(w: Walker, start: nat)
    requires Shape(w, start) && Stamps(w)
    requires var n := w.nodes[w.current];
      && n.left.Some? && !Open(w.nodes, n.left.value, w.order)
      && n.right.Some? && !Open(w.nodes, n.right.value, w.order)
    ensures Stamps(w.(nodes := w.nodes[w.current := w.nodes[w.current].(visited := w.order)]))
  {
    assert ChildrenLinked(w.nodes, w.current);
  }
}
