/**
 * The whole construction: the table-size check, then the loop run to its end.
 * The lemmas here state what a build leaves behind on each of its outcomes.
 */
module Building {
  import opened Wrappers
  import opened Arena
  import opened Construction
  import opened StepProofs
  import opened Histogram
  import opened Kraft

  /** Runs the construction loop from `w` until it exits or an iteration throws. */
  ghost function Walk(w: Walker, values: seq<byte>, start: nat): Finished
    requires Shape(w, start)
    decreases Sum(w.codes), |w.codes| - w.i, MaxCodeLength - (|w.nodes| - start),
              |w.nodes| - Stamped(w.nodes, w.order, |w.nodes|), MaxCodeLength - w.depth
  {
    if w.i == |w.codes| then Finished(w, Pass)
    else
      match Step(w, values)
      case Failure(e) => Finished(w, Fail(e))
      case Success(next) =>
        StepKeepsShape(w, values, start);
        Walk(next, values, NextStart(w, next, start))
  }

  /** The walk from `w` ends in `f`. */
  ghost predicate Leads(w: Walker, values: seq<byte>, start: nat, f: Finished)
    requires Shape(w, start)
  {
    Walk(w, values, start) == f
  }

  /** One successful iteration: the walk goes on from the state the step produced. */
  lemma WalkAdvances(w: Walker, values: seq<byte>, start: nat, f: Finished)
    requires Shape(w, start) && w.i < |w.codes| && Step(w, values).Success?
    requires Leads(w, values, start, f)
    ensures Shape(Step(w, values).value, NextStart(w, Step(w, values).value, start))
    ensures Leads(Step(w, values).value, values, NextStart(w, Step(w, values).value, start), f)
  {
    StepKeepsShape(w, values, start);
  }

  /** An iteration that throws ends the walk where it stands. */
  lemma WalkStops(w: Walker, values: seq<byte>, start: nat, f: Finished)
    requires Shape(w, start) && w.i < |w.codes| && Step(w, values).Failure?
    requires Leads(w, values, start, f)
    ensures f == Finished(w, Fail(Step(w, values).error))
  {
  }

  /** The walk ends, successfully, once every bucket is exhausted. */
  lemma WalkEnds(w: Walker, values: seq<byte>, start: nat, f: Finished)
    requires Shape(w, start) && w.i == |w.codes|
    requires Leads(w, values, start, f)
    ensures f == Finished(w, Pass)
  {
  }

  lemma InitialInvariants(root: Node, codeLengths: seq<byte>, values: seq<byte>)
    requires Unmarked(root) && |codeLengths| <= MaxCodeLength
    ensures Shape(Initial(root, codeLengths), 1)
    ensures Tally(Initial(root, codeLengths), codeLengths, values)
    ensures Stamps(Initial(root, codeLengths))
  {
    var nodes := Initial(root, codeLengths).nodes;
    assert ChildrenLinked(nodes, 0);
    assert forall d: nat :: UsedAtDepth(nodes, 1, d) == 0;
  }

  // ---------------------------------------------------------------------------
  // What the loop leaves behind

  /** The tree facts that hold whenever the loop stops. */
  ghost predicate Sound(w: Walker) {
    && Linked(w.nodes) && RootIntact(w.nodes) && UsedAreLeaves(w.nodes)
    && w.current < |w.nodes|
    && (w.current == 0 ==> forall k :: 0 < k < |w.nodes| && IsLeaf(w.nodes[k]) ==> w.nodes[k].used)
  }

  /** The cursor is the root and neither of its children may be entered in this pass. */
  ghost predicate StuckAtRoot(w: Walker) {
    && w.current == 0 && |w.nodes| >= 1
    && w.nodes[0].left.Some? && !Open(w.nodes, w.nodes[0].left.value, w.order)
    && w.nodes[0].right.Some? && !Open(w.nodes, w.nodes[0].right.value, w.order)
  }

  /**
   * The loop cannot place its next code: the walk is stuck at the root with a code
   * of length `i + 1` still to place and every shorter length done, every node
   * stamped in this pass is full, and no node with children is deeper than `i`.
   */
  ghost predicate Blocked(w: Walker) {
    && StuckAtRoot(w) && Stamps(w)
    && w.i < |w.codes| && w.codes[w.i] > 0
    && (forall j :: 0 <= j < w.i ==> w.codes[j] == 0)
    && (forall k :: 0 <= k < |w.nodes| && !IsLeaf(w.nodes[k]) ==> Depth(w.nodes, k) <= w.i)
  }

  /** When the loop is blocked, every node other than the root holds a symbol or was
      found full in this pass. */
  lemma {:induction false} BlockedNodeClosed(w: Walker, k: nat)
    requires Blocked(w) && Sound(w) && 0 < k < |w.nodes|
    ensures w.nodes[k].used || w.nodes[k].visited == w.order
    decreases k
  {
    assert ParentLinked(w.nodes, k);
    var p := w.nodes[k].parent.value;
    if p != 0 {
      BlockedNodeClosed(w, p);
      assert !IsLeaf(w.nodes[p]);
    }
  }

  /** So a blocked tree is complete: there is no room left in it for another code. */
  lemma BlockedIsComplete(w: Walker)
    requires Blocked(w) && Sound(w)
    ensures Complete(w.nodes, |w.codes|)
  {
    forall k | 0 <= k < |w.nodes|
      ensures w.nodes[k].used || (w.nodes[k].left.Some? && w.nodes[k].right.Some? && Depth(w.nodes, k) < |w.codes|)
    {
      if k > 0 {
        BlockedNodeClosed(w, k);
      }
    }
  }

  /** The tally puts every symbol-holding node at a depth between 1 and the table's length. */
  lemma PlacedDepths(w: Walker, codeLengths: seq<byte>, values: seq<byte>)
    requires Tally(w, codeLengths, values)
    ensures forall k :: 0 <= k < |w.nodes| && w.nodes[k].used ==> 1 <= Depth(w.nodes, k) <= |codeLengths|
  {
    forall k | 0 <= k < |w.nodes| && w.nodes[k].used ensures 1 <= Depth(w.nodes, k) <= |codeLengths| {
      UsedIsCounted(w.nodes, |w.nodes|, k);
    }
  }

  /**
   * The table's Kraft sum splits into the code space the placed leaves cover, at
   * most `2^|codeLengths|` and exactly that once the tree is complete, plus the
   * Kraft sum of the codes still to place.
   */
  lemma TallyKraft(w: Walker, codeLengths: seq<byte>, values: seq<byte>)
    requires Sound(w) && Tally(w, codeLengths, values)
    ensures var placed := SumOf(DepthWeights(w.nodes, |w.nodes|, |codeLengths|), |codeLengths|);
      && KraftSum(codeLengths) == placed + KraftSum(w.codes)
      && placed <= Pow2(|codeLengths|)
      && (Complete(w.nodes, |codeLengths|) ==> placed == Pow2(|codeLengths|))
  {
    PlacedDepths(w, codeLengths, values);
    assert forall k :: 0 <= k < |w.nodes| && w.nodes[k].used ==>
      IsLeaf(w.nodes[k]) && 1 <= Depth(w.nodes, k) <= |codeLengths|;
    PlacedCodesFit(w.nodes, |codeLengths|);
    KraftSplit(codeLengths, w.codes, w.nodes);
  }

  lemma {:induction false} SumZero(s: seq<byte>)
    requires forall j :: 0 <= j < |s| ==> s[j] == 0
    ensures Sum(s) == 0
  {
    if s != [] {
      SumZero(s[1..]);
    }
  }

  lemma {:induction false} SumAtLeast(s: seq<byte>, j: nat)
    requires j < |s|
    ensures Sum(s) >= s[j] as nat
  {
    if j > 0 {
      SumAtLeast(s[1..], j - 1);
    }
  }

  lemma ShapeSound(w: Walker, start: nat)
    requires Shape(w, start)
    ensures Sound(w)
  {
  }

  /** No iteration touches the root's symbol, flag or stamp. */
  lemma StepKeepsRoot(w: Walker, values: seq<byte>, start: nat)
    requires Shape(w, start) && w.i < |w.codes| && Step(w, values).Success?
    ensures Reset(Step(w, values).value.nodes[0]) == Reset(w.nodes[0])
  {
    if w.codes[w.i] != 0 && w.depth == w.i + 1 {
      AssignTarget(w, start);
    } else if w.nodes[w.current].parent.Some? {
      assert w.current != 0;
    }
  }

  lemma {:induction false} WalkFacts(w: Walker, codeLengths: seq<byte>, values: seq<byte>, start: nat)
    requires Shape(w, start) && Tally(w, codeLengths, values) && Stamps(w)
    ensures Sound(Walk(w, values, start).state)
    ensures Tally(Walk(w, values, start).state, codeLengths, values)
    ensures Reset(Walk(w, values, start).state.nodes[0]) == Reset(w.nodes[0])
    ensures var f := Walk(w, values, start);
      && (f.outcome == Pass ==> f.state.current == 0 && Sum(f.state.codes) == 0)
      && (f.outcome == Pass ==> forall j :: 0 <= j < |f.state.codes| ==> f.state.codes[j] == 0)
      && (f.outcome == Fail(Short) ==> f.state.index == |values| && Sum(f.state.codes) > 0)
      && (f.outcome == Fail(CantBuild) ==> Blocked(f.state))
      && f.outcome != Fail(TooBig)
    decreases Sum(w.codes), |w.codes| - w.i, MaxCodeLength - (|w.nodes| - start),
              |w.nodes| - Stamped(w.nodes, w.order, |w.nodes|), MaxCodeLength - w.depth
  {
    ShapeSound(w, start);
    DepthZeroIsRoot(w.nodes, w.current);
    if w.i == |w.codes| {
      SumZero(w.codes);
    } else {
      match Step(w, values)
      case Failure(e) =>
        if e == Short {
          SumAtLeast(w.codes, w.i);
        }
      case Success(next) =>
        StepKeepsShape(w, values, start);
        StepKeepsTally(w, codeLengths, values, start);
        StepKeepsStamps(w, values, start);
        StepKeepsRoot(w, values, start);
        WalkFacts(next, codeLengths, values, NextStart(w, next, start));
    }
  }

  /**
   * A build from a tree whose root is `root`: the previous tree is dropped, a
   * table of more than `MaxCodeLength` buckets is refused, and otherwise the loop
   * runs from its initial state.
   */
  ghost function BuildSpec(root: Node, codeLengths: seq<byte>, values: seq<byte>): (f: Finished)
    requires Unmarked(root)
    ensures Sound(f.state)
    ensures Reset(f.state.nodes[0]) == Reset(root)
  {
    var w := Initial(root, codeLengths);
    if |codeLengths| > MaxCodeLength then
      assert ChildrenLinked(w.nodes, 0);
      Finished(w, Fail(TooBig))
    else
      InitialInvariants(root, codeLengths, values);
      WalkFacts(w, codeLengths, values, 1);
      Walk(w, values, 1)
  }

  // ---------------------------------------------------------------------------
  // Outcomes of a build

  /** The state a build that got past the size check ends in, with the facts the
      loop established about it. */
  lemma BuildEndState(root: Node, codeLengths: seq<byte>, values: seq<byte>) returns (w: Walker)
    requires Unmarked(root)
    requires BuildSpec(root, codeLengths, values).outcome != Fail(TooBig)
    ensures w == BuildSpec(root, codeLengths, values).state
    ensures |codeLengths| <= MaxCodeLength
    ensures Sound(w) && Tally(w, codeLengths, values)
    ensures BuildSpec(root, codeLengths, values).outcome == Pass ==>
      w.current == 0 && forall j :: 0 <= j < |w.codes| ==> w.codes[j] == 0
    ensures BuildSpec(root, codeLengths, values).outcome == Fail(CantBuild) ==> Blocked(w)
  {
    InitialInvariants(root, codeLengths, values);
    if |codeLengths| <= MaxCodeLength {
      WalkFacts(Initial(root, codeLengths), codeLengths, values, 1);
    }
    w := BuildSpec(root, codeLengths, values).state;
  }

  /** A table with more than `MaxCodeLength` buckets, and only such a table, is
      refused as too big; the old tree is gone and the cursor is at the root. */
  lemma BuildRejectsLongTables(root: Node, codeLengths: seq<byte>, values: seq<byte>)
    requires Unmarked(root)
    ensures BuildSpec(root, codeLengths, values).outcome == Fail(TooBig) <==> |codeLengths| > MaxCodeLength
    ensures |codeLengths| > MaxCodeLength ==>
      && BuildSpec(root, codeLengths, values).state.nodes == [Reset(root)]
      && BuildSpec(root, codeLengths, values).state.current == 0
  {
    if |codeLengths| <= MaxCodeLength {
      InitialInvariants(root, codeLengths, values);
      WalkFacts(Initial(root, codeLengths), codeLengths, values, 1);
    }
  }

  /**
   * A successful build realises the table exactly: for each length d it made
   * exactly `codeLengths[d - 1]` leaves at depth d and none at any other depth,
   * it gave the first `Sum(codeLengths)` symbols to those leaves in arena order,
   * leaves hold symbols and have no children, and every childless node other
   * than the root holds a symbol.  The leaves never get shallower in arena order,
   * so the symbols take the codes shortest first (`BuildOrdersCodes` gives each
   * one's exact length).
   */
  lemma BuildPlacesEveryCode(root: Node, codeLengths: seq<byte>, values: seq<byte>)
    requires Unmarked(root) && BuildSpec(root, codeLengths, values).outcome == Pass
    ensures var f := BuildSpec(root, codeLengths, values);
      var nodes := f.state.nodes;
      var leaves := LeafIndices(nodes, |nodes|);
      && |codeLengths| <= MaxCodeLength
      && Linked(nodes) && f.state.current == 0
      && (forall d: nat :: 1 <= d <= |codeLengths| ==> UsedAtDepth(nodes, |nodes|, d) == codeLengths[d - 1] as nat)
      && (forall d: nat :: d == 0 || d > |codeLengths| ==> UsedAtDepth(nodes, |nodes|, d) == 0)
      && Sum(codeLengths) <= |values| && |leaves| == Sum(codeLengths)
      && (forall t :: 0 <= t < |leaves| ==> nodes[leaves[t]].value == values[t])
      && (forall t, u :: 0 <= t < u < |leaves| ==> Depth(nodes, leaves[t]) <= Depth(nodes, leaves[u]))
      && UsedAreLeaves(nodes)
      && (forall k :: 0 < k < |nodes| && IsLeaf(nodes[k]) ==> nodes[k].used)
  {
    var w := BuildEndState(root, codeLengths, values);
    SumZero(w.codes);
  }

  /**
   * The symbols take the codes shortest first, in table order: after a successful
   * build the `t`-th symbol sits between 1 and `|codeLengths|` deep, and it sits at
   * depth d exactly when the table's codes shorter than d number at most `t` and
   * those up to length d more than `t`.
   */
  lemma BuildOrdersCodes(root: Node, codeLengths: seq<byte>, values: seq<byte>)
    requires Unmarked(root) && BuildSpec(root, codeLengths, values).outcome == Pass
    ensures var nodes := BuildSpec(root, codeLengths, values).state.nodes;
      var leaves := LeafIndices(nodes, |nodes|);
      && (forall t :: 0 <= t < |leaves| ==> 1 <= Depth(nodes, leaves[t]) <= |codeLengths|)
      && (forall t, d :: 0 <= t < |leaves| && 1 <= d <= |codeLengths| ==>
            (Depth(nodes, leaves[t]) == d <==> Sum(codeLengths[..d - 1]) <= t < Sum(codeLengths[..d])))
  {
    var w := BuildEndState(root, codeLengths, values);
    LeafDepthsFollowTable(w.nodes, codeLengths);
  }

  /** The table of a successful build meets Kraft's inequality. */
  lemma BuildFitsCodeSpace(root: Node, codeLengths: seq<byte>, values: seq<byte>)
    requires Unmarked(root) && BuildSpec(root, codeLengths, values).outcome == Pass
    ensures KraftSum(codeLengths) <= Pow2(|codeLengths|)
  {
    var w := BuildEndState(root, codeLengths, values);
    TallyKraft(w, codeLengths, values);
    KraftZero(w.codes);
  }

  /**
   * A build fails for want of symbols only when the table asks for more codes
   * than there are symbols, and then every symbol has been placed, in order;
   * conversely such a table never builds.
   */
  lemma BuildRunsShortOfSymbols(root: Node, codeLengths: seq<byte>, values: seq<byte>)
    requires Unmarked(root)
    ensures var f := BuildSpec(root, codeLengths, values);
      var nodes := f.state.nodes;
      var leaves := LeafIndices(nodes, |nodes|);
      f.outcome == Fail(Short) ==>
        && Sum(codeLengths) > |values| && |leaves| == |values|
        && (forall t :: 0 <= t < |leaves| ==> nodes[leaves[t]].value == values[t])
    ensures |codeLengths| <= MaxCodeLength && Sum(codeLengths) > |values| ==>
      BuildSpec(root, codeLengths, values).outcome == Fail(Short) ||
      BuildSpec(root, codeLengths, values).outcome == Fail(CantBuild)
  {
    BuildRejectsLongTables(root, codeLengths, values);
    if |codeLengths| <= MaxCodeLength {
      InitialInvariants(root, codeLengths, values);
      WalkFacts(Initial(root, codeLengths), codeLengths, values, 1);
      var f := BuildSpec(root, codeLengths, values);
      if Sum(codeLengths) > |values| {
        assert f.outcome != Pass;
        assert f.outcome.error != TooBig;
      }
    }
  }

  /**
   * A build that finds no place for a code fails at the root: the walk is back at
   * the root and both of the root's children exist and are leaves or were found
   * full in this pass.  Every code shorter than `i + 1` is placed, a code of length
   * `i + 1` is not, no length has more codes than the table asked for, and the
   * table breaks Kraft's inequality: no binary tree realises it.
   */
  lemma BuildFailsAtRoot(root: Node, codeLengths: seq<byte>, values: seq<byte>)
    requires Unmarked(root) && BuildSpec(root, codeLengths, values).outcome == Fail(CantBuild)
    ensures var f := BuildSpec(root, codeLengths, values);
      var nodes, i := f.state.nodes, f.state.i;
      && StuckAtRoot(f.state)
      && i < |codeLengths|
      && (forall d: nat :: 1 <= d <= i ==> UsedAtDepth(nodes, |nodes|, d) == codeLengths[d - 1] as nat)
      && UsedAtDepth(nodes, |nodes|, i + 1) < codeLengths[i] as nat
      && (forall d: nat :: 1 <= d <= |codeLengths| ==> UsedAtDepth(nodes, |nodes|, d) <= codeLengths[d - 1] as nat)
      && Pow2(|codeLengths|) < KraftSum(codeLengths)
  {
    var w := BuildEndState(root, codeLengths, values);
    BlockedTable(w, codeLengths, values);
    BlockedOverflows(w, codeLengths, values);
  }

  /** A blocked walk has placed every shorter code and too few codes of the current length. */
  lemma BlockedTable(w: Walker, codeLengths: seq<byte>, values: seq<byte>)
    requires Blocked(w) && Tally(w, codeLengths, values)
    ensures var nodes := w.nodes;
      && w.i < |codeLengths|
      && (forall d: nat :: 1 <= d <= w.i ==> UsedAtDepth(nodes, |nodes|, d) == codeLengths[d - 1] as nat)
      && UsedAtDepth(nodes, |nodes|, w.i + 1) < codeLengths[w.i] as nat
      && (forall d: nat :: 1 <= d <= |codeLengths| ==> UsedAtDepth(nodes, |nodes|, d) <= codeLengths[d - 1] as nat)
  {
  }

  /** The codes a blocked walk still owes do not fit in the code space its full tree has used up. */
  lemma BlockedOverflows(w: Walker, codeLengths: seq<byte>, values: seq<byte>)
    requires Blocked(w) && Sound(w) && Tally(w, codeLengths, values)
    ensures Pow2(|codeLengths|) < KraftSum(codeLengths)
  {
    BlockedIsComplete(w);
    TallyKraft(w, codeLengths, values);
    KraftPositive(w.codes, w.i);
  }

  /**
   * A table of at most `MaxCodeLength` lengths builds exactly when there are
   * enough symbols for its codes and it meets Kraft's inequality; otherwise the
   * build fails with `Short` or `CantBuild`.
   */
  lemma BuildPassesExactlyWhenRealisable(root: Node, codeLengths: seq<byte>, values: seq<byte>)
    requires Unmarked(root) && |codeLengths| <= MaxCodeLength
    ensures BuildSpec(root, codeLengths, values).outcome == Pass <==>
      Sum(codeLengths) <= |values| && KraftSum(codeLengths) <= Pow2(|codeLengths|)
  {
    match BuildSpec(root, codeLengths, values).outcome
    case Pass =>
      var w := BuildEndState(root, codeLengths, values);
      SumZero(w.codes);
      BuildFitsCodeSpace(root, codeLengths, values);
    case Fail(TooBig) =>
      BuildRejectsLongTables(root, codeLengths, values);
    case Fail(Short) =>
      BuildRunsShortOfSymbols(root, codeLengths, values);
    case Fail(CantBuild) =>
      BuildFailsAtRoot(root, codeLengths, values);
  }

  /** Building twice with the same tables leaves the same tree and outcome as
      building once: nothing of the first tree survives into the second. */
  lemma RebuildIsIdempotent(root: Node, codeLengths: seq<byte>, values: seq<byte>)
    requires Unmarked(root)
    ensures Unmarked(BuildSpec(root, codeLengths, values).state.nodes[0])
    ensures BuildSpec(BuildSpec(root, codeLengths, values).state.nodes[0], codeLengths, values)
         == BuildSpec(root, codeLengths, values)
  {
    var again := BuildSpec(root, codeLengths, values).state.nodes[0];
    assert Initial(again, codeLengths) == Initial(root, codeLengths);
  }
}
