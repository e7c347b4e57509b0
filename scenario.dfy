/**
 * A worked table: two codes of length two, for the symbols 10 and 20.  The
 * build gives the root a single left child whose two children hold 10 (code
 * `00`) and 20 (code `01`); the decoder then reads those codes back.
 */
module Scenario {
  import opened Wrappers
  import opened Arena
  import opened Construction
  import opened Building
  import opened Decoding
  import opened Huffman

  /** The tree the table `[0, 2]` with symbols `[10, 20]` builds under `root`. */
  function TwoLeafTree(root: Node): seq<Node> {
    [ Reset(root).(left := Some(1)),
      NewNode(Some(0)).(left := Some(2), right := Some(3)),
      NewNode(Some(1)).(value := 10, used := true),
      NewNode(Some(1)).(value := 20, used := true) ]
  }

  /** The states the construction loop passes through for this table, and the
      node count at the start of each state's pass. */
  function Trace(root: Node): seq<Walker> {
    var r, n1, n2 := Reset(root), NewNode(Some(0)), NewNode(Some(1));
    var leaf10 := n2.(value := 10, used := true);
    [ Walker([r], 0, [0, 2], 0, 0, 0, 1),
      Walker([r], 0, [0, 2], 1, 0, 0, 1),
      Walker([r.(left := Some(1)), n1], 1, [0, 2], 1, 1, 0, 1),
      Walker([r.(left := Some(1)), n1.(left := Some(2)), n2], 2, [0, 2], 1, 2, 0, 1),
      Walker([r.(left := Some(1)), n1.(left := Some(2)), leaf10], 0, [0, 1], 1, 0, 1, 2),
      Walker([r.(left := Some(1)), n1.(left := Some(2)), leaf10], 1, [0, 1], 1, 1, 1, 2),
      Walker([r.(left := Some(1)), n1.(left := Some(2), right := Some(3)), leaf10, n2], 3, [0, 1], 1, 2, 1, 2),
      Walker(TwoLeafTree(root), 0, [0, 0], 1, 0, 2, 3),
      Walker(TwoLeafTree(root), 0, [0, 0], 2, 0, 2, 3) ]
  }

  const Starts: seq<nat> := [1, 1, 1, 1, 3, 3, 3, 4, 4]

  /** Every state of the trace is a linked arena whose cursor depth is recorded. */
  lemma TraceLinked(root: Node, k: nat)
    requires k < 8
    ensures Trace(root)[k].i < |Trace(root)[k].codes| && Trace(root)[k].current < |Trace(root)[k].nodes|
    ensures Linked(Trace(root)[k].nodes) && Trace(root)[k].depth == Depth(Trace(root)[k].nodes, Trace(root)[k].current)
  {
    var w := Trace(root)[k];
    var a := w.nodes;
    forall j | 0 <= j < |a| ensures ChildrenLinked(a, j) { }
    forall j | 0 < j < |a| ensures ParentLinked(a, j) { }
    if 2 <= k {
      assert Depth(a, 1) == 1;
    }
  }

  /** Each state of the trace is one iteration away from the next. */
  lemma TraceSteps(root: Node, k: nat)
    requires k < 8
    ensures Trace(root)[k].i < |Trace(root)[k].codes| && Trace(root)[k].current < |Trace(root)[k].nodes|
    ensures Linked(Trace(root)[k].nodes) && Trace(root)[k].depth == Depth(Trace(root)[k].nodes, Trace(root)[k].current)
    ensures Step(Trace(root)[k], [10, 20]) == Success(Trace(root)[k + 1])
    ensures Starts[k + 1] == NextStart(Trace(root)[k], Trace(root)[k + 1], Starts[k])
  {
    TraceLinked(root, k);
    var w := Trace(root)[k];
    var a := w.nodes;
    var vs: seq<byte> := [10, 20];
    if k == 3 || k == 6 {
      var c := w.current;
      var placed := a[c := a[c].(value := vs[w.index], used := true)];
      assert placed == Trace(root)[k + 1].nodes;
      assert w.codes[1 := w.codes[1] - 1] == Trace(root)[k + 1].codes;
    } else if k == 1 || k == 2 {
      assert Grow(w, false).nodes == Trace(root)[k + 1].nodes;
    } else if k == 5 {
      assert !Open(a, 2, w.order);
      assert Grow(w, true).nodes == Trace(root)[6].nodes;
    } else if k == 4 {
      assert Open(a, 1, w.order);
    }
  }

  lemma TwoCodesOfLengthTwo(root: Node)
    requires Unmarked(root)
    ensures var f := BuildSpec(root, [0, 2], [10, 20]);
      f.outcome == Pass && f.state.nodes == TwoLeafTree(root) && f.state.current == 0
  {
    var vs: seq<byte> := [10, 20];
    var T := Trace(root);
    InitialInvariants(root, [0, 2], vs);
    assert T[0] == Initial(root, [0, 2]);
    ghost var f := Walk(T[0], vs, 1);
    for k := 0 to 8
      invariant Shape(T[k], Starts[k]) && Leads(T[k], vs, Starts[k], f)
    {
      TraceSteps(root, k);
      WalkAdvances(T[k], vs, Starts[k], f);
    }
    WalkEnds(T[8], vs, Starts[8], f);
  }

  /** In that tree `00` decodes to 10, `01` to 20, `0` stops halfway and `1` has no edge. */
  lemma TwoCodesDecode(root: Node)
    ensures var nodes := TwoLeafTree(root);
      && Linked(nodes)
      && Feed(nodes, 0, [false, false]) == Success(Decoded(0, [10]))
      && Feed(nodes, 0, [false, true]) == Success(Decoded(0, [20]))
      && Feed(nodes, 0, [false]) == Success(Decoded(1, []))
      && Feed(nodes, 0, [true]) == Failure(CantMove)
  {
    var nodes := TwoLeafTree(root);
    TraceLinked(root, 7);
    assert Advance(nodes, 0, false) == Descend(1);
    assert Advance(nodes, 1, false) == Emit(10);
    assert Advance(nodes, 1, true) == Emit(20);
    assert [false][1..] == [] && [true][1..] == [];
    assert Feed(nodes, 0, []) == Success(Decoded(0, []));
    assert [10 as byte] + [] == [10] && [20 as byte] + [] == [20];
    assert Feed(nodes, 1, [false]) == Success(Decoded(0, [10]));
    assert Feed(nodes, 1, [true]) == Success(Decoded(0, [20]));
  }

  /**
   * The decoder object driven through the same table: a fresh tree built from it
   * reads `00` as 10 and `01` as 20, and rejects a `1` at the root.
   */
  method DecodeTwoCodes() returns (first: int, second: int, stray: Result<bool, MoveError>)
    ensures first == 10 && second == 20 && stray == Failure(CantMove)
  {
    var tree := new HuffmanTree();
    var outcome := tree.Build([0, 2], [10, 20]);
    TwoCodesOfLengthTwo(NewNode(None));
    TwoCodesDecode(NewNode(None));
    var r;
    r, first := tree.Move(false, -1);
    r, first := tree.Move(false, first);
    r, second := tree.Move(false, -1);
    r, second := tree.Move(true, second);
    var ignored;
    stray, ignored := tree.Move(true, 0);
  }
}
