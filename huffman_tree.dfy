/**
 * The decoder object: the tree and the cursor into it, with the two operations
 * of `HuffmanTree::Impl`.
 */
module Huffman {
  import opened Wrappers
  import opened Arena
  import opened Construction
  import opened StepProofs
  import opened Building
  import opened Decoding

  class HuffmanTree {
    /** The node arena; the root is `nodes[0]`. */
    var nodes: seq<Node>
    /** The cursor: the node the next bit starts from. */
    var current: nat

    ghost predicate Valid()
      reads this
    {
      Linked(nodes) && current < |nodes| && Unmarked(nodes[0])
    }

    /** An empty tree: a root alone, with the cursor on it. */
    constructor ()
      ensures Valid() && nodes == [NewNode(None)] && current == 0
    {
      nodes := [NewNode(None)];
      current := 0;
    }

    /**
     * Replaces the tree by the one the table describes: `codeLengths[j]` codes of
     * length `j + 1`, whose symbols are taken from `values` in order.  On failure
     * the tree and cursor stay as they were when the error was found.
     */
    method Build(codeLengths: seq<byte>, values: seq<byte>) returns (outcome: Outcome<BuildError>)
      requires Valid()
      modifies this
      ensures Valid()
      ensures var f := BuildSpec(old(nodes[0]), codeLengths, values);
        nodes == f.state.nodes && current == f.state.current && outcome == f.outcome
    {
      ghost var root := nodes[0];
      nodes := [Reset(nodes[0])];
      current := 0;
      if |codeLengths| > MaxCodeLength {
        return Fail(TooBig);
      }
      var codes := codeLengths;
      var i: nat, depth: nat, index: nat, order: int := 0, 0, 0, 1;
      ghost var start: nat := 1;
      ghost var w := Initial(root, codeLengths);
      ghost var f := BuildSpec(root, codeLengths, values);
      InitialInvariants(root, codeLengths, values);
      while i < |codes|
        invariant w == Walker(nodes, current, codes, i, depth, index, order)
        invariant Shape(w, start)
        invariant Leads(w, values, start, f)
        decreases Sum(w.codes), |w.codes| - w.i, MaxCodeLength - (|w.nodes| - start),
                  |w.nodes| - Stamped(w.nodes, w.order, |w.nodes|), MaxCodeLength - w.depth
      {
        var error;
        error, codes, i, depth, index, order := Iterate(codes, i, depth, index, order, values);
        if error.Some? {
          WalkStops(w, values, start, f);
          return Fail(error.value);
        }
        ghost var next := Step(w, values).value;
        WalkAdvances(w, values, start, f);
        StepKeepsShape(w, values, start);
        start := NextStart(w, next, start);
        w := next;
      }
      WalkEnds(w, values, start, f);
      return Pass;
    }

    /**
     * One pass of `Build`'s loop body over the bucket `codes[i]` (codes of length
     * `i + 1` still to place).  When the bucket is empty, move to the next one.  When
     * the cursor is at the bucket's depth, give it the next symbol, go back to the
     * root and start a new pass (error `Short` when the symbols have run out).
     * Otherwise enter the first child that is neither taken nor stamped in this
     * pass, creating it if it is missing (left before right); when neither child
     * can be entered, stamp the cursor and climb to its parent, or fail with
     * `CantBuild` at the root.
     */
    method Iterate(codes: seq<byte>, i: nat, depth: nat, index: nat, order: int, values: seq<byte>)
      returns (error: Option<BuildError>, codes': seq<byte>, i': nat, depth': nat, index': nat, order': int)
      requires i < |codes| && current < |nodes|
      requires Linked(nodes) && depth == Depth(nodes, current)
      modifies this
      ensures var w := Walker(old(nodes), old(current), codes, i, depth, index, order);
        match Step(w, values)
        case Failure(e) => error == Some(e) && nodes == old(nodes) && current == old(current)
        case Success(next) => error == None && next == Walker(nodes, current, codes', i', depth', index', order')
    {
      error, codes', i', depth', index', order' := None, codes, i, depth, index, order;
      if codes[i] == 0 {
        i' := i + 1;
        return;
      }
      if depth == i + 1 {
        if index >= |values| {
          error := Some(Short);
          return;
        }
        nodes := nodes[current := nodes[current].(value := values[index], used := true)];
        current := 0;
        depth' := 0;
        order' := order + 1;
        index' := index + 1;
        codes' := codes[i := codes[i] - 1];
        return;
      }
      assert ChildrenLinked(nodes, current);
      var node := nodes[current];
      depth' := depth + 1;
      if node.left.None? {
        var left := |nodes|;
        nodes := nodes[current := node.(left := Some(left))] + [NewNode(Some(current))];
        current := left;
      } else if !nodes[node.left.value].used && nodes[node.left.value].visited != order {
        current := node.left.value;
      } else if node.right.None? {
        var right := |nodes|;
        nodes := nodes[current := node.(right := Some(right))] + [NewNode(Some(current))];
        current := right;
      } else if !nodes[node.right.value].used && nodes[node.right.value].visited != order {
        current := node.right.value;
      } else if node.parent.Some? {
        DepthZeroIsRoot(nodes, current);
        nodes := nodes[current := node.(visited := order)];
        current := node.parent.value;
        depth' := depth - 1;
      } else {
        error := Some(CantBuild);
      }
    }

    /**
     * Feeds one bit to the decoder: `true` follows the right edge, `false` the left
     * one.  At an inner node the cursor moves there and `false` is returned with
     * `value` unchanged; at a childless node its symbol is written to `value`, the
     * cursor goes back to the root and `true` is returned.  A missing edge is an
     * error and leaves the cursor where it was.  The tree itself is never changed.
     */
    method Move(bit: bool, value: int) returns (r: Result<bool, MoveError>, value': int)
      requires Valid()
      modifies this`current
      ensures Valid()
      ensures match Advance(nodes, old(current), bit)
        case Stuck => r == Failure(CantMove) && current == old(current) && value' == value
        case Descend(next) => r == Success(false) && current == next && value' == value
        case Emit(symbol) => r == Success(true) && current == 0 && value' == symbol as int
    {
      value' := value;
      assert ChildrenLinked(nodes, current);
      if bit {
        if nodes[current].right.Some? {
          var right := nodes[current].right.value;
          if nodes[right].right.Some? || nodes[right].left.Some? {
            current := right;
          } else {
            value' := nodes[right].value as int;
            current := 0;
            return Success(true), value';
          }
        } else {
          return Failure(CantMove), value';
        }
      } else {
        if nodes[current].left.Some? {
          var left := nodes[current].left.value;
          if nodes[left].left.Some? || nodes[left].right.Some? {
            current := left;
          } else {
            value' := nodes[left].value as int;
            current := 0;
            return Success(true), value';
          }
        } else {
          return Failure(CantMove), value';
        }
      }
      return Success(false), value';
    }
  }
}
