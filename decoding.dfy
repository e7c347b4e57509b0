/**
 * Decoding one bit at a time: the automaton `HuffmanTree::Impl::Move` runs over
 * the tree, and what a whole bit string decodes to.
 */
module Decoding {
  import opened Wrappers
  import opened Arena

  /** A bit that follows an edge the tree does not have. */
  datatype MoveError = CantMove

  /** What one bit does to the cursor: move to an inner node, reach a leaf and
      yield its symbol (the cursor returns to the root), or find no edge. */
  datatype Transition = Descend(next: nat) | Emit(symbol: byte) | Stuck

  function Advance(nodes: seq<Node>, cur: nat, bit: bool): (t: Transition)
    requires Linked(nodes) && cur < |nodes|
    ensures t.Descend? ==> t.next < |nodes| && nodes[t.next].parent == Some(cur) && !IsLeaf(nodes[t.next])
  {
    match Child(nodes[cur], bit)
    case None => Stuck
    case Some(c) =>
      assert ChildrenLinked(nodes, cur);
      if IsLeaf(nodes[c]) then Emit(nodes[c].value) else Descend(c)
  }

  /** The cursor after a run of bits, and the symbols yielded on the way. */
  datatype Decoded = Decoded(cursor: nat, symbols: seq<byte>)

  /** Feeds `bits` one at a time to the automaton, starting at node `cur`. */
  ghost function Feed(nodes: seq<Node>, cur: nat, bits: seq<bool>): Result<Decoded, MoveError>
    requires Linked(nodes) && cur < |nodes|
    decreases |bits|
  {
    if bits == [] then Success(Decoded(cur, []))
    else
      match Advance(nodes, cur, bits[0])
      case Stuck => Failure(CantMove)
      case Descend(next) => Feed(nodes, next, bits[1..])
      case Emit(s) =>
        match Feed(nodes, 0, bits[1..])
        case Success(d) => Success(Decoded(d.cursor, [s] + d.symbols))
        case Failure(e) => Failure(e)
  }

  /** The code of node `k`: the bits that lead from the root down to it. */
  ghost function PathTo(nodes: seq<Node>, k: nat): seq<bool>
    decreases k
  {
    if k < |nodes| && nodes[k].parent.Some? && nodes[k].parent.value < k then
      var p := nodes[k].parent.value;
      PathTo(nodes, p) + [nodes[p].right == Some(k)]
    else []
  }

  /** A node's code is as long as the node is deep. */
  lemma {:induction false} PathLength(nodes: seq<Node>, k: nat)
    requires Linked(nodes) && k < |nodes|
    ensures |PathTo(nodes, k)| == Depth(nodes, k)
    decreases k
  {
    if k < |nodes| && nodes[k].parent.Some? && nodes[k].parent.value < k {
      PathLength(nodes, nodes[k].parent.value);
    }
  }

  /** The bit that selects child `c` of node `p` is the last bit of `c`'s code. */
  lemma ChildBit(nodes: seq<Node>, p: nat, c: nat, bit: bool)
    requires Linked(nodes) && p < |nodes| && Child(nodes[p], bit) == Some(c)
    ensures p < c < |nodes| && nodes[c].parent == Some(p)
    ensures PathTo(nodes, c) == PathTo(nodes, p) + [bit]
  {
    assert ChildrenLinked(nodes, p);
  }

  /** Reading the code of an inner node from the root leads to that node and yields
      nothing. */
  lemma {:induction false} FollowPath(nodes: seq<Node>, x: nat, rest: seq<bool>)
    requires Linked(nodes) && x < |nodes| && (x == 0 || !IsLeaf(nodes[x]))
    ensures Feed(nodes, 0, PathTo(nodes, x) + rest) == Feed(nodes, x, rest)
    decreases x
  {
    if x > 0 {
      assert ParentLinked(nodes, x);
      var p := nodes[x].parent.value;
      var b := nodes[p].right == Some(x);
      assert Child(nodes[p], b) == Some(x);
      ChildBit(nodes, p, x, b);
      assert PathTo(nodes, x) + rest == PathTo(nodes, p) + ([b] + rest);
      FollowPath(nodes, p, [b] + rest);
      assert ([b] + rest)[1..] == rest;
      assert Advance(nodes, p, b) == Descend(x);
    } else {
      assert PathTo(nodes, 0) + rest == rest;
    }
  }

  /** Every prefix of an inner node's code moves the cursor without yielding. */
  lemma {:induction false} PrefixYieldsNothing(nodes: seq<Node>, x: nat, j: nat)
    requires Linked(nodes) && x < |nodes| && (x == 0 || !IsLeaf(nodes[x]))
    requires j <= |PathTo(nodes, x)|
    ensures Feed(nodes, 0, PathTo(nodes, x)[..j]).Success?
    ensures Feed(nodes, 0, PathTo(nodes, x)[..j]).value.symbols == []
    decreases x
  {
    if j == |PathTo(nodes, x)| {
      FollowPath(nodes, x, []);
      assert PathTo(nodes, x)[..j] == PathTo(nodes, x) + [];
    } else {
      assert ParentLinked(nodes, x);
      var p := nodes[x].parent.value;
      assert PathTo(nodes, x)[..j] == PathTo(nodes, p)[..j];
      PrefixYieldsNothing(nodes, p, j);
    }
  }

  /**
   * Feeding the code of a leaf bit by bit from the root yields that leaf's symbol
   * on the last bit, and nothing before it, and leaves the cursor at the root.
   */
  lemma DecodeLeaf(nodes: seq<Node>, k: nat)
    requires Linked(nodes) && 0 < k < |nodes| && IsLeaf(nodes[k])
    ensures Feed(nodes, 0, PathTo(nodes, k)) == Success(Decoded(0, [nodes[k].value]))
    ensures forall j :: 0 <= j < |PathTo(nodes, k)| ==>
      Feed(nodes, 0, PathTo(nodes, k)[..j]).Success? && Feed(nodes, 0, PathTo(nodes, k)[..j]).value.symbols == []
  {
    assert ParentLinked(nodes, k);
    var p := nodes[k].parent.value;
    var b := nodes[p].right == Some(k);
    assert Child(nodes[p], b) == Some(k);
    ChildBit(nodes, p, k, b);
    FollowPath(nodes, p, [b]);
    assert PathTo(nodes, p) + [b] == PathTo(nodes, k);
    assert Feed(nodes, 0, []) == Success(Decoded(0, []));
    assert [b][1..] == [];
    assert [nodes[k].value] + [] == [nodes[k].value];
    forall j | 0 <= j < |PathTo(nodes, k)|
      ensures Feed(nodes, 0, PathTo(nodes, k)[..j]).Success?
      ensures Feed(nodes, 0, PathTo(nodes, k)[..j]).value.symbols == []
    {
      assert PathTo(nodes, k)[..j] == PathTo(nodes, p)[..j];
      PrefixYieldsNothing(nodes, p, j);
    }
  }

  /** Different nodes have different codes. */
  lemma {:induction false} PathInjective(nodes: seq<Node>, a: nat, b: nat)
    requires Linked(nodes) && a < |nodes| && b < |nodes|
    requires PathTo(nodes, a) == PathTo(nodes, b)
    ensures a == b
    decreases a + b
  {
    PathLength(nodes, a);
    PathLength(nodes, b);
    DepthZeroIsRoot(nodes, a);
    DepthZeroIsRoot(nodes, b);
    if a != 0 && b != 0 {
      assert ParentLinked(nodes, a);
      assert ParentLinked(nodes, b);
      var pa, pb := nodes[a].parent.value, nodes[b].parent.value;
      var ba, bb := nodes[pa].right == Some(a), nodes[pb].right == Some(b);
      var P := PathTo(nodes, a);
      assert P == PathTo(nodes, pa) + [ba] && P == PathTo(nodes, pb) + [bb];
      assert PathTo(nodes, pa) == P[..|P| - 1] == PathTo(nodes, pb);
      PathInjective(nodes, pa, pb);
      assert Child(nodes[pa], ba) == Some(a) && Child(nodes[pb], bb) == Some(b);
    }
  }

  /** Bits that yield nothing only move the cursor down, to ever later nodes. */
  lemma {:induction false} SilentFeedDescends(nodes: seq<Node>, y: nat, bits: seq<bool>)
    requires Linked(nodes) && y < |nodes|
    requires Feed(nodes, y, bits).Success? && Feed(nodes, y, bits).value.symbols == []
    ensures bits != [] ==> Feed(nodes, y, bits).value.cursor > y
    decreases |bits|
  {
    if bits != [] {
      match Advance(nodes, y, bits[0])
      case Descend(next) =>
        assert ParentLinked(nodes, next);
        SilentFeedDescends(nodes, next, bits[1..]);
      case Emit(_) =>
      case Stuck =>
    }
  }

  lemma {:induction false} FeedToLeaf(nodes: seq<Node>, x: nat, bits: seq<bool>, s: byte)
    requires Linked(nodes) && x < |nodes| && (x == 0 || !IsLeaf(nodes[x]))
    requires Feed(nodes, x, bits) == Success(Decoded(0, [s]))
    ensures exists k :: 0 < k < |nodes| && IsLeaf(nodes[k]) && nodes[k].value == s
                        && PathTo(nodes, k) == PathTo(nodes, x) + bits
    decreases |bits|
  {
    assert bits != [];
    var rest := bits[1..];
    assert bits == [bits[0]] + rest;
    match Advance(nodes, x, bits[0])
    case Descend(next) =>
      ChildBit(nodes, x, next, bits[0]);
      FeedToLeaf(nodes, next, rest, s);
      var k :| 0 < k < |nodes| && IsLeaf(nodes[k]) && nodes[k].value == s
               && PathTo(nodes, k) == PathTo(nodes, next) + rest;
      assert PathTo(nodes, k) == PathTo(nodes, x) + bits;
    case Emit(s') =>
      var d := Feed(nodes, 0, rest).value;
      assert [s'] + d.symbols == [s];
      assert s' == ([s'] + d.symbols)[0];
      var c := Child(nodes[x], bits[0]).value;
      assert ChildrenLinked(nodes, x);
      ChildBit(nodes, x, c, bits[0]);
      if rest != [] {
        SilentFeedDescends(nodes, 0, rest);
      }
      assert rest == [];
      assert PathTo(nodes, c) == PathTo(nodes, x) + bits;
      assert IsLeaf(nodes[c]) && nodes[c].value == s;
    case Stuck =>
  }

  /**
   * Conversely, a bit string that yields exactly one symbol and returns the
   * cursor to the root is the code of a leaf holding that symbol.
   */
  lemma DecodedIsLeafCode(nodes: seq<Node>, bits: seq<bool>, s: byte)
    requires Linked(nodes) && Feed(nodes, 0, bits) == Success(Decoded(0, [s]))
    ensures exists k :: 0 < k < |nodes| && IsLeaf(nodes[k]) && nodes[k].value == s && PathTo(nodes, k) == bits
  {
    FeedToLeaf(nodes, 0, bits, s);
    assert PathTo(nodes, 0) == [];
  }
}
