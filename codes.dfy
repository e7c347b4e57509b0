/**
 * What a successfully built tree means to the decoder: the `t`-th symbol of the
 * table has a code whose length is one the table asked for, feeding that code
 * from the root yields exactly that symbol, no code is a prefix of another, and
 * no other bit string yields a single symbol and returns to the root.
 */
module Codes {
  import opened Wrappers
  import opened Arena
  import opened Construction
  import opened Building
  import opened Decoding

  /** `p` is a prefix of `q`. */
  predicate IsPrefix(p: seq<bool>, q: seq<bool>) {
    |p| <= |q| && q[..|p|] == p
  }

  /** The leaves of a built tree are exactly its childless nodes other than the root. */
  lemma LeafOfBuiltTree(root: Node, codeLengths: seq<byte>, values: seq<byte>, k: nat)
    requires Unmarked(root) && BuildSpec(root, codeLengths, values).outcome == Pass
    ensures var nodes := BuildSpec(root, codeLengths, values).state.nodes;
      k < |nodes| ==> (nodes[k].used <==> 0 < k && IsLeaf(nodes[k]))
  {
    BuildPlacesEveryCode(root, codeLengths, values);
  }

  /**
   * After a successful build, the code of the `t`-th placed symbol has a length
   * between 1 and the number of lengths in the table: it is d bits long exactly
   * when the table's codes shorter than d number at most `t` and those up to
   * length d more than `t`.  Feeding that code to the decoder from the root
   * yields `values[t]` on its last bit, nothing on any earlier bit, and leaves the
   * cursor on the root.
   */
  lemma EveryCodeDecodes(root: Node, codeLengths: seq<byte>, values: seq<byte>)
    requires Unmarked(root) && BuildSpec(root, codeLengths, values).outcome == Pass
    ensures var nodes := BuildSpec(root, codeLengths, values).state.nodes;
      var leaves := LeafIndices(nodes, |nodes|);
      && Linked(nodes)
      && |leaves| == Sum(codeLengths) <= |values|
      && forall t :: 0 <= t < |leaves| ==>
           && 1 <= |PathTo(nodes, leaves[t])| <= |codeLengths|
           && Feed(nodes, 0, PathTo(nodes, leaves[t])) == Success(Decoded(0, [values[t]]))
           && forall j :: 0 <= j < |PathTo(nodes, leaves[t])| ==>
                Feed(nodes, 0, PathTo(nodes, leaves[t])[..j]).Success? &&
                Feed(nodes, 0, PathTo(nodes, leaves[t])[..j]).value.symbols == []
    ensures var nodes := BuildSpec(root, codeLengths, values).state.nodes;
      var leaves := LeafIndices(nodes, |nodes|);
      forall t, d :: 0 <= t < |leaves| && 1 <= d <= |codeLengths| ==>
        (|PathTo(nodes, leaves[t])| == d <==> Sum(codeLengths[..d - 1]) <= t < Sum(codeLengths[..d]))
  {
    var nodes := BuildSpec(root, codeLengths, values).state.nodes;
    var leaves := LeafIndices(nodes, |nodes|);
    BuildPlacesEveryCode(root, codeLengths, values);
    BuildOrdersCodes(root, codeLengths, values);
    forall t | 0 <= t < |leaves|
      ensures |PathTo(nodes, leaves[t])| == Depth(nodes, leaves[t])
      ensures Feed(nodes, 0, PathTo(nodes, leaves[t])) == Success(Decoded(0, [values[t]]))
      ensures forall j :: 0 <= j < |PathTo(nodes, leaves[t])| ==>
                Feed(nodes, 0, PathTo(nodes, leaves[t])[..j]).Success? &&
                Feed(nodes, 0, PathTo(nodes, leaves[t])[..j]).value.symbols == []
    {
      var k := leaves[t];
      LeafOfBuiltTree(root, codeLengths, values, k);
      DecodeLeaf(nodes, k);
      PathLength(nodes, k);
      DepthZeroIsRoot(nodes, k);
    }
  }

  /** After a successful build, the codes of different symbols differ and none is a prefix of another. */
  lemma CodesArePrefixFree(root: Node, codeLengths: seq<byte>, values: seq<byte>)
    requires Unmarked(root) && BuildSpec(root, codeLengths, values).outcome == Pass
    ensures var nodes := BuildSpec(root, codeLengths, values).state.nodes;
      var leaves := LeafIndices(nodes, |nodes|);
      forall t, u :: 0 <= t < |leaves| && 0 <= u < |leaves| && t != u ==>
        !IsPrefix(PathTo(nodes, leaves[t]), PathTo(nodes, leaves[u]))
  {
    var nodes := BuildSpec(root, codeLengths, values).state.nodes;
    var leaves := LeafIndices(nodes, |nodes|);
    EveryCodeDecodes(root, codeLengths, values);
    forall t, u | 0 <= t < |leaves| && 0 <= u < |leaves| && t != u
      ensures !IsPrefix(PathTo(nodes, leaves[t]), PathTo(nodes, leaves[u]))
    {
      var p, q := PathTo(nodes, leaves[t]), PathTo(nodes, leaves[u]);
      if IsPrefix(p, q) {
        if |p| == |q| {
          assert p == q;
          PathInjective(nodes, leaves[t], leaves[u]);
          assert false;
        } else {
          assert false;
        }
      }
    }
  }

  /**
   * Conversely, after a successful build, bits that yield exactly one symbol and
   * bring the cursor back to the root are the code of some placed symbol, and
   * the symbol yielded is that one.
   */
  lemma OnlyCodesDecode(root: Node, codeLengths: seq<byte>, values: seq<byte>, bits: seq<bool>, s: byte)
    requires Unmarked(root) && BuildSpec(root, codeLengths, values).outcome == Pass
    requires var nodes := BuildSpec(root, codeLengths, values).state.nodes;
      Linked(nodes) && Feed(nodes, 0, bits) == Success(Decoded(0, [s]))
    ensures var nodes := BuildSpec(root, codeLengths, values).state.nodes;
      var leaves := LeafIndices(nodes, |nodes|);
      && |leaves| <= |values|
      && exists t :: 0 <= t < |leaves| && PathTo(nodes, leaves[t]) == bits && values[t] == s
  {
    var nodes := BuildSpec(root, codeLengths, values).state.nodes;
    var leaves := LeafIndices(nodes, |nodes|);
    BuildPlacesEveryCode(root, codeLengths, values);
    DecodedIsLeafCode(nodes, bits, s);
    var k :| 0 < k < |nodes| && IsLeaf(nodes[k]) && nodes[k].value == s && PathTo(nodes, k) == bits;
    LeafOfBuiltTree(root, codeLengths, values, k);
    var t :| 0 <= t < |leaves| && leaves[t] == k;
  }
}
