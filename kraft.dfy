/**
 * The code space a tree takes up.  With codes at most `n` bits long, a node at
 * depth `d` covers the `2^(n - d)` strings of `n` bits that start with its code.
 * The leaves of any tree cover at most all `2^n` strings, and the leaves of a tree
 * in which every other node has two children cover exactly all of them: this is
 * Kraft's inequality, and it decides which tables of code lengths a binary tree
 * can realise.
 */
module Kraft {
  import opened Wrappers
  import opened Arena

  function Pow2(e: nat): (p: nat)
    ensures p >= 1
  {
    if e == 0 then 1 else 2 * Pow2(e - 1)
  }

  /** `f(0) + ... + f(m - 1)`. */
  ghost function SumOf(f: nat -> nat, m: nat): nat {
    if m == 0 then 0 else SumOf(f, m - 1) + f(m - 1)
  }

  lemma {:induction false} SumOfSame(f: nat -> nat, g: nat -> nat, m: nat)
    requires forall k :: 0 <= k < m ==> f(k) == g(k)
    ensures SumOf(f, m) == SumOf(g, m)
  {
    if m > 0 {
      SumOfSame(f, g, m - 1);
    }
  }

  lemma {:induction false} SumOfZero(f: nat -> nat, m: nat)
    requires forall k :: 0 <= k < m ==> f(k) == 0
    ensures SumOf(f, m) == 0
  {
    if m > 0 {
      SumOfZero(f, m - 1);
    }
  }

  lemma {:induction false} SumOfAdd(f: nat -> nat, g: nat -> nat, h: nat -> nat, m: nat)
    requires forall k :: 0 <= k < m ==> h(k) == f(k) + g(k)
    ensures SumOf(h, m) == SumOf(f, m) + SumOf(g, m)
  {
    if m > 0 {
      SumOfAdd(f, g, h, m - 1);
    }
  }

  lemma {:induction false} SumOfLe(f: nat -> nat, g: nat -> nat, m: nat)
    requires forall k :: 0 <= k < m ==> f(k) <= g(k)
    ensures SumOf(f, m) <= SumOf(g, m)
  {
    if m > 0 {
      SumOfLe(f, g, m - 1);
    }
  }

  /** Raising one term by `x` raises the sum by `x`. */
  lemma {:induction false} SumOfBump(f: nat -> nat, g: nat -> nat, q: nat, x: nat, m: nat)
    requires q < m
    requires forall k :: 0 <= k < m ==> f(k) == g(k) + (if k == q then x else 0)
    ensures SumOf(f, m) == SumOf(g, m) + x
  {
    if q < m - 1 {
      SumOfBump(f, g, q, x, m - 1);
    } else {
      SumOfSame(f, g, m - 1);
    }
  }

  lemma {:induction false} SumOfTerm(f: nat -> nat, q: nat, m: nat)
    requires q < m
    ensures f(q) <= SumOf(f, m)
  {
    if q < m - 1 {
      SumOfTerm(f, q, m - 1);
    }
  }

  // ---------------------------------------------------------------------------
  // Code space of the nodes of an arena

  /** The `n`-bit strings that start with node `k`'s code: `2^(n - depth)` of them. */
  ghost function Cap(nodes: seq<Node>, n: nat, k: nat): nat {
    if Depth(nodes, k) <= n then Pow2(n - Depth(nodes, k)) else 0
  }

  /** What child link `c` covers, counting only a child below index `m`. */
  ghost function LinkCap(nodes: seq<Node>, n: nat, c: Option<nat>, m: nat): nat {
    if c.Some? && c.value < m then Cap(nodes, n, c.value) else 0
  }

  /** What the children of each node cover, counting only children below index `m`. */
  ghost function ChildCaps(nodes: seq<Node>, n: nat, m: nat): nat -> nat {
    (p: nat) => if p < |nodes| then LinkCap(nodes, n, nodes[p].left, m) + LinkCap(nodes, n, nodes[p].right, m) else 0
  }

  /** What each node covers. */
  ghost function Caps(nodes: seq<Node>, n: nat): nat -> nat {
    (k: nat) => if k < |nodes| then Cap(nodes, n, k) else 0
  }

  /** What each node other than the root covers. */
  ghost function NonRootCaps(nodes: seq<Node>, n: nat): nat -> nat {
    (k: nat) => if 0 < k < |nodes| then Cap(nodes, n, k) else 0
  }

  /** What each node that holds a symbol covers. */
  ghost function UsedCaps(nodes: seq<Node>, n: nat): nat -> nat {
    (k: nat) => if k < |nodes| && nodes[k].used then Cap(nodes, n, k) else 0
  }

  /** What each node that holds no symbol covers. */
  ghost function UnusedCaps(nodes: seq<Node>, n: nat): nat -> nat {
    (k: nat) => if k < |nodes| && !nodes[k].used then Cap(nodes, n, k) else 0
  }

  /** Symbol-holding nodes below index `m`, at depth `j + 1`, weighted by `2^(n - 1 - j)`. */
  ghost function DepthWeights(nodes: seq<Node>, m: nat, n: nat): nat -> nat {
    (j: nat) => if j < n && m <= |nodes| then UsedAtDepth(nodes, m, j + 1) * Pow2(n - 1 - j) else 0
  }

  /** Codes of length `j + 1` in table `c`, weighted by `2^(|c| - 1 - j)`. */
  function TableWeights(c: seq<byte>): nat -> nat {
    (j: nat) => if j < |c| then c[j] as nat * Pow2(|c| - 1 - j) else 0
  }

  /**
   * Kraft sum of a table of code-length counts: the `|c|`-bit strings its codes
   * would cover, `c[j] * 2^(|c| - 1 - j)` summed over the lengths `j + 1`.  The table
   * fits in a binary tree exactly when this is at most `2^|c|`.
   */
  ghost function KraftSum(c: seq<byte>): nat {
    SumOf(TableWeights(c), |c|)
  }

  /** Every node of the tree other than the root holds a symbol or has two children,
      and a node with children is less than `n` deep. */
  ghost predicate Complete(nodes: seq<Node>, n: nat) {
    forall k :: 0 <= k < |nodes| ==>
      nodes[k].used || (nodes[k].left.Some? && nodes[k].right.Some? && Depth(nodes, k) < n)
  }

  /** Counting one more node `m` adds its cover to its parent's children, and nowhere else. */
  lemma ChildCapsStep(nodes: seq<Node>, n: nat, m: nat, p: nat)
    requires Linked(nodes) && m < |nodes| && p < |nodes|
    ensures ChildCaps(nodes, n, m + 1)(p) ==
            ChildCaps(nodes, n, m)(p) + (if 0 < m && nodes[m].parent == Some(p) then Cap(nodes, n, m) else 0)
  {
    assert ChildrenLinked(nodes, p);
    if 0 < m {
      assert ParentLinked(nodes, m);
    }
  }

  /** Every node but the root is counted once, as the child of its parent. */
  lemma {:induction false} ChildrenCoverNonRoot(nodes: seq<Node>, n: nat, m: nat)
    requires Linked(nodes) && m <= |nodes|
    ensures SumOf(NonRootCaps(nodes, n), m) == SumOf(ChildCaps(nodes, n, m), |nodes|)
  {
    var N := |nodes|;
    if m == 0 {
      SumOfZero(ChildCaps(nodes, n, 0), N);
    } else {
      var j := m - 1;
      ChildrenCoverNonRoot(nodes, n, j);
      forall p | 0 <= p < N
        ensures ChildCaps(nodes, n, m)(p) ==
                ChildCaps(nodes, n, j)(p) + (if 0 < j && nodes[j].parent == Some(p) then Cap(nodes, n, j) else 0)
      {
        ChildCapsStep(nodes, n, j, p);
      }
      if 0 < j {
        assert ParentLinked(nodes, j);
        SumOfBump(ChildCaps(nodes, n, m), ChildCaps(nodes, n, j), nodes[j].parent.value, Cap(nodes, n, j), N);
      } else {
        SumOfSame(ChildCaps(nodes, n, m), ChildCaps(nodes, n, j), N);
      }
    }
  }

  /** The children of a node cover at most what the node covers, and exactly that
      when it has two children and is less than `n` deep. */
  lemma ChildrenWithinParent(nodes: seq<Node>, n: nat, p: nat)
    requires Linked(nodes) && p < |nodes|
    ensures ChildCaps(nodes, n, |nodes|)(p) <= (if IsLeaf(nodes[p]) then 0 else Cap(nodes, n, p))
    ensures nodes[p].left.Some? && nodes[p].right.Some? && Depth(nodes, p) < n ==>
      ChildCaps(nodes, n, |nodes|)(p) == Cap(nodes, n, p)
  {
    assert ChildrenLinked(nodes, p);
    var d := Depth(nodes, p);
    if d < n {
      assert Pow2(n - d) == 2 * Pow2(n - (d + 1));
    }
  }

  /**
   * Kraft's inequality for a tree: the nodes holding symbols cover at most all
   * `2^n` strings, and exactly all of them when the tree is complete.
   */
  lemma {:induction false} UsedCapsFit(nodes: seq<Node>, n: nat)
    requires Linked(nodes) && !nodes[0].used
    requires forall k :: 0 <= k < |nodes| && nodes[k].used ==> IsLeaf(nodes[k])
    ensures SumOf(UsedCaps(nodes, n), |nodes|) <= Pow2(n)
    ensures Complete(nodes, n) ==> SumOf(UsedCaps(nodes, n), |nodes|) == Pow2(n)
  {
    var N := |nodes|;
    SumOfAdd(UsedCaps(nodes, n), UnusedCaps(nodes, n), Caps(nodes, n), N);
    assert Depth(nodes, 0) == 0;
    SumOfBump(Caps(nodes, n), NonRootCaps(nodes, n), 0, Pow2(n), N);
    ChildrenCoverNonRoot(nodes, n, N);
    forall p | 0 <= p < N ensures ChildCaps(nodes, n, N)(p) <= UnusedCaps(nodes, n)(p) {
      ChildrenWithinParent(nodes, n, p);
    }
    SumOfLe(ChildCaps(nodes, n, N), UnusedCaps(nodes, n), N);
    if Complete(nodes, n) {
      forall p | 0 <= p < N ensures ChildCaps(nodes, n, N)(p) == UnusedCaps(nodes, n)(p) {
        ChildrenWithinParent(nodes, n, p);
      }
      SumOfSame(ChildCaps(nodes, n, N), UnusedCaps(nodes, n), N);
    }
  }

  /** Counting one more node adds its weight at its own depth and nowhere else. */
  lemma DepthWeightsStep(nodes: seq<Node>, n: nat, j: nat, i: nat)
    requires j < |nodes| && i < n
    ensures DepthWeights(nodes, j + 1, n)(i) == DepthWeights(nodes, j, n)(i) +
      (if nodes[j].used && Depth(nodes, j) == i + 1 then Pow2(n - 1 - i) else 0)
  {
    var u, P := UsedAtDepth(nodes, j, i + 1), Pow2(n - 1 - i);
    if nodes[j].used && Depth(nodes, j) == i + 1 {
      assert UsedAtDepth(nodes, j + 1, i + 1) == u + 1;
      assert (u + 1) * P == u * P + P;
    } else {
      assert UsedAtDepth(nodes, j + 1, i + 1) == u;
    }
  }

  /** Counting one more node adds, summed over the depths, what that node covers. */
  lemma DepthWeightsGrow(nodes: seq<Node>, n: nat, j: nat)
    requires j < |nodes|
    requires nodes[j].used ==> 1 <= Depth(nodes, j) <= n
    ensures SumOf(DepthWeights(nodes, j + 1, n), n) == SumOf(DepthWeights(nodes, j, n), n) + UsedCaps(nodes, n)(j)
  {
    forall i | 0 <= i < n
      ensures DepthWeights(nodes, j + 1, n)(i) == DepthWeights(nodes, j, n)(i) +
        (if nodes[j].used && Depth(nodes, j) == i + 1 then Pow2(n - 1 - i) else 0)
    {
      DepthWeightsStep(nodes, n, j, i);
    }
    if nodes[j].used {
      var D := Depth(nodes, j);
      SumOfBump(DepthWeights(nodes, j + 1, n), DepthWeights(nodes, j, n), D - 1, Pow2(n - D), n);
    } else {
      SumOfSame(DepthWeights(nodes, j + 1, n), DepthWeights(nodes, j, n), n);
    }
  }

  /** Summing the symbol-holding nodes one by one or depth by depth gives the same total. */
  lemma {:induction false} UsedCapsByDepth(nodes: seq<Node>, n: nat, m: nat)
    requires m <= |nodes|
    requires forall k :: 0 <= k < |nodes| && nodes[k].used ==> 1 <= Depth(nodes, k) <= n
    ensures SumOf(UsedCaps(nodes, n), m) == SumOf(DepthWeights(nodes, m, n), n)
  {
    if m == 0 {
      SumOfZero(DepthWeights(nodes, 0, n), n);
    } else {
      UsedCapsByDepth(nodes, n, m - 1);
      DepthWeightsGrow(nodes, n, m - 1);
    }
  }

  /**
   * The codes placed in a tree, counted per length, meet Kraft's inequality:
   * weighted by `2^(n - d)`, the symbol-holding nodes at each depth `d` from 1 to
   * `n` sum to at most `2^n`, and to exactly `2^n` when the tree is complete.
   */
  lemma PlacedCodesFit(nodes: seq<Node>, n: nat)
    requires Linked(nodes) && !nodes[0].used
    requires forall k :: 0 <= k < |nodes| && nodes[k].used ==> IsLeaf(nodes[k]) && 1 <= Depth(nodes, k) <= n
    ensures SumOf(DepthWeights(nodes, |nodes|, n), n) <= Pow2(n)
    ensures Complete(nodes, n) ==> SumOf(DepthWeights(nodes, |nodes|, n), n) == Pow2(n)
  {
    UsedCapsFit(nodes, n);
    UsedCapsByDepth(nodes, n, |nodes|);
  }

  /** When the codes still to place are what the table asks for beyond the codes
      already placed, the table's Kraft sum splits the same way. */
  lemma KraftSplit(c: seq<byte>, codes: seq<byte>, nodes: seq<Node>)
    requires |codes| == |c|
    requires forall j :: 0 <= j < |c| ==> UsedAtDepth(nodes, |nodes|, j + 1) == c[j] as int - codes[j] as int
    ensures KraftSum(c) == SumOf(DepthWeights(nodes, |nodes|, |c|), |c|) + KraftSum(codes)
  {
    var n := |c|;
    forall j | 0 <= j < n
      ensures TableWeights(c)(j) == DepthWeights(nodes, |nodes|, n)(j) + TableWeights(codes)(j)
    {
      var P := Pow2(n - 1 - j);
      assert c[j] as nat == UsedAtDepth(nodes, |nodes|, j + 1) + codes[j] as nat;
      assert c[j] as nat * P == UsedAtDepth(nodes, |nodes|, j + 1) * P + codes[j] as nat * P;
    }
    SumOfAdd(DepthWeights(nodes, |nodes|, n), TableWeights(codes), TableWeights(c), n);
  }

  /** A table with a code still to place has a positive Kraft sum; an empty one has none. */
  lemma KraftPositive(codes: seq<byte>, i: nat)
    requires i < |codes| && codes[i] > 0
    ensures KraftSum(codes) >= 1
  {
    SumOfTerm(TableWeights(codes), i, |codes|);
    assert TableWeights(codes)(i) == codes[i] as nat * Pow2(|codes| - 1 - i);
  }

  lemma KraftZero(codes: seq<byte>)
    requires forall j :: 0 <= j < |codes| ==> codes[j] == 0
    ensures KraftSum(codes) == 0
  {
    SumOfZero(TableWeights(codes), |codes|);
  }
}
