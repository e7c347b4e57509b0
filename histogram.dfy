/**
 * Which length each symbol's code gets.  The leaves of a built tree, taken in
 * arena order, never get shallower, and the table says how many sit at each
 * depth; together these fix the depth of the `t`-th leaf: it is `d` exactly when
 * `t` falls among the `code_lengths[d - 1]` positions after the codes of the
 * shorter lengths.
 */
module Histogram {
  import opened Arena
  import opened Construction

  /** Depths of the symbol-holding nodes below index `n`, in arena order. */
  ghost function LeafDepths(nodes: seq<Node>, n: nat): seq<nat>
    requires n <= |nodes|
  {
    if n == 0 then []
    else LeafDepths(nodes, n - 1) + (if nodes[n - 1].used then [Depth(nodes, n - 1)] else [])
  }

  /** `LeafDepths` lists the depths of the nodes `LeafIndices` lists, position by position. */
  lemma {:induction false} LeafDepthsAt(nodes: seq<Node>, n: nat)
    requires n <= |nodes|
    ensures |LeafDepths(nodes, n)| == |LeafIndices(nodes, n)|
    ensures forall t :: 0 <= t < |LeafDepths(nodes, n)| ==>
      LeafDepths(nodes, n)[t] == Depth(nodes, LeafIndices(nodes, n)[t])
  {
    if n > 0 {
      LeafDepthsAt(nodes, n - 1);
    }
  }

  /** How many entries of `ds` equal `d`. */
  function Count(ds: seq<nat>, d: nat): nat {
    if ds == [] then 0 else Count(ds[..|ds| - 1], d) + (if ds[|ds| - 1] == d then 1 else 0)
  }

  /** How many entries of `ds` are less than `d`. */
  function Below(ds: seq<nat>, d: nat): nat {
    if ds == [] then 0 else Below(ds[..|ds| - 1], d) + (if ds[|ds| - 1] < d then 1 else 0)
  }

  predicate Sorted(ds: seq<nat>) {
    forall t, u :: 0 <= t < u < |ds| ==> ds[t] <= ds[u]
  }

  /** The count of nodes at depth `d` is the number of leaf depths equal to `d`. */
  lemma {:induction false} UsedAtDepthCounts(nodes: seq<Node>, n: nat, d: nat)
    requires n <= |nodes|
    ensures UsedAtDepth(nodes, n, d) == Count(LeafDepths(nodes, n), d)
  {
    if n > 0 {
      UsedAtDepthCounts(nodes, n - 1, d);
      var ds := LeafDepths(nodes, n - 1);
      if nodes[n - 1].used {
        assert (ds + [Depth(nodes, n - 1)])[..|ds|] == ds;
      } else {
        assert ds + [] == ds;
      }
    }
  }

  /** A value that occurs is counted. */
  lemma {:induction false} CountPositive(ds: seq<nat>, t: nat)
    requires t < |ds|
    ensures Count(ds, ds[t]) >= 1
  {
    if t < |ds| - 1 {
      CountPositive(ds[..|ds| - 1], t);
    }
  }

  /** In a sorted sequence the entries less than `d` are exactly the first `Below(ds, d)`. */
  lemma {:induction false} SortedBelow(ds: seq<nat>, d: nat)
    requires Sorted(ds)
    ensures Below(ds, d) <= |ds|
    ensures forall t :: 0 <= t < |ds| ==> (ds[t] < d <==> t < Below(ds, d))
  {
    if ds != [] {
      var p := ds[..|ds| - 1];
      SortedBelow(p, d);
      if ds[|ds| - 1] < d {
        forall t | 0 <= t < |p| ensures ds[t] < d {
          assert ds[t] <= ds[|ds| - 1];
        }
      }
    }
  }

  lemma {:induction false} BelowNext(ds: seq<nat>, d: nat)
    ensures Below(ds, d + 1) == Below(ds, d) + Count(ds, d)
  {
    if ds != [] {
      BelowNext(ds[..|ds| - 1], d);
    }
  }

  lemma {:induction false} BelowOne(ds: seq<nat>)
    requires forall t :: 0 <= t < |ds| ==> ds[t] >= 1
    ensures Below(ds, 1) == 0
  {
    if ds != [] {
      BelowOne(ds[..|ds| - 1]);
    }
  }

  lemma {:induction false} SumSnoc(s: seq<byte>, x: byte)
    ensures Sum(s + [x]) == Sum(s) + x as nat
  {
    if s != [] {
      assert (s + [x])[1..] == s[1..] + [x];
      SumSnoc(s[1..], x);
    }
  }

  /** Entries less than `d + 1` number the table's codes of lengths up to `d`. */
  lemma {:induction false} BelowIsPrefixSum(ds: seq<nat>, c: seq<byte>, d: nat)
    requires forall t :: 0 <= t < |ds| ==> ds[t] >= 1
    requires forall e :: 1 <= e <= |c| ==> Count(ds, e) == c[e - 1] as nat
    requires d <= |c|
    ensures Below(ds, d + 1) == Sum(c[..d])
  {
    BelowNext(ds, d);
    if d == 0 {
      BelowOne(ds);
    } else {
      BelowIsPrefixSum(ds, c, d - 1);
      assert c[..d] == c[..d - 1] + [c[d - 1]];
      SumSnoc(c[..d - 1], c[d - 1]);
    }
  }

  /**
   * Sorted depths, none below 1, with `c[d - 1]` of them equal to `d`: position `t`
   * holds `d` exactly when `Sum(c[..d - 1]) <= t < Sum(c[..d])`.
   */
  lemma PositionsFollowTable(ds: seq<nat>, c: seq<byte>)
    requires Sorted(ds)
    requires forall t :: 0 <= t < |ds| ==> ds[t] >= 1
    requires forall e :: 1 <= e <= |c| ==> Count(ds, e) == c[e - 1] as nat
    ensures forall t, d :: 0 <= t < |ds| && 1 <= d <= |c| ==>
      (ds[t] == d <==> Sum(c[..d - 1]) <= t < Sum(c[..d]))
  {
    forall t, d | 0 <= t < |ds| && 1 <= d <= |c|
      ensures ds[t] == d <==> Sum(c[..d - 1]) <= t < Sum(c[..d])
    {
      SortedBelow(ds, d);
      SortedBelow(ds, d + 1);
      BelowIsPrefixSum(ds, c, d - 1);
      BelowIsPrefixSum(ds, c, d);
    }
  }

  /**
   * Leaves whose depths never decrease in arena order, counted per depth by the
   * table `c` and never at depth 0 or below `|c|`: the `t`-th leaf is between 1
   * and `|c|` deep, and it is `d` deep exactly when `t` lies in
   * `[Sum(c[..d - 1]), Sum(c[..d]))`.
   */
  lemma LeafDepthsFollowTable(nodes: seq<Node>, c: seq<byte>)
    requires forall t, u :: 0 <= t < u < |LeafIndices(nodes, |nodes|)| ==>
      Depth(nodes, LeafIndices(nodes, |nodes|)[t]) <= Depth(nodes, LeafIndices(nodes, |nodes|)[u])
    requires forall d: nat :: 1 <= d <= |c| ==> UsedAtDepth(nodes, |nodes|, d) == c[d - 1] as nat
    requires forall d: nat :: d == 0 || d > |c| ==> UsedAtDepth(nodes, |nodes|, d) == 0
    ensures var leaves := LeafIndices(nodes, |nodes|);
      && (forall t :: 0 <= t < |leaves| ==> 1 <= Depth(nodes, leaves[t]) <= |c|)
      && (forall t, d :: 0 <= t < |leaves| && 1 <= d <= |c| ==>
            (Depth(nodes, leaves[t]) == d <==> Sum(c[..d - 1]) <= t < Sum(c[..d])))
  {
    var leaves := LeafIndices(nodes, |nodes|);
    var ds := LeafDepths(nodes, |nodes|);
    LeafDepthsAt(nodes, |nodes|);
    assert Sorted(ds);
    forall t | 0 <= t < |ds| ensures 1 <= ds[t] <= |c| {
      CountPositive(ds, t);
      UsedAtDepthCounts(nodes, |nodes|, ds[t]);
    }
    forall e | 1 <= e <= |c| ensures Count(ds, e) == c[e - 1] as nat {
      UsedAtDepthCounts(nodes, |nodes|, e);
    }
    PositionsFollowTable(ds, c);
  }
}
