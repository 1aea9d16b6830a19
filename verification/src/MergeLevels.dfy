/** The depths of the inner nodes of a merge tree, level by level, and how long a code can get. */
module MergeLevels {
  import opened Bits
  import opened MergeTrace

  /** A finished tree: n leaves and n - 1 merges. */
  ghost predicate Finished(n: nat, used: seq<nat>) {
    Shape(n, used) && |used| == n
  }

  lemma {:induction false} UsedMonotone(n: nat, used: seq<nat>, j: nat, k: nat)
    requires Shape(n, used) && j <= k < |used|
    ensures used[j] <= used[k]
  {
    if j < k {
      UsedMonotone(n, used, j, k - 1);
      assert UsedOk(n, used, k);
    }
  }

  /** The inner nodes of depth d and more are those below Level(n, used, d). */
  function Level(n: nat, used: seq<nat>, d: nat): (x: nat)
    requires Shape(n, used) && |used| == n
    ensures x < n
  {
    if d == 0 then n - 1 else
      var x := Level(n, used, d - 1);
      assert UsedOk(n, used, x);
      used[x]
  }

  ghost predicate DepthsOk(n: nat, parents: seq<nat>, depths: seq<nat>) {
    && n >= 2 && |depths| == n - 1 && |parents| == n - 2 && depths[n - 2] == 0
    && forall r :: 0 <= r < n - 2 ==> parents[r] < n - 1 && depths[r] == depths[parents[r]] + 1
  }

  lemma {:induction false} DepthIsLevel(n: nat, used: seq<nat>, parents: seq<nat>, depths: seq<nat>, k: nat, d: nat)
    requires Finished(n, used) && ParentsOk(used, parents) && DepthsOk(n, parents, depths) && k < n - 1
    ensures depths[k] >= d <==> k < Level(n, used, d)
    decreases d
  {
    if d > 0 {
      var x := Level(n, used, d - 1);
      if k == n - 2 {
        UsedMonotone(n, used, x, n - 1);
        assert UsedOk(n, used, n - 1);
      } else {
        DepthIsLevel(n, used, parents, depths, parents[k], d - 1);
        if parents[k] < x {
          UsedMonotone(n, used, parents[k] + 1, x);
        } else {
          UsedMonotone(n, used, x, parents[k]);
        }
      }
    }
  }

  /** Below depth d there are n - 1 - d inner nodes at most. */
  lemma {:induction false} LevelShrinks(n: nat, used: seq<nat>, d: nat)
    requires Finished(n, used)
    ensures Level(n, used, d) > 0 ==> Level(n, used, d) + d <= n - 1
    ensures Level(n, used, d + 1) <= Level(n, used, d)
    ensures Level(n, used, d) > 0 ==> Level(n, used, d + 1) < Level(n, used, d)
  {
    if d > 0 {
      LevelShrinks(n, used, d - 1);
    }
    assert UsedOk(n, used, Level(n, used, d));
  }

  /** The leaves of depth d and more are those below LeafLevel(n, used, d): for d > 0, the children of deep inner nodes. */
  function LeafLevel(n: nat, used: seq<nat>, d: nat): int
    requires Shape(n, used) && |used| == n
  {
    if d == 0 then n else Leaves(used, Level(n, used, d - 1))
  }

  lemma {:induction false} LeavesMonotone(n: nat, used: seq<nat>, j: nat, k: nat)
    requires Shape(n, used) && j <= k < |used|
    ensures Leaves(used, j) <= Leaves(used, k)
  {
    if j < k {
      LeavesMonotone(n, used, j, k - 1);
      assert UsedOk(n, used, k);
    }
  }

  /** Going one level down: what is left at depth d + 1 is twice the inner nodes of depth d. */
  lemma LevelDown(n: nat, used: seq<nat>, d: nat)
    requires Finished(n, used)
    ensures 0 <= LeafLevel(n, used, d + 1) <= LeafLevel(n, used, d)
    ensures LeafLevel(n, used, d + 1) + Level(n, used, d + 1) == 2 * Level(n, used, d)
    ensures Level(n, used, d) <= LeafLevel(n, used, d)
    ensures Level(n, used, d) == LeafLevel(n, used, d) ==> LeafLevel(n, used, d) == 0
    ensures LeafLevel(n, used, d) > 0 ==> d < n
  {
    var x := Level(n, used, d);
    assert UsedOk(n, used, x) && UsedOk(n, used, n - 1);
    LevelShrinks(n, used, d);
    if d > 0 {
      LevelShrinks(n, used, d - 1);
      LeavesMonotone(n, used, x, Level(n, used, d - 1));
    }
  }

  // ---- a code length is at most 22 when the weights add up to less than 2^16 ----

  function Fib(n: nat): nat {
    if n < 2 then n else Fib(n - 1) + Fib(n - 2)
  }

  /** An inner node weighs as much as one of its children that is an inner node and a grandchild of that together. */
  lemma Grandparent(w: seq<nat>, used: seq<nat>, weights: seq<nat>, taken: seq<nat>, parents: seq<nat>, k: nat)
    requires Trace(w, used, weights, taken) && ParentsOk(used, parents)
    requires k < |parents| && parents[k] < |parents|
    ensures k < |weights| && parents[k] < |weights| && parents[parents[k]] < |weights|
    ensures weights[parents[parents[k]]] >= weights[parents[k]] + weights[k]
  {
    var p := parents[k];
    var q := parents[p];
    assert UsedOk(|w|, used, p + 1) && UsedOk(|w|, used, q + 1) && UsedOk(|w|, used, |used| - 1);
    ChildTaken(w, used, weights, taken, k, p);
    ChildTaken(w, used, weights, taken, p, q);
    assert InOrder(taken, 2 * p + 1, 2 * q) && InOrder(taken, 2 * p, 2 * p + 1) && InOrder(taken, 2 * q, 2 * q + 1);
    assert PairAt(w, used, weights, taken, q);
  }

  lemma ChildTaken(w: seq<nat>, used: seq<nat>, weights: seq<nat>, taken: seq<nat>, k: nat, p: nat)
    requires Trace(w, used, weights, taken) && p < |weights| && k < |weights| && used[p] <= k < used[p + 1]
    ensures k < p && (weights[k] == taken[2 * p] || weights[k] == taken[2 * p + 1])
  {
    assert PairAt(w, used, weights, taken, p);
    var inner := weights[used[p]..used[p + 1]];
    assert inner[k - used[p]] == weights[k];
    var outer := w[Leaves(used, p)..Leaves(used, p + 1)];
    assert weights[k] in multiset(inner);
    assert weights[k] in multiset(inner) + multiset(outer);
    assert weights[k] in multiset{taken[2 * p], taken[2 * p + 1]};
  }

  lemma {:induction false} Climb(w: seq<nat>, used: seq<nat>, weights: seq<nat>, taken: seq<nat>, parents: seq<nat>,
                                 depths: seq<nat>, k: nat, j: nat, c: nat)
    requires Trace(w, used, weights, taken) && |weights| == |w| - 1
    requires ParentsOk(used, parents) && DepthsOk(|w|, parents, depths)
    requires k < |parents| && parents[k] < |weights| && weights[k] >= c * Fib(j) && weights[parents[k]] >= c * Fib(j + 1)
    ensures weights[|w| - 2] >= c * Fib(j + depths[k])
    decreases |w| - k
  {
    var p := parents[k];
    assert UsedOk(|w|, used, p + 1) && UsedOk(|w|, used, p);
    if p < |parents| {
      Grandparent(w, used, weights, taken, parents, k);
      FibTimes(c, j);
      Climb(w, used, weights, taken, parents, depths, p, j + 1, c);
    }
  }

  lemma FibTimes(c: nat, j: nat)
    ensures c * Fib(j + 2) == c * Fib(j + 1) + c * Fib(j)
  {
    assert Fib(j + 2) == Fib(j + 1) + Fib(j);
  }

  lemma {:induction false} FibMonotone(i: nat, j: nat)
    requires i <= j
    ensures Fib(i) <= Fib(j)
  {
    if i < j {
      FibMonotone(i, j - 1);
    }
  }

  lemma LeafTaken(w: seq<nat>, used: seq<nat>, weights: seq<nat>, taken: seq<nat>, i: nat, p: nat)
    requires Trace(w, used, weights, taken) && p < |weights| && UsedOk(|w|, used, p) && UsedOk(|w|, used, p + 1)
    requires i < |w| && Leaves(used, p) <= i < Leaves(used, p + 1)
    ensures w[i] == taken[2 * p] || w[i] == taken[2 * p + 1]
  {
    assert PairAt(w, used, weights, taken, p);
    var inner := weights[used[p]..used[p + 1]];
    var outer := w[Leaves(used, p)..Leaves(used, p + 1)];
    assert outer[i - Leaves(used, p)] == w[i];
    assert w[i] in multiset(outer);
    assert w[i] in multiset(inner) + multiset(outer);
    assert w[i] in multiset{taken[2 * p], taken[2 * p + 1]};
  }

  /** The merge that takes leaf i. */
  lemma {:induction false} MergeOfLeaf(n: nat, used: seq<nat>, i: nat, x: nat) returns (p: nat)
    requires Shape(n, used) && x < |used| && i < Leaves(used, x)
    ensures p < x && Leaves(used, p) <= i < Leaves(used, p + 1)
  {
    assert UsedOk(n, used, 0) && x > 0;
    if Leaves(used, x - 1) <= i {
      p := x - 1;
    } else {
      p := MergeOfLeaf(n, used, i, x - 1);
    }
  }

  /** A leaf of depth d or more is light: the weights on the way to the root grow like the Fibonacci numbers. */
  lemma LeafBound(w: seq<nat>, used: seq<nat>, weights: seq<nat>, taken: seq<nat>, parents: seq<nat>, depths: seq<nat>,
                  i: nat, d: nat)
    requires Trace(w, used, weights, taken) && |weights| == |w| - 1 && |w| >= 2
    requires Finished(|w|, used) && ParentsOk(used, parents) && DepthsOk(|w|, parents, depths)
    requires d >= 1 && i < |w| && i < LeafLevel(|w|, used, d)
    ensures w[i] * Fib(d + 1) <= Sum(w)
  {
    hide Trace, ParentsOk, DepthsOk, Shape, UsedOk, PairAt, InOrder;
    MergeBounded(w, used, weights, taken);
    var p := DeepMergeOfLeaf(w, used, weights, taken, parents, depths, i, d);
    LeafClimb(w, used, weights, taken, parents, depths, i, p, d);
  }

  lemma DeepMergeOfLeaf(w: seq<nat>, used: seq<nat>, weights: seq<nat>, taken: seq<nat>, parents: seq<nat>,
                        depths: seq<nat>, i: nat, d: nat)
    returns (p: nat)
    requires Trace(w, used, weights, taken) && |weights| == |w| - 1 && |w| >= 2
    requires Finished(|w|, used) && ParentsOk(used, parents) && DepthsOk(|w|, parents, depths)
    requires d >= 1 && i < |w| && i < LeafLevel(|w|, used, d)
    ensures p < |w| - 1 && depths[p] >= d - 1 && |taken| > 2 * p + 1
    ensures weights[p] == taken[2 * p] + taken[2 * p + 1] && (w[i] == taken[2 * p] || w[i] == taken[2 * p + 1])
  {
    hide InOrder;
    p := MergeOfLeaf(|w|, used, i, Level(|w|, used, d - 1));
    assert UsedOk(|w|, used, p) && UsedOk(|w|, used, p + 1);
    DepthIsLevel(|w|, used, parents, depths, p, d - 1);
    LeafTaken(w, used, weights, taken, i, p);
    assert PairAt(w, used, weights, taken, p);
  }

  lemma LeafClimb(w: seq<nat>, used: seq<nat>, weights: seq<nat>, taken: seq<nat>, parents: seq<nat>, depths: seq<nat>,
                  i: nat, p: nat, d: nat)
    requires Trace(w, used, weights, taken) && |weights| == |w| - 1 && |w| >= 2
    requires ParentsOk(used, parents) && DepthsOk(|w|, parents, depths) && d >= 1 && i < |w| && p < |w| - 1
    requires depths[p] >= d - 1 && |taken| > 2 * p + 1
    requires weights[p] == taken[2 * p] + taken[2 * p + 1] && (w[i] == taken[2 * p] || w[i] == taken[2 * p + 1])
    ensures w[i] * Fib(d + 1) <= weights[|w| - 2]
  {
    hide Trace, ParentsOk, Shape, UsedOk, PairAt, InOrder;
    assert Fib(2) == 1 && Fib(3) == 2;
    if p == |w| - 2 {
      assert d == 1;
    } else {
      ParentHeavier(w, used, weights, taken, parents, i, p);
      Climb(w, used, weights, taken, parents, depths, p, 2, w[i]);
      FibMonotone(d + 1, 2 + depths[p]);
      MulMonotone(w[i], Fib(d + 1), Fib(2 + depths[p]));
    }
  }

  /** The merge after that of a leaf weighs at least twice as much as the leaf. */
  lemma ParentHeavier(w: seq<nat>, used: seq<nat>, weights: seq<nat>, taken: seq<nat>, parents: seq<nat>, i: nat, p: nat)
    requires Trace(w, used, weights, taken) && ParentsOk(used, parents) && p < |parents| && p < |weights|
    requires i < |w| && (w[i] == taken[2 * p] || w[i] == taken[2 * p + 1]) && weights[p] == taken[2 * p] + taken[2 * p + 1]
    ensures parents[p] < |weights| && weights[parents[p]] >= 2 * w[i] && weights[p] >= w[i]
  {
    var q := parents[p];
    assert UsedOk(|w|, used, q) && UsedOk(|w|, used, q + 1);
    ChildTaken(w, used, weights, taken, p, q);
    assert PairAt(w, used, weights, taken, q);
    assert InOrder(taken, 2 * p + 1, 2 * q) && InOrder(taken, 2 * p, 2 * p + 1) && InOrder(taken, 2 * q, 2 * q + 1);
  }

  lemma {:induction false} FibGrows(n: nat)
    requires n >= 25
    ensures Fib(n) >= 75025
  {
    if n == 25 {
      assert Fib(5) == 5 && Fib(6) == 8;
      assert Fib(9) == 34 && Fib(10) == 55;
      assert Fib(13) == 233 && Fib(14) == 377;
      assert Fib(17) == 1597 && Fib(18) == 2584;
      assert Fib(21) == 10946 && Fib(22) == 17711;
      assert Fib(23) == 28657 && Fib(24) == 46368;
    } else if n == 26 {
      FibGrows(25);
    } else {
      FibGrows(n - 1);
    }
  }

  /** The deepest inner node, node 0, is not deep. */
  lemma DepthBound(w: seq<nat>, used: seq<nat>, weights: seq<nat>, taken: seq<nat>, parents: seq<nat>, depths: seq<nat>)
    requires Trace(w, used, weights, taken) && |weights| == |w| - 1 && |w| >= 2
    requires ParentsOk(used, parents) && DepthsOk(|w|, parents, depths)
    requires (forall i :: 0 <= i < |w| ==> w[i] >= 1) && Sum(w) < 65536
    ensures depths[0] <= 21
  {
    MergeBounded(w, used, weights, taken);
    if |w| > 2 {
      FirstTwo(w, used, weights, taken, parents);
      assert Fib(3) == 2 && Fib(4) == 3;
      Climb(w, used, weights, taken, parents, depths, 0, 3, 1);
      if depths[0] >= 22 {
        FibGrows(3 + depths[0]);
      }
    }
  }

  lemma FirstTwo(w: seq<nat>, used: seq<nat>, weights: seq<nat>, taken: seq<nat>, parents: seq<nat>)
    requires Trace(w, used, weights, taken) && |weights| == |w| - 1 && ParentsOk(used, parents) && |parents| >= 1
    requires forall i :: 0 <= i < |w| ==> w[i] >= 1
    ensures parents[0] < |weights| && weights[0] >= 2 && weights[parents[0]] >= 3
  {
    var p := parents[0];
    TakenPositive(w, used, weights, taken);
    ChildTaken(w, used, weights, taken, 0, p);
    assert PairAt(w, used, weights, taken, p) && PairAt(w, used, weights, taken, 0);
    assert InOrder(taken, 0, 2 * p) && InOrder(taken, 0, 2 * p + 1);
  }

  lemma TakenPositive(w: seq<nat>, used: seq<nat>, weights: seq<nat>, taken: seq<nat>)
    requires Trace(w, used, weights, taken) && |weights| >= 1 && forall i :: 0 <= i < |w| ==> w[i] >= 1
    ensures taken[0] >= 1 && taken[1] >= 1
  {
    assert PairAt(w, used, weights, taken, 0) && UsedOk(|w|, used, 1) && UsedOk(|w|, used, 0);
    assert weights[0..0] == [] && w[0..2] == [w[0], w[1]];
    assert taken[0] in multiset{taken[0], taken[1]} && taken[1] in multiset{taken[0], taken[1]};
    assert taken[0] in multiset{w[0], w[1]} && taken[1] in multiset{w[0], w[1]};
  }
}
