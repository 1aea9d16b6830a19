/**
  What the in-place minimum redundancy algorithm does, as a history. Leaves come sorted by weight, inner nodes are made in
  order of weight; every merge takes twice the lighter of the first unused leaf and the first unused inner node.
  used[k] is the number of inner nodes among the children of the first k merges, so 2k - used[k] is the number of leaves;
  weights[k] is the weight of inner node k; taken[2k] and taken[2k + 1] are the weights merge k takes.
 */
module MergeTrace {
  import opened Kraft

  function Sum(s: seq<nat>): nat {
    if s == [] then 0 else Sum(s[..|s| - 1]) + s[|s| - 1]
  }

  predicate InOrder(s: seq<nat>, i: int, j: int) {
    0 <= i <= j < |s| ==> s[i] <= s[j]
  }

  ghost predicate Ascending(s: seq<nat>) {
    forall i, j :: InOrder(s, i, j)
  }

  predicate UsedOk(n: nat, used: seq<nat>, k: nat)
    requires k < |used|
  {
    && used[k] <= 2 * k <= n + used[k]
    && (k == 0 ==> used[k] == 0)
    && (k > 0 ==> used[k] < k && used[k - 1] <= used[k] <= used[k - 1] + 2)
  }

  /** The tree: every merge has two children, made before it. */
  predicate Shape(n: nat, used: seq<nat>) {
    |used| >= 2 && forall k: nat :: k < |used| ==> UsedOk(n, used, k)
  }

  function Leaves(used: seq<nat>, k: nat): int
    requires k < |used|
  {
    2 * k - used[k]
  }

  /** parents[r] is the merge that takes inner node r. */
  predicate ParentsOk(used: seq<nat>, parents: seq<nat>) {
    && used != [] && |parents| == used[|used| - 1]
    && forall r :: 0 <= r < |parents| ==> parents[r] + 1 < |used| && used[parents[r]] <= r < used[parents[r] + 1]
  }

  /** One choice: the first unused inner node or the first unused leaf, whichever is lighter. */
  predicate Takes(w: seq<nat>, weights: seq<nat>, root: nat, leaf: nat, x: nat, root': nat, leaf': nat) {
    || (root < |weights| && root' == root + 1 && leaf' == leaf && x == weights[root] && (leaf < |w| ==> x <= w[leaf]))
    || (leaf < |w| && root' == root && leaf' == leaf + 1 && x == w[leaf] && (root < |weights| ==> x <= weights[root]))
  }

  ghost predicate PairOk(w: seq<nat>, used: seq<nat>, weights: seq<nat>, taken: seq<nat>, k: nat)
    requires k < |weights| && |used| == |weights| + 1 && |taken| == 2 * |weights|
    requires UsedOk(|w|, used, k) && UsedOk(|w|, used, k + 1)
  {
    && weights[k] == taken[2 * k] + taken[2 * k + 1]
    && multiset(weights[used[k]..used[k + 1]]) + multiset(w[Leaves(used, k)..Leaves(used, k + 1)])
         == multiset{taken[2 * k], taken[2 * k + 1]}
    && taken[2 * k + 1] <= weights[used[k + 1]]
    && (Leaves(used, k + 1) < |w| ==> taken[2 * k + 1] <= w[Leaves(used, k + 1)])
  }

  ghost predicate PairAt(w: seq<nat>, used: seq<nat>, weights: seq<nat>, taken: seq<nat>, k: nat)
    requires k < |weights| && |used| == |weights| + 1 && |taken| == 2 * |weights|
  {
    UsedOk(|w|, used, k) && UsedOk(|w|, used, k + 1) && PairOk(w, used, weights, taken, k)
  }

  ghost predicate Trace(w: seq<nat>, used: seq<nat>, weights: seq<nat>, taken: seq<nat>) {
    && Shape(|w|, used) && |used| == |weights| + 1 && |taken| == 2 * |weights|
    && Ascending(w) && Ascending(weights) && Ascending(taken)
    && (forall k: nat :: k < |weights| ==> PairAt(w, used, weights, taken, k))
  }

  // ---- building the history ----

  lemma ShapeExtends(n: nat, used: seq<nat>, root: nat, leaf: nat)
    requires Shape(n, used)
    requires used[|used| - 1] <= root < |used| && root <= used[|used| - 1] + 2 && leaf <= n && root + leaf == 2 * |used|
    ensures Shape(n, used + [root])
  {
    var used' := used + [root];
    forall k: nat | k < |used'| ensures UsedOk(n, used', k) {
      if k < |used| {
        assert UsedOk(n, used, k);
      }
    }
  }

  lemma ParentsExtend(used: seq<nat>, parents: seq<nat>, root: nat, parents': seq<nat>)
    requires ParentsOk(used, parents)
    requires root >= used[|used| - 1] && |parents'| == root && parents <= parents'
    requires forall r :: |parents| <= r < root ==> parents'[r] == |used| - 1
    ensures ParentsOk(used + [root], parents')
  {
  }

  /** The first merge takes the two lightest leaves. */
  lemma FirstMerge(w: seq<nat>)
    requires |w| >= 2 && Ascending(w)
    ensures Trace(w, [0, 0], [w[0] + w[1]], [w[0], w[1]])
  {
    var used := [0, 0];
    forall k: nat | k < 2 ensures UsedOk(|w|, used, k) {
    }
    assert InOrder(w, 0, 1) && InOrder(w, 1, 2);
    TakenMultiset([w[0] + w[1]], 0, 0, w, 0, 2, w[0], w[1]);
    assert PairAt(w, used, [w[0] + w[1]], [w[0], w[1]], 0);
  }

  lemma AscendingAppend(s: seq<nat>, x: nat)
    requires Ascending(s) && (s != [] ==> s[|s| - 1] <= x)
    ensures Ascending(s + [x])
  {
    var t := s + [x];
    forall i, j ensures InOrder(t, i, j) {
      assert InOrder(s, i, j) && InOrder(s, i, |s| - 1);
    }
  }

  lemma PairTaken(w: seq<nat>, weights: seq<nat>, root: nat, leaf: nat, x: nat, y: nat, root1: nat, leaf1: nat,
                  root': nat, leaf': nat)
    requires root <= |weights| && leaf <= |w|
    requires Takes(w, weights, root, leaf, x, root1, leaf1) && Takes(w, weights, root1, leaf1, y, root', leaf')
    requires Ascending(w) && Ascending(weights)
    ensures root <= root' <= |weights| && leaf <= leaf' <= |w| && root' + leaf' == root + leaf + 2
    ensures multiset(weights[root..root']) + multiset(w[leaf..leaf']) == multiset{x, y}
    ensures x <= y && (root' < |weights| ==> y <= weights[root']) && (leaf' < |w| ==> y <= w[leaf'])
  {
    assert InOrder(w, leaf, leaf + 1) && InOrder(w, leaf + 1, leaf + 2);
    assert InOrder(weights, root, root + 1) && InOrder(weights, root + 1, root + 2);
    TakenMultiset(weights, root, root', w, leaf, leaf', x, y);
  }

  lemma TakenMultiset(weights: seq<nat>, root: nat, root': nat, w: seq<nat>, leaf: nat, leaf': nat, x: nat, y: nat)
    requires root <= root' <= |weights| && leaf <= leaf' <= |w| && root' + leaf' == root + leaf + 2
    requires root' == root + 2 ==> weights[root] == x && weights[root + 1] == y
    requires leaf' == leaf + 2 ==> w[leaf] == x && w[leaf + 1] == y
    requires root' == root + 1 ==> (weights[root] == x && w[leaf] == y) || (weights[root] == y && w[leaf] == x)
    ensures multiset(weights[root..root']) + multiset(w[leaf..leaf']) == multiset{x, y}
  {
    var inner, outer := weights[root..root'], w[leaf..leaf'];
    if root' == root + 2 {
      assert inner == [x, y] && outer == [];
    } else if root' == root + 1 {
      assert inner == [weights[root]] && outer == [w[leaf]];
    } else {
      assert inner == [] && outer == [x, y];
    }
    PairMultiset(inner, outer, x, y);
  }

  lemma PairMultiset(inner: seq<nat>, outer: seq<nat>, x: nat, y: nat)
    requires inner + outer == [x, y] || inner + outer == [y, x]
    ensures multiset(inner) + multiset(outer) == multiset{x, y}
  {
    assert multiset(inner) + multiset(outer) == multiset(inner + outer);
  }

  lemma NextMerge(w: seq<nat>, used: seq<nat>, weights: seq<nat>, taken: seq<nat>, x: nat, y: nat, root1: nat, leaf1: nat,
                  root: nat, leaf: nat)
    requires Trace(w, used, weights, taken)
    requires UsedOk(|w|, used, |weights|)
    requires Takes(w, weights, used[|weights|], Leaves(used, |weights|), x, root1, leaf1)
    requires Takes(w, weights, root1, leaf1, y, root, leaf)
    ensures Trace(w, used + [root], weights + [x + y], taken + [x, y])
  {
    hide Ascending, PairAt, Takes;
    var m := |weights|;
    PairTaken(w, weights, used[m], Leaves(used, m), x, y, root1, leaf1, root, leaf);
    ShapeExtends(|w|, used, root, leaf);
    TakenGrows(w, used, weights, taken, x, y, root1, leaf1);
    AscendingAppend(taken, x);
    AscendingAppend(taken + [x], y);
    assert taken + [x] + [y] == taken + [x, y];
    AscendingAppend(weights, x + y);
    assert UsedOk(|w|, used + [root], m) && UsedOk(|w|, used + [root], m + 1);
    LastPair(w, used, weights, taken, x, y, root, leaf, used + [root], weights + [x + y], taken + [x, y]);
    PairsGrow(w, used, weights, taken, x, y, root, leaf, used + [root], weights + [x + y], taken + [x, y]);
  }

  lemma TakenGrows(w: seq<nat>, used: seq<nat>, weights: seq<nat>, taken: seq<nat>, x: nat, y: nat, root1: nat, leaf1: nat)
    requires Trace(w, used, weights, taken) && x <= y
    requires UsedOk(|w|, used, |weights|)
    requires Takes(w, weights, used[|weights|], Leaves(used, |weights|), x, root1, leaf1)
    ensures taken != [] && taken[|taken| - 1] <= x && weights[|weights| - 1] <= x + y
  {
    var m := |weights|;
    assert PairAt(w, used, weights, taken, m - 1);
    assert InOrder(taken, 2 * m - 2, 2 * m - 1);
  }

  lemma PairsGrow(w: seq<nat>, used: seq<nat>, weights: seq<nat>, taken: seq<nat>, x: nat, y: nat, root: nat, leaf: nat,
                  used': seq<nat>, weights': seq<nat>, taken': seq<nat>)
    requires |used| == |weights| + 1 && |taken| == 2 * |weights|
    requires forall k: nat :: k < |weights| ==> PairAt(w, used, weights, taken, k)
    requires used' == used + [root] && weights' == weights + [x + y] && taken' == taken + [x, y]
    requires PairAt(w, used', weights', taken', |weights|)
    ensures forall k: nat :: k < |weights'| ==> PairAt(w, used', weights', taken', k)
  {
    forall k: nat | k < |weights'| ensures PairAt(w, used', weights', taken', k) {
      if k < |weights| {
        PairKept(w, used, weights, taken, k, root, x, y);
      }
    }
  }

  lemma LastPair(w: seq<nat>, used: seq<nat>, weights: seq<nat>, taken: seq<nat>, x: nat, y: nat, root: nat, leaf: nat,
                 used': seq<nat>, weights': seq<nat>, taken': seq<nat>)
    requires |used| == |weights| + 1 && |taken| == 2 * |weights|
    requires used' == used + [root] && weights' == weights + [x + y] && taken' == taken + [x, y]
    requires UsedOk(|w|, used', |weights|) && UsedOk(|w|, used', |weights| + 1)
    requires root + leaf == 2 * |weights| + 2 && root <= |weights|
    requires used[|weights|] <= root && Leaves(used, |weights|) <= leaf <= |w|
    requires multiset(weights[used[|weights|]..root]) + multiset(w[Leaves(used, |weights|)..leaf]) == multiset{x, y}
    requires x <= y && (root < |weights| ==> y <= weights[root]) && (leaf < |w| ==> y <= w[leaf])
    ensures PairAt(w, used', weights', taken', |weights|)
  {
    var m := |weights|;
    NewPair(w, weights, used[m], root, Leaves(used, m), leaf, x, y);
    assert weights'[m] == x + y && taken'[2 * m] == x && taken'[2 * m + 1] == y;
    assert used'[m] == used[m] && used'[m + 1] == root;
    assert Leaves(used', m) == Leaves(used, m) && Leaves(used', m + 1) == leaf;
  }

  lemma NewPair(w: seq<nat>, weights: seq<nat>, u: nat, root: nat, l: nat, leaf: nat, x: nat, y: nat)
    requires u <= root <= |weights| && l <= leaf <= |w|
    requires multiset(weights[u..root]) + multiset(w[l..leaf]) == multiset{x, y}
    requires root < |weights| ==> y <= weights[root]
    ensures multiset((weights + [x + y])[u..root]) + multiset(w[l..leaf]) == multiset{x, y}
    ensures y <= (weights + [x + y])[root]
  {
    assert (weights + [x + y])[u..root] == weights[u..root];
  }

  lemma PairKept(w: seq<nat>, used: seq<nat>, weights: seq<nat>, taken: seq<nat>, k: nat, root: nat, x: nat, y: nat)
    requires k < |weights| && |used| == |weights| + 1 && |taken| == 2 * |weights|
    requires PairAt(w, used, weights, taken, k)
    ensures PairAt(w, used + [root], weights + [x + y], taken + [x, y], k)
  {
    var weights' := weights + [x + y];
    assert weights'[used[k]..used[k + 1]] == weights[used[k]..used[k + 1]];
  }

  // ---- sums ----

  lemma {:induction false} SumConcat(a: seq<nat>, b: seq<nat>)
    ensures Sum(a + b) == Sum(a) + Sum(b)
  {
    if b == [] {
      assert a + b == a;
    } else {
      var n := |b| - 1;
      assert (a + b)[..|a + b| - 1] == a + b[..n];
      SumConcat(a, b[..n]);
    }
  }

  lemma SumPair(s: seq<nat>, x: nat, y: nat)
    requires multiset(s) == multiset{x, y}
    ensures Sum(s) == x + y
  {
    assert |s| == |multiset(s)| == 2;
    assert s == [s[0], s[1]];
    assert multiset(s) == multiset{s[0], s[1]};
    assert s[0] in multiset(s);
    assert Sum(s) == Sum(s[..1]) + s[1] == s[0] + s[1];
    if s[0] == x {
      assert multiset{x, y} - multiset{x} == multiset{y};
    } else {
      assert multiset{x, y} - multiset{y} == multiset{x};
    }
  }

  /** The children of the first k merges: their weights add up to those of the merged nodes. */
  lemma {:induction false} ChildrenSum(w: seq<nat>, used: seq<nat>, weights: seq<nat>, taken: seq<nat>, k: nat)
    requires Trace(w, used, weights, taken) && k <= |weights| && UsedOk(|w|, used, k)
    ensures Sum(weights[..k]) == Sum(weights[..used[k]]) + Sum(w[..Leaves(used, k)])
  {
    if k > 0 {
      assert PairAt(w, used, weights, taken, k - 1);
      ChildrenSum(w, used, weights, taken, k - 1);
      assert weights[..k] == weights[..k - 1] + [weights[k - 1]];
      StepSum(weights, used[k - 1], used[k], w, Leaves(used, k - 1), Leaves(used, k), taken[2 * k - 2], taken[2 * k - 1]);
    }
  }

  lemma StepSum(weights: seq<nat>, u: nat, u': nat, w: seq<nat>, l: nat, l': nat, x: nat, y: nat)
    requires u <= u' <= |weights| && l <= l' <= |w|
    requires multiset(weights[u..u']) + multiset(w[l..l']) == multiset{x, y}
    ensures Sum(weights[..u']) + Sum(w[..l']) == Sum(weights[..u]) + Sum(w[..l]) + x + y
  {
    var inner, outer := weights[u..u'], w[l..l'];
    assert weights[..u'] == weights[..u] + inner && w[..l'] == w[..l] + outer;
    SumConcat(weights[..u], inner);
    SumConcat(w[..l], outer);
    SumConcat(inner, outer);
    SumPair(inner + outer, x, y);
  }

  /** The nodes merged first weigh as much as their children. */
  predicate ChildSum(w: seq<nat>, used: seq<nat>, weights: seq<nat>, k: nat)
    requires k < |used|
  {
    && used[k] <= k <= |weights| && used[k] <= 2 * k <= |w| + used[k]
    && Sum(weights[..k]) == Sum(weights[..used[k]]) + Sum(w[..Leaves(used, k)])
  }

  ghost predicate ChildSums(w: seq<nat>, used: seq<nat>, weights: seq<nat>) {
    forall k: nat :: k < |used| ==> ChildSum(w, used, weights, k)
  }

  lemma TraceChildSums(w: seq<nat>, used: seq<nat>, weights: seq<nat>, taken: seq<nat>)
    requires Trace(w, used, weights, taken)
    ensures ChildSums(w, used, weights)
  {
    forall k: nat | k < |used| ensures ChildSum(w, used, weights, k) {
      assert UsedOk(|w|, used, k);
      ChildrenSum(w, used, weights, taken, k);
    }
  }

  lemma {:induction false} SumPrefix(s: seq<nat>, k: nat)
    requires k <= |s|
    ensures Sum(s[..k]) <= Sum(s)
  {
    assert s == s[..k] + s[k..];
    SumConcat(s[..k], s[k..]);
  }

  /** No weight of an inner node exceeds the sum of all leaves. */
  lemma MergeBounded(w: seq<nat>, used: seq<nat>, weights: seq<nat>, taken: seq<nat>)
    requires Trace(w, used, weights, taken) && |weights| >= 1
    ensures weights[|weights| - 1] <= Sum(w)
  {
    var m := |weights|;
    assert UsedOk(|w|, used, m);
    ChildrenSum(w, used, weights, taken, m);
    assert weights[..m] == weights && weights[..m - 1][..used[m]] == weights[..used[m]];
    SumPrefix(weights[..m - 1], used[m]);
    SumPrefix(w, Leaves(used, m));
  }

  // ---- the merges are optimal ----

  lemma {:induction false} ForestBound(w: seq<nat>, used: seq<nat>, weights: seq<nat>, taken: seq<nat>, k: nat)
    requires Trace(w, used, weights, taken) && |weights| == |w| - 1 && k <= |weights| && UsedOk(|w|, used, k)
    ensures Sum(weights[..k]) <= Sum(weights)
    ensures LowerBound(weights[used[k]..k] + w[Leaves(used, k)..], Sum(weights) - Sum(weights[..k]))
    decreases |weights| - k
  {
    SumPrefix(weights, k);
    if k == |weights| {
      assert weights[..k] == weights;
    } else {
      assert PairAt(w, used, weights, taken, k);
      ForestBound(w, used, weights, taken, k + 1);
      var x, y := taken[2 * k], taken[2 * k + 1];
      var rest := weights[used[k + 1]..k] + w[Leaves(used, k + 1)..];
      RestHeavier(w, used, weights, taken, k, rest);
      ForestAfter(w, used, weights, k, rest, Sum(weights) - Sum(weights[..k + 1]), x + y);
      MergeStep(x, y, rest, Sum(weights) - Sum(weights[..k + 1]));
      ForestBefore(w, used, weights, taken, k, rest);
      ReorderBound([x, y] + rest, weights[used[k]..k] + w[Leaves(used, k)..], Sum(weights) - Sum(weights[..k + 1]) + x + y);
      assert weights[..k + 1] == weights[..k] + [weights[k]];
    }
  }

  lemma RestHeavier(w: seq<nat>, used: seq<nat>, weights: seq<nat>, taken: seq<nat>, k: nat, rest: seq<nat>)
    requires Trace(w, used, weights, taken) && k < |weights| && PairAt(w, used, weights, taken, k)
    requires rest == weights[used[k + 1]..k] + w[Leaves(used, k + 1)..]
    ensures forall i :: 0 <= i < |rest| ==> taken[2 * k] <= rest[i] && taken[2 * k + 1] <= rest[i]
  {
    assert PairAt(w, used, weights, taken, k);
    assert InOrder(taken, 2 * k, 2 * k + 1);
    var inner := weights[used[k + 1]..k];
    forall i | 0 <= i < |rest| ensures taken[2 * k + 1] <= rest[i] {
      if i < |inner| {
        assert InOrder(weights, used[k + 1], used[k + 1] + i);
      } else {
        assert InOrder(w, Leaves(used, k + 1), Leaves(used, k + 1) + (i - |inner|));
      }
    }
  }

  lemma ForestAfter(w: seq<nat>, used: seq<nat>, weights: seq<nat>, k: nat, rest: seq<nat>, c: nat, z: nat)
    requires k < |weights| && |used| == |weights| + 1 && weights[k] == z && UsedOk(|w|, used, k + 1)
    requires rest == weights[used[k + 1]..k] + w[Leaves(used, k + 1)..]
    requires LowerBound(weights[used[k + 1]..k + 1] + w[Leaves(used, k + 1)..], c)
    ensures LowerBound([z] + rest, c)
  {
    var inner, outer := weights[used[k + 1]..k], w[Leaves(used, k + 1)..];
    assert weights[used[k + 1]..k + 1] == inner + [z];
    ReorderBound(inner + [z] + outer, [z] + rest, c);
  }

  lemma ForestBefore(w: seq<nat>, used: seq<nat>, weights: seq<nat>, taken: seq<nat>, k: nat, rest: seq<nat>)
    requires Trace(w, used, weights, taken) && k < |weights| && PairAt(w, used, weights, taken, k)
    requires rest == weights[used[k + 1]..k] + w[Leaves(used, k + 1)..]
    ensures multiset([taken[2 * k], taken[2 * k + 1]] + rest)
         == multiset(weights[used[k]..k] + w[Leaves(used, k)..])
  {
    assert PairAt(w, used, weights, taken, k);
    var u, u', l, l' := used[k], used[k + 1], Leaves(used, k), Leaves(used, k + 1);
    assert weights[u..k] == weights[u..u'] + weights[u'..k];
    assert w[l..] == w[l..l'] + w[l'..];
  }

  /** No code for the leaves costs less than the sum of the weights of all merges. */
  lemma Optimal(w: seq<nat>, used: seq<nat>, weights: seq<nat>, taken: seq<nat>)
    requires Trace(w, used, weights, taken) && |weights| == |w| - 1
    ensures LowerBound(w, Sum(weights))
  {
    assert UsedOk(|w|, used, 0);
    ForestBound(w, used, weights, taken, 0);
    assert weights[0..0] + w[0..] == w && weights[..0] == [];
  }
}
