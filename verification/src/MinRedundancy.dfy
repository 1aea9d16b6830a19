/** tdefl_calculate_minimum_redundancy: code lengths of an optimal prefix code, computed in place of the weights. */
module MinRedundancy {
  import opened Bits
  import opened Kraft
  import opened MergeTrace
  import opened MergeLevels

  /** tdefl_sym_freq: a 16-bit key, first a weight and in the end a code length, and the symbol it belongs to. */
  datatype SymFreq = SymFreq(key: nat, sym: nat)

  function Keys(s: seq<SymFreq>): (keys: seq<nat>)
    ensures |keys| == |s| && forall i :: 0 <= i < |s| ==> keys[i] == s[i].key
  {
    seq(|s|, i requires 0 <= i < |s| => s[i].key)
  }

  /** Nothing but the keys of the first n records has changed. */
  twostate predicate OnlyKeys(a: array<SymFreq>, n: nat)
    reads a
  {
    forall i :: 0 <= i < a.Length ==> a[i].sym == old(a[i].sym) && (i >= n ==> a[i].key == old(a[i].key))
  }

  /** A 16-bit store. */
  function Wrap16(v: nat): nat { v % 65536 }

  /** Ascending weights whose additions stay below 2^16. */
  ghost predicate Orderly(w: seq<nat>) {
    Ascending(w) && Sum(w) < 65536
  }

  /** The lengths of a complete code: Kraft's sum is exactly one, and heavier weights come later and are not longer. */
  ghost predicate CompleteLengths(lens: seq<nat>) {
    && (forall i :: 0 <= i < |lens| ==> 1 <= lens[i] <= |lens|)
    && KraftSum(lens, |lens|) == Pow2(|lens|)
    && Descending(lens)
  }

  predicate NotBelow(s: seq<nat>, i: int, j: int) {
    0 <= i <= j < |s| ==> s[i] >= s[j]
  }

  ghost predicate Descending(s: seq<nat>) {
    forall i, j :: NotBelow(s, i, j)
  }

  /** No lengths that satisfy Kraft's inequality are cheaper. */
  ghost predicate Cheapest(w: seq<nat>, lens: seq<nat>) {
    |w| == |lens| && LowerBound(w, Cost(w, lens))
  }

  /** A long code goes to a light weight only. */
  ghost predicate Light(w: seq<nat>, lens: seq<nat>) {
    |w| == |lens| && forall i :: 0 <= i < |w| ==> w[i] * Fib(lens[i] + 1) <= Sum(w)
  }

  lemma AllLight(w: seq<nat>, used: seq<nat>, weights: seq<nat>, taken: seq<nat>, parents: seq<nat>, depths: seq<nat>,
                 lens: seq<nat>)
    requires Trace(w, used, weights, taken) && |weights| == |w| - 1 && |w| >= 2 && |lens| == |w|
    requires Finished(|w|, used) && ParentsOk(used, parents) && DepthsOk(|w|, parents, depths)
    requires forall i :: 0 <= i < |w| ==> lens[i] >= 1 && InLevel(|w|, used, i, lens[i])
    ensures Light(w, lens)
  {
    forall i | 0 <= i < |w| ensures w[i] * Fib(lens[i] + 1) <= Sum(w) {
      assert InLevel(|w|, used, i, lens[i]);
      LeafBound(w, used, weights, taken, parents, depths, i, lens[i]);
    }
  }

  method CalculateMinimumRedundancy(a: array<SymFreq>, n: nat)
    requires n <= a.Length && n <= 288
    requires forall i :: 0 <= i < n ==> a[i].key < 65536
    modifies a
    ensures OnlyKeys(a, n)
    ensures n == 1 ==> a[0].key == 1
    ensures n >= 2 ==> CompleteLengths(Keys(a[..n]))
    ensures n >= 2 && Orderly(Keys(old(a[..n]))) ==> Cheapest(Keys(old(a[..n])), Keys(a[..n]))
    ensures n >= 2 && Orderly(Keys(old(a[..n]))) && (forall i :: 0 <= i < n ==> old(a[i].key) >= 1) ==>
      forall i :: 0 <= i < n ==> a[i].key <= 22
    ensures n >= 2 && Orderly(Keys(old(a[..n]))) ==> Light(Keys(old(a[..n])), Keys(a[..n]))
  {
    if n == 0 {
      return;
    } else if n == 1 {
      a[0] := a[0].(key := 1);
      return;
    }
    ghost var w := Keys(a[..n]);
    ghost var used, parents, weights, taken := MergePairs(a, n, w);
    ghost var depths := InnerDepths(a, n, used, parents);
    if Orderly(w) {
      TraceChildSums(w, used, weights, taken);
    }
    LeafDepths(a, n, w, used, parents, depths, weights, Orderly(w));
    if Orderly(w) {
      Optimal(w, used, weights, taken);
      AllLight(w, used, weights, taken, parents, depths, Keys(a[..n]));
      if forall i :: 0 <= i < n ==> w[i] >= 1 {
        DepthBound(w, used, weights, taken, parents, depths);
      }
    }
  }

  /** What the array holds while nodes are merged: parents of used inner nodes, weights of the others, unused leaves. */
  ghost predicate Merging(s: seq<SymFreq>, n: nat, w: seq<nat>, next: nat, root: nat, leaf: nat, parents: seq<nat>,
                          weights: seq<nat>)
  {
    && n <= |s| && |w| == n && root <= next <= leaf <= n && |parents| == root && |weights| == next
    && (forall r :: 0 <= r < root ==> s[r].key == parents[r])
    && (forall r :: root <= r < next ==> s[r].key == weights[r])
    && (forall i :: leaf <= i < n ==> s[i].key == w[i])
  }

  /** The first phase: every merge stores its weight, and its number in the inner nodes it takes. */
  method MergePairs(a: array<SymFreq>, n: nat, ghost w: seq<nat>)
    returns (ghost used: seq<nat>, ghost parents: seq<nat>, ghost weights: seq<nat>, ghost taken: seq<nat>)
    requires 2 <= n <= a.Length && n <= 288 && w == Keys(a[..n])
    modifies a
    ensures OnlyKeys(a, n)
    ensures Finished(n, used) && ParentsOk(used, parents) && |parents| == n - 2
    ensures forall r :: 0 <= r < n - 2 ==> a[r].key == parents[r]
    ensures Orderly(w) ==> Trace(w, used, weights, taken) && |weights| == n - 1
  {
    hide MergeInv, Trace, Orderly, Shape, ParentsOk, Sum;
    var root, leaf, next := 0, 2, 1;
    a[0] := a[0].(key := Wrap16(a[0].key + a[1].key));
    used, parents, weights, taken := [0, 0], [], [a[0].key], [w[0], w[1]];
    FirstInv(a[..], n, w, used, weights, taken);
    while next < n - 1
      invariant 1 <= next <= n - 1 && MergeInv(a[..], n, w, next, root, leaf, used, parents, weights, taken)
      invariant OnlyKeys(a, n)
    {
      root, leaf, used, parents, weights, taken := MergeOnePair(a, n, next, root, leaf, w, used, parents, weights, taken);
      next := next + 1;
    }
    AllMerged(a[..], n, w, root, leaf, used, parents, weights, taken);
  }

  lemma AllMerged(s: seq<SymFreq>, n: nat, w: seq<nat>, root: nat, leaf: nat, used: seq<nat>, parents: seq<nat>,
                  weights: seq<nat>, taken: seq<nat>)
    requires n >= 2 && MergeInv(s, n, w, n - 1, root, leaf, used, parents, weights, taken)
    ensures Finished(n, used) && ParentsOk(used, parents) && |parents| == n - 2 && |weights| == n - 1
    ensures forall r :: 0 <= r < n - 2 ==> s[r].key == parents[r]
    ensures Orderly(w) ==> Trace(w, used, weights, taken)
  {
    hide Trace, Orderly;
    assert UsedOk(n, used, n - 1);
  }

  ghost predicate MergeInv(s: seq<SymFreq>, n: nat, w: seq<nat>, next: nat, root: nat, leaf: nat, used: seq<nat>,
                           parents: seq<nat>, weights: seq<nat>, taken: seq<nat>)
  {
    && 1 <= next <= n - 1 && |used| == next + 1 && used[next] == root && root + leaf == 2 * next
    && Shape(n, used) && ParentsOk(used, parents)
    && Merging(s, n, w, next, root, leaf, parents, weights)
    && (Orderly(w) ==> Trace(w, used, weights, taken))
  }

  lemma FirstInv(s: seq<SymFreq>, n: nat, w: seq<nat>, used: seq<nat>, weights: seq<nat>, taken: seq<nat>)
    requires 2 <= n <= |s| && |w| == n && used == [0, 0] && weights == [Wrap16(w[0] + w[1])] && taken == [w[0], w[1]]
    requires s[0].key == weights[0] && forall i :: 2 <= i < n ==> s[i].key == w[i]
    ensures MergeInv(s, n, w, 1, 0, 2, used, [], weights, taken)
  {
    if Orderly(w) {
      FirstExact(w);
    }
    assert UsedOk(n, used, 0) && UsedOk(n, used, 1);
  }

  lemma FirstExact(w: seq<nat>)
    requires Orderly(w) && |w| >= 2
    ensures Trace(w, [0, 0], [Wrap16(w[0] + w[1])], [w[0], w[1]])
  {
    FirstMerge(w);
    MergeBounded(w, [0, 0], [w[0] + w[1]], [w[0], w[1]]);
  }

  method MergeOnePair(a: array<SymFreq>, n: nat, next: nat, root: nat, leaf: nat, ghost w: seq<nat>, ghost used: seq<nat>,
                      ghost parents: seq<nat>, ghost weights: seq<nat>, ghost taken: seq<nat>)
    returns (root': nat, leaf': nat, ghost used': seq<nat>, ghost parents': seq<nat>, ghost weights': seq<nat>,
             ghost taken': seq<nat>)
    requires n <= a.Length && n <= 288 && next < n - 1
    requires MergeInv(a[..], n, w, next, root, leaf, used, parents, weights, taken)
    modifies a
    ensures OnlyKeys(a, n)
    ensures MergeInv(a[..], n, w, next + 1, root', leaf', used', parents', weights', taken')
  {
    hide Merging, Trace, Orderly, Shape, ParentsOk, UsedOk;
    MergeBegins(a[..], n, w, next, root, leaf, used, parents, weights, taken);
    ghost var x, y;
    root', leaf', parents', x := TakeFirst(a, n, next, root, leaf, w, parents, weights);
    ghost var root1, leaf1 := root', leaf';
    root', leaf', parents', y := TakeSecond(a, n, next, root', leaf', w, parents', weights, x);
    used', weights', taken' := used + [root'], weights + [a[next].key], taken + [x, y];
    MergeDone(a[..], n, w, next, root, leaf, root1, leaf1, root', leaf', used, parents, parents', weights, taken, x, y);
  }

  lemma MergeBegins(s: seq<SymFreq>, n: nat, w: seq<nat>, next: nat, root: nat, leaf: nat, used: seq<nat>, parents: seq<nat>,
                    weights: seq<nat>, taken: seq<nat>)
    requires MergeInv(s, n, w, next, root, leaf, used, parents, weights, taken) && n <= 288
    ensures root < next && root + leaf == 2 * next && Merging(s, n, w, next, root, leaf, parents, weights)
  {
    assert UsedOk(n, used, next);
  }

  lemma MergingNext(s: seq<SymFreq>, n: nat, w: seq<nat>, next: nat, root: nat, leaf: nat, parents: seq<nat>, weights: seq<nat>)
    requires Merging(s, n, w, next, root, leaf, parents, weights) && next < leaf
    ensures Merging(s, n, w, next + 1, root, leaf, parents, weights + [s[next].key])
  {
  }

  /** The merge is part of the history. */
  lemma MergeDone(s: seq<SymFreq>, n: nat, w: seq<nat>, next: nat, root: nat, leaf: nat, root1: nat, leaf1: nat, root': nat,
                  leaf': nat, used: seq<nat>, parents: seq<nat>, parents': seq<nat>, weights: seq<nat>, taken: seq<nat>, x: nat,
                  y: nat)
    requires 1 <= next < n - 1 && |used| == next + 1 && used[next] == root && root + leaf == 2 * next && |weights| == next
    requires Shape(n, used) && ParentsOk(used, parents) && (Orderly(w) ==> Trace(w, used, weights, taken))
    requires Takes(w, weights, root, leaf, x, root1, leaf1) && Takes(w, weights, root1, leaf1, y, root', leaf')
    requires parents' == parents + (if root1 > root then [next] else []) + (if root' > root1 then [next] else [])
    requires n <= |s| && |w| == n && leaf' <= n && root' <= next && s[next].key == Wrap16(x + y)
    requires Merging(s, n, w, next, root', leaf', parents', weights)
    ensures MergeInv(s, n, w, next + 1, root', leaf', used + [root'], parents', weights + [s[next].key], taken + [x, y])
  {
    hide Merging, Trace, Orderly;
    MergingNext(s, n, w, next, root', leaf', parents', weights);
    assert UsedOk(n, used, next);
    ShapeExtends(n, used, root', leaf');
    ParentsExtend(used, parents, root', parents');
    if Orderly(w) {
      ExactMerge(w, used, weights, taken, x, y, root1, leaf1, root', leaf');
    }
  }

  /** With orderly weights the 16-bit sum is the sum. */
  lemma ExactMerge(w: seq<nat>, used: seq<nat>, weights: seq<nat>, taken: seq<nat>, x: nat, y: nat, root1: nat, leaf1: nat,
                   root: nat, leaf: nat)
    requires Orderly(w) && Trace(w, used, weights, taken)
    requires UsedOk(|w|, used, |weights|)
    requires Takes(w, weights, used[|weights|], Leaves(used, |weights|), x, root1, leaf1)
    requires Takes(w, weights, root1, leaf1, y, root, leaf)
    ensures Wrap16(x + y) == x + y
    ensures Trace(w, used + [root], weights + [Wrap16(x + y)], taken + [x, y])
  {
    NextMerge(w, used, weights, taken, x, y, root1, leaf1, root, leaf);
    MergeBounded(w, used + [root], weights + [x + y], taken + [x, y]);
  }

  /** The first child of a merge. The weight of an inner node is replaced by the number of the merge that takes it. */
  method TakeFirst(a: array<SymFreq>, n: nat, next: nat, root: nat, leaf: nat, ghost w: seq<nat>,
                   ghost parents: seq<nat>, ghost weights: seq<nat>)
    returns (root': nat, leaf': nat, ghost parents': seq<nat>, ghost x: nat)
    requires n <= a.Length && n <= 288 && root < next < n - 1 && root + leaf == 2 * next
    requires Merging(a[..], n, w, next, root, leaf, parents, weights)
    modifies a
    ensures OnlyKeys(a, n)
    ensures Takes(w, weights, root, leaf, x, root', leaf') && leaf' <= n
    ensures parents' == parents + (if root' > root then [next] else [])
    ensures Merging(a[..], n, w, next, root', leaf', parents', weights) && a[next].key == x
  {
    root', leaf', parents' := root, leaf, parents;
    if leaf >= n || a[root].key < a[leaf].key {
      x := weights[root];
      a[next] := a[next].(key := a[root].key);
      a[root] := a[root].(key := next);
      root', parents' := root + 1, parents + [next];
    } else {
      x := w[leaf];
      a[next] := a[next].(key := a[leaf].key);
      leaf' := leaf + 1;
    }
  }

  /** The second child: its weight is added, in 16 bits. */
  method TakeSecond(a: array<SymFreq>, n: nat, next: nat, root: nat, leaf: nat, ghost w: seq<nat>,
                    ghost parents: seq<nat>, ghost weights: seq<nat>, ghost x: nat)
    returns (root': nat, leaf': nat, ghost parents': seq<nat>, ghost y: nat)
    requires n <= a.Length && n <= 288 && root <= next < n - 1 && root + leaf == 2 * next + 1
    requires Merging(a[..], n, w, next, root, leaf, parents, weights) && a[next].key == x && next < leaf
    modifies a
    ensures OnlyKeys(a, n)
    ensures Takes(w, weights, root, leaf, y, root', leaf') && leaf' <= n && root' <= next
    ensures parents' == parents + (if root' > root then [next] else [])
    ensures Merging(a[..], n, w, next, root', leaf', parents', weights) && a[next].key == Wrap16(x + y)
  {
    root', leaf', parents' := root, leaf, parents;
    if leaf >= n || (root < next && a[root].key < a[leaf].key) {
      y := weights[root];
      a[next] := a[next].(key := Wrap16(a[next].key + a[root].key));
      a[root] := a[root].(key := next);
      root', parents' := root + 1, parents + [next];
    } else {
      y := w[leaf];
      a[next] := a[next].(key := Wrap16(a[next].key + a[leaf].key));
      leaf' := leaf + 1;
    }
  }

  /** The second phase: the depth of every inner node, from the last merge down. */
  method InnerDepths(a: array<SymFreq>, n: nat, ghost used: seq<nat>, ghost parents: seq<nat>)
    returns (ghost depths: seq<nat>)
    requires 2 <= n <= a.Length && n <= 288 && Finished(n, used) && ParentsOk(used, parents) && |parents| == n - 2
    requires forall r :: 0 <= r < n - 2 ==> a[r].key == parents[r]
    modifies a
    ensures OnlyKeys(a, n)
    ensures DepthsOk(n, parents, depths)
    ensures forall k :: 0 <= k < n - 1 ==> a[k].key == depths[k]
  {
    a[n - 2] := a[n - 2].(key := 0);
    depths := [0];
    var next: int := n - 3;
    while next >= 0
      invariant -1 <= next <= n - 3 && |depths| == n - 2 - next && depths[|depths| - 1] == 0
      invariant forall r :: 0 <= r <= next ==> a[r].key == parents[r]
      invariant forall k :: next < k < n - 1 ==> a[k].key == depths[k - next - 1]
      invariant forall r :: next < r < n - 2 ==>
        r < parents[r] < n - 1 && depths[r - next - 1] == depths[parents[r] - next - 1] + 1
      invariant OnlyKeys(a, n)
    {
      assert UsedOk(n, used, parents[next] + 1);
      a[next] := a[next].(key := a[a[next].key].key + 1);
      depths := [a[next].key] + depths;
      next := next - 1;
    }
  }

  /** The third phase at depth d: the inner nodes up to root and the leaves up to next are of depth d or more. */
  ghost predicate AtDepth(n: nat, used: seq<nat>, d: nat, root: int, next: int, avbl: nat) {
    && Finished(n, used) && d <= n && avbl == next - root
    && root + 1 == Level(n, used, d) && next + 1 == LeafLevel(n, used, d)
  }

  /** The lengths given out so far, for the leaves after next, use up what the nodes of depth d do not need. */
  ghost predicate Assigned(s: seq<SymFreq>, n: nat, next: int, d: nat, avbl: nat, lens: seq<nat>) {
    && n <= |s| && d <= n && -1 <= next < n && |lens| == n - 1 - next
    && (forall i :: next < i < n ==> s[i].key == lens[i - next - 1])
    && (forall i :: 0 <= i < |lens| ==> 1 <= lens[i] <= d && lens[i] <= n)
    && Descending(lens)
    && KraftSum(lens, n) + avbl * Pow2(n - d) == Pow2(n)
  }

  ghost predicate CostSoFar(w: seq<nat>, next: int, d: nat, lens: seq<nat>, c: int) {
    && -1 <= next < |w| && |lens| == |w| - 1 - next
    && Cost(w[next + 1..], lens) + d * Sum(w[..next + 1]) == c
  }

  /** The third phase: inner depths are replaced, from the last leaf down, by leaf depths. */
  method LeafDepths(a: array<SymFreq>, n: nat, ghost w: seq<nat>, ghost usedBy: seq<nat>, ghost parents: seq<nat>,
                    ghost depths: seq<nat>, ghost weights: seq<nat>, ghost sums: bool)
    requires 2 <= n <= a.Length && n <= 288 && |w| == n
    requires Finished(n, usedBy) && ParentsOk(usedBy, parents) && DepthsOk(n, parents, depths)
    requires forall k :: 0 <= k < n - 1 ==> a[k].key == depths[k]
    requires sums ==> ChildSums(w, usedBy, weights) && |weights| == n - 1
    modifies a
    ensures OnlyKeys(a, n)
    ensures CompleteLengths(Keys(a[..n]))
    ensures sums ==> Cost(w, Keys(a[..n])) == Sum(weights)
    ensures forall i :: 0 <= i < n ==> a[i].key <= depths[0] + 1 && InLevel(n, usedBy, i, a[i].key)
  {
    ghost var total := Sum(weights);
    ghost var dpth, lens := LeafLoop(a, n, w, usedBy, parents, depths, weights, sums, total);
    AllAssigned(a[..], n, dpth, lens, Keys(a[..n]));
    if sums {
      FinalCost(w, dpth, lens, total, weights);
    }
    forall i | 0 <= i < n ensures a[i].key <= depths[0] + 1 && InLevel(n, usedBy, i, a[i].key) {
      assert a[i].key == lens[i] && InLevel(n, usedBy, -1 + 1 + i, lens[i]);
    }
  }

  method LeafLoop(a: array<SymFreq>, n: nat, ghost w: seq<nat>, ghost usedBy: seq<nat>, ghost parents: seq<nat>,
                  ghost depths: seq<nat>, ghost weights: seq<nat>, ghost sums: bool, ghost total: nat)
    returns (ghost depth: nat, ghost lens: seq<nat>)
    requires 2 <= n <= a.Length && n <= 288 && |w| == n && total == Sum(weights)
    requires Finished(n, usedBy) && ParentsOk(usedBy, parents) && DepthsOk(n, parents, depths)
    requires forall k :: 0 <= k < n - 1 ==> a[k].key == depths[k]
    requires sums ==> ChildSums(w, usedBy, weights) && |weights| == n - 1
    modifies a
    ensures OnlyKeys(a, n) && depth <= n
    ensures DepthInv(a[..], n, w, usedBy, depths, weights, depth, -1, -1, 0, lens, sums, total)
  {
    hide DepthInv, Cost, Sum;
    var avbl, used, dpth: nat, root: int, next: int := 1, 0, 0, n - 2, n - 1;
    lens := [];
    FirstDepth(a[..], n, w, usedBy, depths, weights, sums, total);
    while avbl > 0
      invariant used == 0 && DepthInv(a[..], n, w, usedBy, depths, weights, dpth, root, next, avbl, lens, sums, total)
      invariant OnlyKeys(a, n) && root >= -1
      decreases root + 1, avbl
    {
      root, next, used, lens := OneDepth(a, n, dpth, root, next, avbl, w, usedBy, parents, depths, weights, lens, sums, total);
      avbl := 2 * used;
      dpth, used := dpth + 1, 0;
    }
    depth := dpth;
    LastDepth(a[..], n, w, usedBy, depths, weights, dpth, root, next, lens, sums, total);
  }

  lemma FirstDepth(s: seq<SymFreq>, n: nat, w: seq<nat>, usedBy: seq<nat>, depths: seq<nat>, weights: seq<nat>, sums: bool,
                   total: nat)
    requires 2 <= n <= |s| && |w| == n && total == Sum(weights) && Finished(n, usedBy) && |depths| == n - 1
    requires (forall k :: 0 <= k < n - 1 ==> s[k].key == depths[k]) && (sums ==> |weights| == n - 1)
    ensures DepthInv(s, n, w, usedBy, depths, weights, 0, n - 2, n - 1, 1, [], sums, total)
  {
    CostStart(w);
    assert weights[..|weights|] == weights;
  }

  /** All leaves have got their depths when no inner node is left. */
  lemma LastDepth(s: seq<SymFreq>, n: nat, w: seq<nat>, usedBy: seq<nat>, depths: seq<nat>, weights: seq<nat>, dpth: nat,
                  root: int, next: int, lens: seq<nat>, sums: bool, total: nat)
    requires n >= 2 && DepthInv(s, n, w, usedBy, depths, weights, dpth, root, next, 0, lens, sums, total)
    ensures dpth <= n && DepthInv(s, n, w, usedBy, depths, weights, dpth, -1, -1, 0, lens, sums, total)
  {
    hide Assigned, CostSoFar;
    LevelDown(n, usedBy, dpth);
  }

  lemma FinalCost(w: seq<nat>, d: nat, lens: seq<nat>, total: nat, weights: seq<nat>)
    requires CostSoFar(w, -1, d, lens, total - Sum(weights[..0]))
    ensures Cost(w, lens) == total
  {
    assert w[0..] == w && w[..0] == [] && weights[..0] == [];
  }

  ghost predicate DepthInv(s: seq<SymFreq>, n: nat, w: seq<nat>, usedBy: seq<nat>, depths: seq<nat>, weights: seq<nat>,
                           dpth: nat, root: int, next: int, avbl: nat, lens: seq<nat>, sums: bool, total: nat)
  {
    && AtDepth(n, usedBy, dpth, root, next, avbl) && next < n <= |s| && root < |depths|
    && Assigned(s, n, next, dpth, avbl, lens)
    && (forall k :: 0 <= k <= root ==> s[k].key == depths[k])
    && (sums ==> root < |weights| && CostSoFar(w, next, dpth, lens, total - Sum(weights[..root + 1])))
    && AllInLevels(n, usedBy, depths, next, lens)
  }

  /** The leaf of rank p is of depth d or more. */
  ghost predicate InLevel(n: nat, usedBy: seq<nat>, p: int, d: nat)
    requires Finished(n, usedBy)
  {
    p < LeafLevel(n, usedBy, d)
  }

  /** One round: the inner nodes of depth dpth are counted, the leaves of that depth get it. */
  method OneDepth(a: array<SymFreq>, n: nat, dpth: nat, root: int, next: int, avbl: nat, ghost w: seq<nat>,
                  ghost usedBy: seq<nat>, ghost parents: seq<nat>, ghost depths: seq<nat>, ghost weights: seq<nat>,
                  ghost lens: seq<nat>, ghost sums: bool, ghost total: nat)
    returns (root': int, next': int, used: nat, ghost lens': seq<nat>)
    requires 2 <= n <= a.Length && n <= 288 && |w| == n && avbl > 0
    requires Finished(n, usedBy) && ParentsOk(usedBy, parents) && DepthsOk(n, parents, depths)
    requires sums ==> ChildSums(w, usedBy, weights) && |weights| == n - 1
    requires DepthInv(a[..], n, w, usedBy, depths, weights, dpth, root, next, avbl, lens, sums, total)
    modifies a
    ensures root' >= -1 && OnlyKeys(a, n) && (root' < root || (root' == root && 2 * used < avbl))
    ensures DepthInv(a[..], n, w, usedBy, depths, weights, dpth + 1, root', next', 2 * used, lens', sums, total)
  {
    hide Assigned, CostSoFar, AllInLevels, Cost, Sum, Prepended;
    LevelDown(n, usedBy, dpth);
    LevelDown(n, usedBy, dpth + 1);
    LevelShrinks(n, usedBy, dpth);
    root', used := InnerAtDepth(a, n, root, dpth, usedBy, parents, depths);
    DepthReached(n, usedBy, parents, depths, dpth);
    ghost var c := if sums then total - Sum(weights[..root + 1]) else 0;
    next', lens' := AssignLeaves(a, n, next, avbl, used, dpth, root', lens, w, c);
    if sums {
      NextDepthCost(w, usedBy, weights, root, root', next', dpth, lens', total);
    }
    NextDepthKraft(a[..], n, next', dpth + 1, 2 * used, lens');
    LevelsKept(n, usedBy, depths, next, next', avbl - used, dpth, lens, lens');
  }

  /** The lengths given out so far are depths of the leaves. */
  ghost predicate AllInLevels(n: nat, usedBy: seq<nat>, depths: seq<nat>, next: int, lens: seq<nat>) {
    && Finished(n, usedBy) && depths != []
    && forall i :: 0 <= i < |lens| ==> lens[i] <= depths[0] + 1 && InLevel(n, usedBy, next + 1 + i, lens[i])
  }

  lemma LevelsKept(n: nat, usedBy: seq<nat>, depths: seq<nat>, next: int, next': int, k: nat, d: nat, lens: seq<nat>, lens': seq<nat>)
    requires AllInLevels(n, usedBy, depths, next, lens) && Prepended(lens', d, k, lens) && next' == next - k
    requires d <= depths[0] + 1 && next + 1 == LeafLevel(n, usedBy, d)
    ensures AllInLevels(n, usedBy, depths, next', lens')
  {
    forall i | 0 <= i < |lens'| ensures lens'[i] <= depths[0] + 1 && InLevel(n, usedBy, next' + 1 + i, lens'[i]) {
      if i >= k {
        assert InLevel(n, usedBy, next + 1 + (i - k), lens[i - k]);
      }
    }
  }

  lemma CostStart(w: seq<nat>)
    requires |w| >= 1
    ensures CostSoFar(w, |w| - 1, 0, [], 0)
  {
    assert w[|w|..] == [];
  }

  lemma AllAssigned(s: seq<SymFreq>, n: nat, d: nat, lens: seq<nat>, keys: seq<nat>)
    requires n >= 1 && n <= |s| && keys == Keys(s[..n])
    requires Assigned(s, n, -1, d, 0, lens)
    ensures keys == lens && CompleteLengths(lens)
  {
    forall i | 0 <= i < n ensures keys[i] == lens[i] {
      assert s[..n][i] == s[i];
    }
  }

  /** If some leaf is left at depth d, the deepest inner node is at depth d - 1 or more. */
  lemma DepthReached(n: nat, usedBy: seq<nat>, parents: seq<nat>, depths: seq<nat>, d: nat)
    requires n >= 2 && Finished(n, usedBy) && ParentsOk(usedBy, parents) && DepthsOk(n, parents, depths)
    requires LeafLevel(n, usedBy, d) > 0
    ensures d <= depths[0] + 1
  {
    if d > 0 {
      DepthIsLevel(n, usedBy, parents, depths, 0, d - 1);
      assert UsedOk(n, usedBy, 0);
    }
  }

  /** lens' is lens behind k times d. */
  ghost predicate Prepended(lens': seq<nat>, d: nat, k: nat, lens: seq<nat>) {
    && |lens'| == k + |lens| && (forall i :: 0 <= i < k ==> lens'[i] == d)
    && (forall i :: k <= i < |lens'| ==> lens'[i] == lens[i - k])
  }

  lemma NoMore(lens: seq<nat>, d: nat)
    ensures Prepended(lens, d, 0, lens)
  {
  }

  lemma OneMore(lens': seq<nat>, d: nat, k: nat, lens: seq<nat>)
    requires Prepended(lens', d, k, lens)
    ensures Prepended([d] + lens', d, k + 1, lens)
  {
  }

  /** Gives depth dpth to the leaves of this depth, the heaviest that are left. */
  method AssignLeaves(a: array<SymFreq>, n: nat, next: int, avbl: nat, used: nat, dpth: nat, ghost root: int,
                      ghost lens: seq<nat>, ghost w: seq<nat>, ghost c: int)
    returns (next': int, ghost lens': seq<nat>)
    requires n <= a.Length && |w| == n && used <= avbl && dpth < n && -1 <= root
    requires next - root == avbl + used && next < n && (avbl > used ==> dpth >= 1)
    requires Assigned(a[..], n, next, dpth, avbl, lens)
    modifies a
    ensures next' == next - (avbl - used)
    ensures Assigned(a[..], n, next', dpth, used, lens')
    ensures forall k :: 0 <= k <= root ==> a[k] == old(a[k])
    ensures OnlyKeys(a, n)
    ensures CostSoFar(w, next, dpth, lens, c) ==> CostSoFar(w, next', dpth, lens', c)
    ensures Prepended(lens', dpth, avbl - used, lens)
  {
    hide Assigned, CostSoFar, Prepended;
    next', lens' := next, lens;
    NoMore(lens, dpth);
    var avbl' := avbl;
    while avbl' > used
      invariant used <= avbl' <= avbl && next' - root == avbl' + used && next' < n
      invariant Assigned(a[..], n, next', dpth, avbl', lens')
      invariant forall k :: 0 <= k <= root ==> a[k] == old(a[k])
      invariant OnlyKeys(a, n)
      invariant CostSoFar(w, next, dpth, lens, c) ==> CostSoFar(w, next', dpth, lens', c)
      invariant Prepended(lens', dpth, avbl - avbl', lens)
    {
      OneMore(lens', dpth, avbl - avbl', lens);
      lens' := AssignLeaf(a, n, next', avbl', dpth, lens', w, c);
      next', avbl' := next' - 1, avbl' - 1;
    }
  }

  method AssignLeaf(a: array<SymFreq>, n: nat, next: nat, ghost avbl: nat, dpth: nat, ghost lens: seq<nat>,
                    ghost w: seq<nat>, ghost c: int) returns (ghost lens': seq<nat>)
    requires n <= a.Length && |w| == n && next < n && avbl >= 1 && 1 <= dpth < n
    requires Assigned(a[..], n, next, dpth, avbl, lens)
    modifies a
    ensures lens' == [dpth] + lens && Assigned(a[..], n, next - 1, dpth, avbl - 1, lens')
    ensures OnlyKeys(a, n) && forall k :: 0 <= k < next ==> a[k] == old(a[k])
    ensures CostSoFar(w, next, dpth, lens, c) ==> CostSoFar(w, next - 1, dpth, lens', c)
  {
    ghost var before := a[..];
    a[next] := a[next].(key := dpth);
    OneLeaf(before, a[..], n, next, dpth, avbl, lens);
    if CostSoFar(w, next, dpth, lens, c) {
      OneLeafCost(w, next, dpth, lens, c);
    }
    lens' := [dpth] + lens;
  }

  lemma OneLeaf(s: seq<SymFreq>, s': seq<SymFreq>, n: nat, next: int, d: nat, avbl: nat, lens: seq<nat>)
    requires Assigned(s, n, next, d, avbl, lens) && 0 <= next && 1 <= d < n && avbl >= 1
    requires |s'| == |s| && s'[next].key == d && forall i :: next < i < n ==> s'[i].key == s[i].key
    ensures Assigned(s', n, next - 1, d, avbl - 1, [d] + lens)
  {
    var lens' := [d] + lens;
    forall i, j ensures NotBelow(lens', i, j) {
      assert NotBelow(lens, i - 1, j - 1);
    }
    ConsSum(d, lens, n);
    assert (avbl - 1) * Pow2(n - d) == avbl * Pow2(n - d) - Pow2(n - d);
  }

  lemma OneLeafCost(w: seq<nat>, next: int, d: nat, lens: seq<nat>, c: int)
    requires 0 <= next && CostSoFar(w, next, d, lens, c)
    ensures CostSoFar(w, next - 1, d, [d] + lens, c)
  {
    assert w[next..] == [w[next]] + w[next + 1..];
    ConsCost(w[next], w[next + 1..], d, lens);
    assert w[..next + 1] == w[..next] + [w[next]];
    MulAdd(d, Sum(w[..next]), w[next]);
  }

  lemma MulAdd(d: nat, x: nat, y: nat)
    ensures d * (x + y) == d * x + d * y && y * d == d * y
  {
  }

  /** What the leaves of depth d leave over is worth twice as many nodes of depth d + 1. */
  lemma NextDepthKraft(s: seq<SymFreq>, n: nat, next: int, d: nat, avbl: nat, lens: seq<nat>)
    requires d >= 1 && d <= n && avbl % 2 == 0 && Assigned(s, n, next, d - 1, avbl / 2, lens)
    ensures Assigned(s, n, next, d, avbl, lens)
  {
    assert Pow2(n - (d - 1)) == 2 * Pow2(n - d);
    assert (avbl / 2) * (2 * Pow2(n - d)) == avbl * Pow2(n - d);
  }

  /** Of the merged weights, those of depth d are the weights of the leaves and inner nodes below. */
  lemma NextDepthCost(w: seq<nat>, used: seq<nat>, weights: seq<nat>, root0: int, root: int, next: int, d: nat,
                      lens: seq<nat>, total: nat)
    requires -1 <= root <= root0 < |weights| && root0 + 1 < |used| && ChildSum(w, used, weights, root0 + 1)
    requires root + 1 == used[root0 + 1] && next + 1 == Leaves(used, root0 + 1)
    requires CostSoFar(w, next, d, lens, total - Sum(weights[..root0 + 1]))
    ensures CostSoFar(w, next, d + 1, lens, total - Sum(weights[..root + 1]))
  {
    DeeperCost(w, next, d, lens, total - Sum(weights[..root0 + 1]));
  }

  lemma DeeperCost(w: seq<nat>, next: int, d: nat, lens: seq<nat>, c: int)
    requires CostSoFar(w, next, d, lens, c)
    ensures CostSoFar(w, next, d + 1, lens, c + Sum(w[..next + 1]))
  {
    MulAdd(Sum(w[..next + 1]), d, 1);
  }

  /** Counts the inner nodes of this depth. */
  method InnerAtDepth(a: array<SymFreq>, n: nat, start: int, dpth: nat, ghost usedBy: seq<nat>, ghost parents: seq<nat>,
                      ghost depths: seq<nat>) returns (root: int, used: nat)
    requires n <= a.Length && Finished(n, usedBy) && ParentsOk(usedBy, parents) && DepthsOk(n, parents, depths)
    requires -1 <= start < n - 1 && start + 1 == Level(n, usedBy, dpth)
    requires forall k :: 0 <= k <= start ==> a[k].key == depths[k]
    ensures -1 <= root <= start && used == start - root && root + 1 == Level(n, usedBy, dpth + 1)
  {
    root, used := start, 0;
    LevelShrinks(n, usedBy, dpth);
    while root >= 0 && a[root].key == dpth
      invariant -1 <= root <= start && used == start - root && root + 1 >= Level(n, usedBy, dpth + 1)
    {
      DepthIsLevel(n, usedBy, parents, depths, root, dpth + 1);
      used, root := used + 1, root - 1;
    }
    if root >= 0 {
      DepthIsLevel(n, usedBy, parents, depths, root, dpth);
      DepthIsLevel(n, usedBy, parents, depths, root, dpth + 1);
    }
  }
}
