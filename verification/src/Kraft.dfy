/** Kraft sums and costs of code lengths, and why merging the two lightest weights is never wrong. */
module Kraft {
  import opened Bits

  /** Each length l counts 2^(m - l). */
  function KraftSum(lens: seq<nat>, m: nat): nat
    requires forall i :: 0 <= i < |lens| ==> lens[i] <= m
  {
    if lens == [] then 0 else Pow2(m - lens[0]) + KraftSum(lens[1..], m)
  }

  /** The lengths satisfy Kraft's inequality, in units of 2^-m. */
  predicate Feasible(lens: seq<nat>, m: nat) {
    && (forall i :: 0 <= i < |lens| ==> lens[i] <= m)
    && KraftSum(lens, m) <= Pow2(m)
  }

  /** Sum of weight times length. */
  function Cost(weights: seq<nat>, lens: seq<nat>): nat
    requires |weights| == |lens|
  {
    if weights == [] then 0 else weights[0] * lens[0] + Cost(weights[1..], lens[1..])
  }

  /** No lengths that satisfy Kraft's inequality cost less than c. */
  ghost predicate LowerBound(weights: seq<nat>, c: nat) {
    forall lens: seq<nat>, m: nat :: BoundAt(weights, c, lens, m)
  }

  predicate BoundAt(weights: seq<nat>, c: nat, lens: seq<nat>, m: nat) {
    |lens| == |weights| && Feasible(lens, m) ==> Cost(weights, lens) >= c
  }

  // ---- exchanging and shortening lengths ----

  lemma {:induction false} CostUpdate(weights: seq<nat>, lens: seq<nat>, i: nat, l: nat)
    requires |weights| == |lens| && i < |lens|
    ensures Cost(weights, lens[i := l]) == Cost(weights, lens) + weights[i] * l - weights[i] * lens[i]
  {
    if i == 0 {
      assert lens[i := l][1..] == lens[1..];
    } else {
      CostUpdate(weights[1..], lens[1..], i - 1, l);
      assert lens[i := l][1..] == lens[1..][i - 1 := l];
    }
  }

  lemma {:induction false} SumUpdate(lens: seq<nat>, m: nat, i: nat, l: nat)
    requires forall k :: 0 <= k < |lens| ==> lens[k] <= m
    requires i < |lens| && l <= m
    ensures KraftSum(lens[i := l], m) == KraftSum(lens, m) + Pow2(m - l) - Pow2(m - lens[i])
  {
    if i == 0 {
      assert lens[i := l][1..] == lens[1..];
    } else {
      SumUpdate(lens[1..], m, i - 1, l);
      assert lens[i := l][1..] == lens[1..][i - 1 := l];
    }
  }

  lemma CrossProduct(a: nat, b: nat, x: nat, y: nat)
    requires a <= b && x <= y
    ensures a * y + b * x <= a * x + b * y
  {
    var d := b - a;
    assert b * x == a * x + d * x && b * y == a * y + d * y;
    assert d * x <= d * y;
  }

  /** Moving the longer length to the lighter weight never costs more. */
  lemma Exchange(weights: seq<nat>, lens: seq<nat>, m: nat, i: nat, j: nat) returns (lens': seq<nat>)
    requires |weights| == |lens| && i < |lens| && j < |lens| && i != j && Feasible(lens, m)
    requires weights[i] <= weights[j] && lens[i] <= lens[j]
    ensures lens' == lens[i := lens[j]][j := lens[i]]
    ensures Feasible(lens', m) && Cost(weights, lens') <= Cost(weights, lens)
  {
    var mid := lens[i := lens[j]];
    lens' := mid[j := lens[i]];
    CostUpdate(weights, lens, i, lens[j]);
    CostUpdate(weights, mid, j, lens[i]);
    SumUpdate(lens, m, i, lens[j]);
    SumUpdate(mid, m, j, lens[i]);
    CrossProduct(weights[i], weights[j], lens[i], lens[j]);
  }

  lemma {:induction false} EvenBelow(lens: seq<nat>, m: nat)
    requires forall i :: 0 <= i < |lens| ==> lens[i] < m
    ensures KraftSum(lens, m) % 2 == 0
  {
    if lens != [] {
      EvenBelow(lens[1..], m);
      assert Pow2(m - lens[0]) == 2 * Pow2(m - lens[0] - 1);
    }
  }

  /** A length that is longer than all others can be shortened: the Kraft sum is odd. */
  lemma Shorten(weights: seq<nat>, lens: seq<nat>, m: nat, i: nat)
    requires |weights| == |lens| && i < |lens| && Feasible(lens, m) && lens[i] == m >= 1
    requires forall k :: 0 <= k < |lens| && k != i ==> lens[k] < m
    ensures Feasible(lens[i := m - 1], m) && Cost(weights, lens[i := m - 1]) <= Cost(weights, lens)
  {
    hide KraftSum, Cost;
    var lens' := lens[i := m - 1];
    SumUpdate(lens, m, i, m - 1);
    CostUpdate(weights, lens, i, m - 1);
    CrossProduct(0, weights[i], m - 1, m);
    EvenBelow(lens', m);
    assert Pow2(0) == 1 && Pow2(1) == 2 && Pow2(m) == 2 * Pow2(m - 1);
  }

  /** Kraft's inequality does not depend on the unit. */
  lemma {:induction false} Rescale(lens: seq<nat>, m: nat)
    requires m >= 1 && forall i :: 0 <= i < |lens| ==> lens[i] < m
    ensures KraftSum(lens, m) == 2 * KraftSum(lens, m - 1)
  {
    if lens != [] {
      Rescale(lens[1..], m);
    }
  }

  lemma TwoNeedBits(lens: seq<nat>)
    requires |lens| >= 2
    ensures !Feasible(lens, 0)
  {
    if forall i :: 0 <= i < |lens| ==> lens[i] <= 0 {
      assert lens[1..][0] == lens[1];
      assert KraftSum(lens, 0) == 1 + KraftSum(lens[1..], 0);
    }
  }

  /**
    Lengths for weights whose first two are the lightest can be turned, at no more cost, into lengths in which these two
    are as long as any.
   */
  lemma {:induction false} LightestDeepest(weights: seq<nat>, lens: seq<nat>, m: nat)
    returns (lens': seq<nat>, m': nat)
    requires |weights| == |lens| >= 2 && Feasible(lens, m)
    requires forall k :: 2 <= k < |weights| ==> weights[0] <= weights[k] && weights[1] <= weights[k]
    ensures |lens'| == |lens| && m' >= 1 && Feasible(lens', m') && lens'[0] == lens'[1] == m'
    ensures Cost(weights, lens') <= Cost(weights, lens)
    decreases m, Pow2(m) - KraftSum(lens, m)
  {
    TwoNeedBits(lens);
    if m == 0 {
      lens', m' := lens, m;
    } else if forall k :: 0 <= k < |lens| ==> lens[k] < m {
      Rescale(lens, m);
      lens', m' := LightestDeepest(weights, lens, m - 1);
    } else {
      var i :| 0 <= i < |lens| && lens[i] == m;
      if forall k :: 0 <= k < |lens| && k != i ==> lens[k] < m {
        Shorten(weights, lens, m, i);
        SumUpdate(lens, m, i, m - 1);
        lens', m' := LightestDeepest(weights, lens[i := m - 1], m);
      } else {
        var j :| 0 <= j < |lens| && j != i && lens[j] == m;
        lens' := TwoDeepest(weights, lens, m, if i < j then i else j, if i < j then j else i);
        m' := m;
      }
    }
  }

  lemma TwoDeepest(weights: seq<nat>, lens: seq<nat>, m: nat, i: nat, j: nat) returns (lens': seq<nat>)
    requires |weights| == |lens| && i < j < |lens| && Feasible(lens, m) && lens[i] == m == lens[j]
    requires forall k :: 2 <= k < |weights| ==> weights[0] <= weights[k] && weights[1] <= weights[k]
    ensures |lens'| == |lens| && Feasible(lens', m) && lens'[0] == lens'[1] == m
    ensures Cost(weights, lens') <= Cost(weights, lens)
  {
    lens' := lens;
    if i == 1 {
      lens' := Exchange(weights, lens, m, 0, j);
    } else {
      if i != 0 {
        lens' := Exchange(weights, lens, m, 0, i);
      }
      if j != 1 {
        lens' := Exchange(weights, lens', m, 1, j);
      }
    }
  }

  /** Merging the two lightest weights: a bound for the merged weights gives one for the weights before. */
  lemma MergeStep(a: nat, b: nat, rest: seq<nat>, c: nat)
    requires forall k :: 0 <= k < |rest| ==> a <= rest[k] && b <= rest[k]
    requires LowerBound([a + b] + rest, c)
    ensures LowerBound([a, b] + rest, c + a + b)
  {
    var weights := [a, b] + rest;
    var total := c + a + b;
    forall lens: seq<nat>, m: nat ensures BoundAt(weights, total, lens, m) {
      if |lens| == |weights| && Feasible(lens, m) {
        var deep, d := LightestDeepest(weights, lens, m);
        assert deep == [d, d] + deep[2..];
        MergeDeepest(a, b, rest, c, d, deep[2..]);
      }
    }
  }

  lemma MergeDeepest(a: nat, b: nat, rest: seq<nat>, c: nat, d: nat, tail: seq<nat>)
    requires LowerBound([a + b] + rest, c)
    requires |rest| == |tail| && d >= 1 && Feasible([d, d] + tail, d)
    ensures Cost([a, b] + rest, [d, d] + tail) >= c + a + b
  {
    MergeFeasible(d, tail);
    MergeCost(a, b, rest, d, tail);
    assert BoundAt([a + b] + rest, c, [d - 1] + tail, d);
  }

  lemma MergeCost(a: nat, b: nat, rest: seq<nat>, d: nat, tail: seq<nat>)
    requires |rest| == |tail| && d >= 1
    ensures Cost([a, b] + rest, [d, d] + tail) == Cost([a + b] + rest, [d - 1] + tail) + a + b
  {
    assert [a, b] + rest == [a] + ([b] + rest) && [d, d] + tail == [d] + ([d] + tail);
    ConsCost(a, [b] + rest, d, [d] + tail);
    ConsCost(b, rest, d, tail);
    ConsCost(a + b, rest, d - 1, tail);
    Distribute(a, b, d);
  }

  lemma Distribute(a: nat, b: nat, d: nat)
    requires d >= 1
    ensures (a + b) * (d - 1) + a + b == a * d + b * d
  {
  }

  lemma MergeFeasible(d: nat, tail: seq<nat>)
    requires d >= 1 && Feasible([d, d] + tail, d)
    ensures forall i :: 0 <= i < |tail| ==> tail[i] <= d
    ensures Feasible([d - 1] + tail, d)
  {
    forall i | 0 <= i < |tail| ensures tail[i] <= d {
      assert ([d, d] + tail)[i + 2] <= d;
    }
    assert [d, d] + tail == [d] + ([d] + tail);
    ConsSum(d, [d] + tail, d);
    ConsSum(d, tail, d);
    ConsSum(d - 1, tail, d);
    assert Pow2(1) == 2 * Pow2(0) == 2;
  }

  lemma ConsCost(w: nat, rest: seq<nat>, l: nat, tail: seq<nat>)
    requires |rest| == |tail|
    ensures Cost([w] + rest, [l] + tail) == w * l + Cost(rest, tail)
  {
    assert ([w] + rest)[1..] == rest && ([l] + tail)[1..] == tail;
  }

  lemma ConsSum(l: nat, tail: seq<nat>, m: nat)
    requires l <= m && forall i :: 0 <= i < |tail| ==> tail[i] <= m
    ensures KraftSum([l] + tail, m) == Pow2(m - l) + KraftSum(tail, m)
  {
    assert ([l] + tail)[1..] == tail;
  }

  // ---- the order of the weights does not matter ----

  lemma {:induction false} CostRemove(weights: seq<nat>, lens: seq<nat>, j: nat)
    requires |weights| == |lens| && j < |lens|
    ensures Cost(weights, lens) == weights[j] * lens[j] + Cost(weights[..j] + weights[j + 1..], lens[..j] + lens[j + 1..])
  {
    if j == 0 {
      assert weights[..j] + weights[j + 1..] == weights[1..] && lens[..j] + lens[j + 1..] == lens[1..];
    } else {
      CostRemove(weights[1..], lens[1..], j - 1);
      var w, l := weights[..j] + weights[j + 1..], lens[..j] + lens[j + 1..];
      assert w[1..] == weights[1..][..j - 1] + weights[1..][j..];
      assert l[1..] == lens[1..][..j - 1] + lens[1..][j..];
    }
  }

  lemma {:induction false} SumRemove(lens: seq<nat>, m: nat, j: nat)
    requires j < |lens| && forall i :: 0 <= i < |lens| ==> lens[i] <= m
    ensures KraftSum(lens, m) == Pow2(m - lens[j]) + KraftSum(lens[..j] + lens[j + 1..], m)
  {
    if j == 0 {
      assert lens[..j] + lens[j + 1..] == lens[1..];
    } else {
      SumRemove(lens[1..], m, j - 1);
      var l := lens[..j] + lens[j + 1..];
      assert l[1..] == lens[1..][..j - 1] + lens[1..][j..];
    }
  }

  lemma RemoveBoth(from: seq<nat>, j: nat, target: seq<nat>)
    requires target != [] && j < |from| && from[j] == target[0] && multiset(from) == multiset(target)
    ensures multiset(from[..j] + from[j + 1..]) == multiset(target[1..])
  {
    assert from == from[..j] + [from[j]] + from[j + 1..];
    assert target == [target[0]] + target[1..];
    assert multiset(from) == multiset(from[..j] + from[j + 1..]) + multiset{from[j]};
    assert multiset(target) == multiset(target[1..]) + multiset{target[0]};
    var x := from[..j] + from[j + 1..];
    assert multiset(x) == multiset(from) - multiset{from[j]};
    assert multiset(target[1..]) == multiset(target) - multiset{target[0]};
  }

  lemma {:induction false} Reorder(from: seq<nat>, lens: seq<nat>, m: nat, target: seq<nat>) returns (lens': seq<nat>)
    requires |from| == |lens| && multiset(from) == multiset(target)
    requires forall i :: 0 <= i < |lens| ==> lens[i] <= m
    ensures |lens'| == |target| && Cost(target, lens') == Cost(from, lens)
    ensures (forall i :: 0 <= i < |lens'| ==> lens'[i] <= m) && KraftSum(lens', m) == KraftSum(lens, m)
    decreases target
  {
    if target == [] {
      assert |multiset(from)| == 0;
      lens' := lens;
    } else {
      assert target[0] in multiset(from);
      var j :| 0 <= j < |from| && from[j] == target[0];
      RemoveBoth(from, j, target);
      var rest := Reorder(from[..j] + from[j + 1..], lens[..j] + lens[j + 1..], m, target[1..]);
      CostRemove(from, lens, j);
      SumRemove(lens, m, j);
      lens' := [lens[j]] + rest;
      assert lens'[1..] == rest;
    }
  }

  lemma ReorderBound(from: seq<nat>, target: seq<nat>, c: nat)
    requires multiset(from) == multiset(target) && LowerBound(from, c)
    ensures LowerBound(target, c)
  {
    SameLength(from, target);
    forall lens: seq<nat>, m: nat ensures BoundAt(target, c, lens, m) {
      if |lens| == |target| && Feasible(lens, m) {
        var lens' := Reorder(target, lens, m, from);
        assert BoundAt(from, c, lens', m);
      }
    }
  }

  lemma SameLength(from: seq<nat>, target: seq<nat>)
    requires multiset(from) == multiset(target)
    ensures |from| == |target|
  {
    assert |multiset(from)| == |from| && |multiset(target)| == |target|;
  }
}
