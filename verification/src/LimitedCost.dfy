/**
  What limiting the code lengths costs: the limited code takes at most 2(n - 1)/540 bits per symbol more than the best code
  without a limit, and so than any prefix code.
 */
module LimitedCosts {
  import opened Bits
  import opened Canonical
  import opened Kraft
  import opened MergeTrace
  import opened MergeLevels
  import opened MinRedundancy
  import opened CodeSizeLimit
  import opened LengthCounts

  const LIMIT: nat := 15

  /** What a code of length l leaves free when it gets the maximum length, in units of 2^-15. */
  function Gain(l: nat): nat {
    if l < LIMIT then Pow2(LIMIT - l) - 1 else 0
  }

  function GainSum(lens: seq<nat>): nat {
    if lens == [] then 0 else GainSum(lens[..|lens| - 1]) + Gain(lens[|lens| - 1])
  }

  /** Making a code of length l longer costs little for what it frees: its weight is small. */
  lemma FibGain(l: nat)
    requires 1 <= l < LIMIT
    ensures 540 * (LIMIT - l) <= Fib(l + 1) * Gain(l)
  {
    Pow2Values();
    assert Fib(2) == 1 && Fib(3) == 2 && Fib(4) == 3 && Fib(5) == 5;
    assert Fib(6) == 8 && Fib(7) == 13;
    assert Fib(8) == 21 && Fib(9) == 34;
    assert Fib(10) == 55 && Fib(11) == 89;
    assert Fib(12) == 144 && Fib(13) == 233;
    assert Fib(14) == 377 && Fib(15) == 610;
    assert Pow2(6) == 64 && Pow2(11) == 2048 && Pow2(12) == 4096 && Pow2(14) == 16384;
  }

  lemma OneRaised(w: nat, l: nat, l': nat, total: nat)
    requires 1 <= l && l' <= LIMIT && w * Fib(l + 1) <= total
    ensures 540 * (w * l') <= 540 * (w * l) + (if l' > l then total * Gain(l) else 0)
  {
    hide Fib, Gain;
    if l' > l {
      FibGain(l);
      Chain(w, l' - l, LIMIT - l, Fib(l + 1), Gain(l), total);
      Split(w, l, l' - l);
    } else {
      Scale(w, l', l);
    }
  }

  lemma Chain(w: nat, x: nat, y: nat, f: nat, g: nat, total: nat)
    requires x <= y && 540 * y <= f * g && w * f <= total
    ensures 540 * (w * x) <= total * g
  {
    Scale(w, x, y);
    Scale(w, 540 * y, f * g);
    Scale(g, w * f, total);
    Shuffle(w, y, f, g);
  }

  lemma Shuffle(w: nat, y: nat, f: nat, g: nat)
    ensures w * (540 * y) == 540 * (w * y) && w * (f * g) == (w * f) * g
  {
  }

  lemma Split(w: nat, x: nat, y: nat)
    ensures w * (x + y) == w * x + w * y
  {
  }

  lemma Scale(w: nat, x: int, y: int)
    requires x <= y
    ensures w * x <= w * y && x * w <= y * w
  {
  }

  /** The gains of those lengths that have become longer. */
  function Raised(lens: seq<nat>, lens': seq<nat>): nat
    requires |lens| == |lens'|
  {
    if lens == [] then 0 else (if lens'[0] > lens[0] then Gain(lens[0]) else 0) + Raised(lens[1..], lens'[1..])
  }

  lemma {:induction false} RaisedCost(w: seq<nat>, lens: seq<nat>, lens': seq<nat>, total: nat)
    requires |w| == |lens| == |lens'|
    requires forall i :: 0 <= i < |w| ==> lens[i] >= 1 && lens'[i] <= LIMIT && w[i] * Fib(lens[i] + 1) <= total
    ensures 540 * Cost(w, lens') <= 540 * Cost(w, lens) + total * Raised(lens, lens')
  {
    hide Gain, Fib;
    if w != [] {
      RaisedCost(w[1..], lens[1..], lens'[1..], total);
      OneRaised(w[0], lens[0], lens'[0], total);
      Split(total, if lens'[0] > lens[0] then Gain(lens[0]) else 0, Raised(lens[1..], lens'[1..]));
    }
  }

  lemma {:induction false} RaisedAppend(lens: seq<nat>, lens': seq<nat>)
    requires |lens| == |lens'| > 0
    ensures var n := |lens| - 1;
      Raised(lens, lens') == Raised(lens[..n], lens'[..n]) + (if lens'[n] > lens[n] then Gain(lens[n]) else 0)
  {
    var n := |lens| - 1;
    if n > 0 {
      RaisedAppend(lens[1..], lens'[1..]);
      assert lens[..n][1..] == lens[1..][..n - 1] && lens'[..n][1..] == lens'[1..][..n - 1];
    }
  }

  /** If only the first k lengths have become longer, their gains are at most all gains of these. */
  lemma {:induction false} RaisedBound(lens: seq<nat>, lens': seq<nat>, k: nat)
    requires |lens| == |lens'| && k <= |lens| && forall p :: k <= p < |lens| ==> lens'[p] <= lens[p]
    ensures Raised(lens, lens') <= GainSum(lens[..k])
    decreases |lens|
  {
    if lens != [] {
      var n := |lens| - 1;
      RaisedAppend(lens, lens');
      if k == |lens| {
        RaisedBound(lens[..n], lens'[..n], n);
        assert lens[..n][..n] == lens[..n] && lens[..k] == lens && lens[..k][..n] == lens[..n];
      } else {
        RaisedBound(lens[..n], lens'[..n], k);
        assert lens[..n][..k] == lens[..k];
      }
    }
  }

  lemma {:induction false} GainSame(lens: seq<nat>, a: nat, b: nat, l: nat)
    requires a <= b <= |lens| && forall p :: a <= p < b ==> Gain(lens[p]) == Gain(l)
    ensures GainSum(lens[..b]) == GainSum(lens[..a]) + (b - a) * Gain(l)
  {
    hide Gain;
    if a < b {
      GainSame(lens, a, b - 1, l);
      assert lens[..b][..b - 1] == lens[..b - 1];
      MulDist(b - 1 - a, Gain(l));
    }
  }

  /** All gains of the lengths from d + 1 on. */
  lemma {:induction false} GainsAbove(num: seq<int>, lens: seq<nat>, d: nat)
    requires CountsOf(num, lens, 32) && Descending(lens) && (forall i :: 0 <= i < |lens| ==> lens[i] >= 1) && d < LIMIT
    ensures 0 <= CodesUpTo(num, d) <= |lens|
    ensures GainSum(lens[..|lens| - CodesUpTo(num, d)]) == Freed(num, d, LIMIT)
    decreases LIMIT - d
  {
    hide Gain, GainSum, Count;
    RanksOfLength(num, lens, d);
    var n := |lens|;
    var a := n - CodesUpTo(num, d);
    if d + 1 == LIMIT {
      NoGain(lens, a);
    } else {
      GainsAbove(num, lens, d + 1);
      RanksOfLength(num, lens, d + 1);
      var b := n - CodesUpTo(num, d + 1);
      GainSame(lens, b, a, d + 1);
      GainIs(d + 1);
    }
  }

  lemma GainIs(l: nat)
    requires l < LIMIT
    ensures Gain(l) == Pow2(LIMIT - l) - 1
  {
  }

  lemma NoGain(lens: seq<nat>, a: nat)
    requires a <= |lens| && forall p :: 0 <= p < a ==> lens[p] >= LIMIT
    ensures GainSum(lens[..a]) == 0
  {
    GainSame(lens, 0, a, LIMIT);
    assert lens[..0] == [];
  }

  /** The length of rank p is the one that the counts give it. */
  predicate AtRank(num: seq<int>, n: nat, p: nat, l: nat) {
    1 <= l < |num| && n - CodesUpTo(num, l) <= p < n - CodesUpTo(num, l - 1)
  }

  /** Lengths that the counts leave alone. */
  lemma NotRaised(num0: seq<int>, num: seq<int>, lens: seq<nat>, p: nat, l': nat, base: nat)
    requires CountsOf(num0, lens, 32) && Descending(lens) && (forall i :: 0 <= i < |lens| ==> lens[i] >= 1)
    requires |num0| == |num| == 33 && 1 <= base <= LIMIT && NonNegative(num) && forall k :: 1 <= k < base ==> num[k] == num0[k]
    requires p < |lens| && AtRank(num, |lens|, p, l') && l' <= LIMIT
    requires lens[p] < base || (base < LIMIT && lens[p] == base && p >= |lens| - CodesUpTo(num, base)) || lens[p] >= LIMIT
    ensures l' <= lens[p]
  {
    if lens[p] < LIMIT && l' > lens[p] {
      RanksOfLength(num0, lens, lens[p]);
      if lens[p] < base {
        SameBelow(num0, num, lens[p]);
      }
      MoreCodes(num, lens[p], l' - 1);
    }
  }

  /** All that has been raised is among the first ranks. */
  lemma RaisedRanks(num0: seq<int>, num: seq<int>, lens: seq<nat>, lens': seq<nat>, base: nat)
    returns (k: nat)
    requires CountsOf(num0, lens, 32) && Descending(lens) && (forall i :: 0 <= i < |lens| ==> lens[i] >= 1)
    requires |num0| == |num| == 33 && NonNegative(num) && |lens| >= 2 && |lens'| == |lens|
    requires Limited(num0, num, base, LIMIT, |lens|)
    requires forall p :: 0 <= p < |lens| ==> lens'[p] <= LIMIT && AtRank(num, |lens|, p, lens'[p])
    ensures k <= |lens| && (forall p :: k <= p < |lens| ==> lens'[p] <= lens[p])
    ensures GainSum(lens[..k]) <= 2 * (|lens| - 1)
  {
    var n := |lens|;
    if base == LIMIT {
      k := 0;
      assert lens[..0] == [];
      forall p | 0 <= p < n ensures lens'[p] <= lens[p] {
        NotRaised(num0, num, lens, p, lens'[p], base);
      }
    } else {
      RanksOfLength(num0, lens, base);
      RanksOfLength(num0, lens, base - 1);
      GainsAbove(num0, lens, base);
      SameBelow(num0, num, base - 1);
      assert num0[base] == Count(lens, base);
      var a := n - CodesUpTo(num0, base);
      k := n - CodesUpTo(num, base);
      GainSame(lens, a, k, base);
      forall p | k <= p < n ensures lens'[p] <= lens[p] {
        NotRaised(num0, num, lens, p, lens'[p], base);
      }
    }
  }

  /** The limited code is not much worse than the best one. */
  lemma LimitCosts(w: seq<nat>, lens: seq<nat>, lens': seq<nat>, num0: seq<int>, num: seq<int>, base: nat)
    requires |w| == |lens| == |lens'| >= 2 && Light(w, lens)
    requires CountsOf(num0, lens, 32) && Descending(lens) && (forall i :: 0 <= i < |lens| ==> lens[i] >= 1)
    requires |num0| == |num| == 33 && NonNegative(num) && Limited(num0, num, base, LIMIT, |lens|)
    requires forall p :: 0 <= p < |lens| ==> lens'[p] <= LIMIT && AtRank(num, |lens|, p, lens'[p])
    ensures 540 * Cost(w, lens') <= 540 * Cost(w, lens) + Sum(w) * (2 * (|w| - 1))
  {
    var k := RaisedRanks(num0, num, lens, lens', base);
    RaisedBound(lens, lens', k);
    RaisedCost(w, lens, lens', Sum(w));
    Scale(Sum(w), Raised(lens, lens'), 2 * (|w| - 1));
  }
}
