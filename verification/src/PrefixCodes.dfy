/** Kraft's inequality: the lengths of every prefix code are feasible. */
module PrefixCodes {
  import opened Bits
  import opened Kraft

  predicate Incomparable(a: seq<bool>, b: seq<bool>) {
    !(a <= b) && !(b <= a)
  }

  /** No code word is a prefix of another one. */
  ghost predicate PrefixCode(words: seq<seq<bool>>) {
    forall i, j :: 0 <= i < j < |words| ==> Incomparable(words[i], words[j])
  }

  function Lengths(words: seq<seq<bool>>): (lens: seq<nat>)
    ensures |lens| == |words| && forall i :: 0 <= i < |words| ==> lens[i] == |words[i]|
  {
    seq(|words|, i requires 0 <= i < |words| => |words[i]|)
  }

  /** What follows the first bit b, for the words that start with it. */
  function Tails(words: seq<seq<bool>>, b: bool): seq<seq<bool>> {
    if words == [] then []
    else (if words[0] != [] && words[0][0] == b then [words[0][1..]] else []) + Tails(words[1..], b)
  }

  lemma {:induction false} TailsFrom(words: seq<seq<bool>>, b: bool, t: seq<bool>)
    requires t in Tails(words, b)
    ensures [b] + t in words
  {
    if words[0] != [] && words[0][0] == b && t == words[0][1..] {
      assert [b] + t == words[0];
    } else {
      TailsFrom(words[1..], b, t);
    }
  }

  lemma {:induction false} TailsPrefixCode(words: seq<seq<bool>>, b: bool)
    requires PrefixCode(words)
    ensures PrefixCode(Tails(words, b))
  {
    if words != [] {
      TailsPrefixCode(words[1..], b);
      var rest := Tails(words[1..], b);
      if words[0] != [] && words[0][0] == b {
        var t := words[0][1..];
        forall k | 0 <= k < |rest| ensures Incomparable(t, rest[k]) {
          TailsFrom(words[1..], b, rest[k]);
          var j :| 0 <= j < |words[1..]| && words[1..][j] == [b] + rest[k];
          assert Incomparable(words[0], words[j + 1]);
          assert words[0] == [b] + t;
          ConsIncomparable(b, t, rest[k]);
        }
        assert Tails(words, b) == [t] + rest;
      }
    }
  }

  lemma ConsIncomparable(b: bool, t: seq<bool>, u: seq<bool>)
    requires Incomparable([b] + t, [b] + u)
    ensures Incomparable(t, u)
  {
    assert t <= u ==> [b] + t <= [b] + u;
    assert u <= t ==> [b] + u <= [b] + t;
  }

  predicate AtMost(words: seq<seq<bool>>, m: nat) {
    forall i :: 0 <= i < |words| ==> |words[i]| <= m
  }

  lemma {:induction false} TailsAtMost(words: seq<seq<bool>>, b: bool, m: nat)
    requires m >= 1 && AtMost(words, m)
    ensures AtMost(Tails(words, b), m - 1)
  {
    if words != [] {
      TailsAtMost(words[1..], b, m);
    }
  }

  function WordSum(words: seq<seq<bool>>, m: nat): nat
    requires AtMost(words, m)
  {
    if words == [] then 0 else Pow2(m - |words[0]|) + WordSum(words[1..], m)
  }

  lemma {:induction false} WordSumIsKraftSum(words: seq<seq<bool>>, m: nat)
    requires AtMost(words, m)
    ensures WordSum(words, m) == KraftSum(Lengths(words), m)
  {
    if words != [] {
      WordSumIsKraftSum(words[1..], m);
      assert Lengths(words)[1..] == Lengths(words[1..]);
    }
  }

  lemma {:induction false} SplitSum(words: seq<seq<bool>>, m: nat)
    requires m >= 1 && AtMost(words, m) && forall i :: 0 <= i < |words| ==> words[i] != []
    ensures AtMost(Tails(words, false), m - 1) && AtMost(Tails(words, true), m - 1)
    ensures WordSum(words, m) == WordSum(Tails(words, false), m - 1) + WordSum(Tails(words, true), m - 1)
  {
    TailsAtMost(words, false, m);
    TailsAtMost(words, true, m);
    if words != [] {
      SplitSum(words[1..], m);
      var b := words[0][0];
      ConsTails(words, b);
      ConsSum(words[0][1..], Tails(words[1..], b), m - 1);
    }
  }

  lemma ConsTails(words: seq<seq<bool>>, b: bool)
    requires words != [] && words[0] != [] && words[0][0] == b
    ensures Tails(words, b) == [words[0][1..]] + Tails(words[1..], b)
    ensures Tails(words, !b) == Tails(words[1..], !b)
  {
  }

  lemma ConsSum(word: seq<bool>, words: seq<seq<bool>>, m: nat)
    requires |word| <= m && AtMost(words, m)
    ensures AtMost([word] + words, m) && WordSum([word] + words, m) == Pow2(m - |word|) + WordSum(words, m)
  {
    assert ([word] + words)[1..] == words;
  }

  lemma {:induction false} WordSumBound(words: seq<seq<bool>>, m: nat)
    requires PrefixCode(words) && AtMost(words, m)
    ensures WordSum(words, m) <= Pow2(m)
    decreases m
  {
    if i :| 0 <= i < |words| && words[i] == [] {
      OnlyEmptyWord(words, i);
      assert WordSum(words[1..], m) == 0;
    } else if words != [] {
      assert words[0] != [];
      SplitSum(words, m);
      TailsPrefixCode(words, false);
      TailsPrefixCode(words, true);
      WordSumBound(Tails(words, false), m - 1);
      WordSumBound(Tails(words, true), m - 1);
    }
  }

  lemma OnlyEmptyWord(words: seq<seq<bool>>, i: nat)
    requires PrefixCode(words) && i < |words|
    ensures words[i] == [] ==> |words| == 1
  {
    if i > 0 {
      assert Incomparable(words[0], words[i]);
    } else if |words| > 1 {
      assert Incomparable(words[i], words[1]);
    }
  }

  lemma KraftInequality(words: seq<seq<bool>>, m: nat)
    requires PrefixCode(words) && AtMost(words, m)
    ensures Feasible(Lengths(words), m)
  {
    WordSumBound(words, m);
    WordSumIsKraftSum(words, m);
  }
}
