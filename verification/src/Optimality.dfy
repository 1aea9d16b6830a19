/** The lengths the encoder chooses, compared with those of any prefix code. */
module Optimality {
  import opened Kraft
  import opened MergeTrace
  import opened Canonical
  import opened MinRedundancy
  import opened SymbolSort
  import opened EncoderTables
  import opened PrefixCodes

  function Longest(words: seq<seq<bool>>): (m: nat)
    ensures AtMost(words, m)
  {
    if words == [] then 0
    else
      var m := Longest(words[1..]);
      if |words[0]| > m then |words[0]| else m
  }

  /** No prefix code is cheaper than one with the lengths of the minimum redundancy algorithm. */
  lemma BestPrefixCode(w: seq<nat>, lens: seq<nat>, words: seq<seq<bool>>)
    requires Cheapest(w, lens) && PrefixCode(words) && |words| == |w|
    ensures Cost(w, lens) <= Cost(w, Lengths(words))
  {
    KraftInequality(words, Longest(words));
    assert BoundAt(w, Cost(w, lens), Lengths(words), Longest(words));
  }

  /** The words of the symbols that occur. */
  function UsedWords(count: seq<nat>, words: seq<seq<bool>>): (r: seq<seq<bool>>)
    requires |words| == |count|
  {
    UsedSymsBelow(count, |count|);
    var s := UsedSyms(count, |count|);
    seq(|s|, p requires 0 <= p < |s| => words[s[p].sym])
  }

  lemma UsedWordLengths(count: seq<nat>, words: seq<seq<bool>>)
    requires |words| == |count|
    ensures Lengths(UsedWords(count, words)) == UsedLens(count, Lengths(words))
  {
    hide UsedSyms;
    UsedSymsBelow(count, |count|);
  }

  /** A prefix code for the symbols that occur is hardly cheaper than the length-limited one. */
  lemma NearlyBestPrefixCode(count: seq<nat>, sizes: seq<nat>, words: seq<seq<bool>>)
    requires NearlyBest(count, sizes) && |words| == |count| == |sizes| && PrefixCode(UsedWords(count, words))
    ensures 540 * Cost(count, sizes) <= 540 * Cost(count, Lengths(words)) + Sum(count) * (2 * (Used(count) - 1))
  {
    hide UsedSyms, UsedWords, UsedLens, Cost, Sum, Used, Feasible, PrefixCode;
    var used := UsedWords(count, words);
    KraftInequality(used, Longest(used));
    UsedWordLengths(count, words);
    assert NotMuchWorse(count, sizes, Lengths(words), Longest(used));
  }
}
