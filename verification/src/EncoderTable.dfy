/** tdefl_optimize_huffman_table: from symbol counts to code sizes and reversed codes. */
module EncoderTables {
  import opened Bits
  import opened Canonical
  import opened Kraft
  import opened MergeTrace
  import opened MinRedundancy
  import opened RadixSort
  import opened SymbolSort
  import opened CodeSizeLimit
  import opened LengthCounts
  import opened LimitedCosts

  const MAX_HUFF_SYMBOLS: nat := 288

  // ---- counts per length ----

  lemma {:induction false} KraftIsEndCode(lens: seq<nat>, m: nat)
    requires m >= 1 && forall i :: 0 <= i < |lens| ==> 1 <= lens[i] <= m
    ensures EndCode(lens, m) == KraftSum(lens, m)
  {
    if lens == [] {
      NoneFit(m);
    } else {
      var n := |lens| - 1;
      KraftIsEndCode(lens[..n], m);
      KraftLast(lens, m);
      SumRemove(lens, m, n);
      assert lens[..n] + lens[n + 1..] == lens[..n];
    }
  }

  /** Being complete does not depend on the unit. */
  lemma {:induction false} CompleteAt(lens: seq<nat>, l: nat, m: nat)
    requires 1 <= l <= m && forall i :: 0 <= i < |lens| ==> lens[i] <= l
    ensures EndCode(lens, l) == Pow2(l) <==> EndCode(lens, m) == Pow2(m)
  {
    if l < m {
      CompleteAt(lens, l, m - 1);
      NotCounted(lens, m);
    }
  }

  lemma {:induction false} AllUsed(lens: seq<nat>)
    requires forall i :: 0 <= i < |lens| ==> lens[i] >= 1
    ensures Used(lens) == |lens|
  {
    if lens != [] {
      AllUsed(lens[..|lens| - 1]);
    }
  }

  /** The lengths of an unlimited optimal code, as counts up to 32. */
  lemma UnlimitedCounts(num: seq<int>, keys: seq<nat>)
    requires CountsOf(num, keys, 32) && forall i :: 0 <= i < |keys| ==> 1 <= keys[i] <= 22
    ensures CodesUpTo(num, 32) == |keys|
    ensures |keys| >= 2 && CompleteLengths(keys) ==> KraftUpTo(num, 32) == Pow2(32)
  {
    CountsSums(num, keys, 32);
    AllUsed(keys);
    UsedIsUsedUpTo(keys, 32);
    if |keys| >= 2 && CompleteLengths(keys) {
      var n := |keys|;
      KraftIsEndCode(keys, n);
      if n <= 32 {
        CompleteAt(keys, n, 32);
      } else {
        CompleteAt(keys, 32, n);
      }
    }
  }

  lemma {:induction false} CountUpdate(lens: seq<nat>, s: nat, v: nat, l: nat)
    requires s < |lens|
    ensures Count(lens[s := v], l) + (if lens[s] == l then 1 else 0) == Count(lens, l) + (if v == l then 1 else 0)
  {
    var n := |lens| - 1;
    if s == n {
      assert lens[s := v][..n] == lens[..n];
    } else {
      CountUpdate(lens[..n], s, v, l);
      assert lens[s := v][..n] == lens[..n][s := v];
    }
  }

  // ---- handing out sizes by rank ----

  /** The symbols ranked from j on have sizes up to i, the more frequent ones not longer; the others have none yet. */
  ghost predicate SizesByRank(t: seq<SymFreq>, sizes: seq<nat>, j: nat, i: nat) {
    && j <= |t|
    && (forall p :: 0 <= p < |t| ==> t[p].sym < |sizes|)
    && (forall p :: j <= p < |t| ==> 1 <= sizes[t[p].sym] <= i)
    && (forall s :: 0 <= s < |sizes| && sizes[s] > 0 ==> HasRank(t, s, j))
    && (forall p, q :: j <= p <= q < |t| ==> sizes[t[p].sym] >= sizes[t[q].sym])
  }

  ghost predicate HasRank(t: seq<SymFreq>, s: nat, j: nat) {
    exists p :: j <= p < |t| && t[p].sym == s
  }

  lemma GiveSize(t: seq<SymFreq>, sizes: seq<nat>, j: nat, i: nat)
    requires SizesByRank(t, sizes, j, i) && j >= 1 && i >= 1
    requires forall p, q :: 0 <= p < q < |t| ==> t[p].sym != t[q].sym
    ensures SizesByRank(t, sizes[t[j - 1].sym := i], j - 1, i) && sizes[t[j - 1].sym] == 0
  {
    var s := t[j - 1].sym;
    assert !HasRank(t, s, j);
    var sizes' := sizes[s := i];
    forall x | 0 <= x < |sizes'| && sizes'[x] > 0 ensures HasRank(t, x, j - 1) {
      if x == s {
        assert t[j - 1].sym == x;
      } else {
        assert HasRank(t, x, j);
      }
    }
  }

  /** Sizes from 1 to i handed out, as many of each as num says, except for `rest` of size i. */
  ghost predicate GivenOut(num: seq<int>, sizes: seq<nat>, limit: nat, i: nat, rest: int) {
    && limit < |num|
    && forall l :: 1 <= l <= limit ==>
         Count(sizes, l) == if l < i then num[l] else if l == i then num[l] - rest else 0
  }

  lemma GivenStep(num: seq<int>, sizes: seq<nat>, limit: nat, i: nat, rest: int, s: nat)
    requires GivenOut(num, sizes, limit, i, rest) && s < |sizes| && sizes[s] == 0 && i >= 1
    ensures GivenOut(num, sizes[s := i], limit, i, rest - 1)
  {
    forall l | 1 <= l <= limit
      ensures Count(sizes[s := i], l) == if l < i then num[l] else if l == i then num[l] - (rest - 1) else 0 {
      CountUpdate(sizes, s, i, l);
    }
  }

  lemma CleanStart(t: seq<SymFreq>, sizes: seq<nat>, num: seq<int>, limit: nat)
    requires (forall p :: 0 <= p < |t| ==> t[p].sym < |sizes|) && forall k :: 0 <= k < |sizes| ==> sizes[k] == 0
    requires limit < |num| && limit >= 1
    ensures SizesByRank(t, sizes, |t|, 0) && GivenOut(num, sizes, limit, 1, num[1])
  {
    forall l | 1 <= l <= limit ensures Count(sizes, l) == 0 {
      NotCounted(sizes, l);
    }
  }

  lemma NextLength(num: seq<int>, sizes: seq<nat>, limit: nat, i: nat)
    requires GivenOut(num, sizes, limit, i, 0) && i + 1 < |num|
    ensures GivenOut(num, sizes, limit, i + 1, num[i + 1])
  {
  }

  lemma AllGiven(num: seq<int>, sizes: seq<nat>, limit: nat)
    requires limit + 1 < |num| && GivenOut(num, sizes, limit, limit + 1, num[limit + 1])
    ensures GivenOut(num, sizes, limit, limit + 1, 0) && CountsOf(num, sizes, limit)
  {
  }

  /** The sizes given out so far are those of their ranks. */
  ghost predicate RanksGiven(t: seq<SymFreq>, sizes: seq<nat>, num: seq<int>, j: nat) {
    && j <= |t| && (forall p :: 0 <= p < |t| ==> t[p].sym < |sizes|)
    && forall p :: j <= p < |t| ==> AtRank(num, |t|, p, sizes[t[p].sym])
  }

  lemma GiveRank(t: seq<SymFreq>, sizes: seq<nat>, num: seq<int>, j: nat, i: nat)
    requires RanksGiven(t, sizes, num, j) && j >= 1 && AtRank(num, |t|, j - 1, i)
    requires forall p, q :: 0 <= p < q < |t| ==> t[p].sym != t[q].sym
    ensures RanksGiven(t, sizes[t[j - 1].sym := i], num, j - 1)
  {
  }

  // ---- how good the lengths are ----

  /** The lengths of an optimal code, and their counts before and after the maximum length is enforced. */
  ghost predicate LengthsChosen(w: seq<nat>, keys: seq<nat>, num0: seq<int>, num: seq<int>, base: nat, limit: nat) {
    |w| >= 2 ==>
      && Cheapest(w, keys) && Light(w, keys) && Descending(keys) && (forall i :: 0 <= i < |keys| ==> keys[i] >= 1)
      && CountsOf(num0, keys, 32) && |num0| == |num| == 33 && limit <= 15 && Limited(num0, num, base, limit, |keys|)
  }

  /** For n used symbols, the sizes cost at most 2(n - 1)/540 bits per symbol more than any that satisfy Kraft's inequality. */
  ghost predicate NearlyBest(count: seq<nat>, sizes: seq<nat>) {
    forall lens: seq<nat>, m: nat :: NotMuchWorse(count, sizes, lens, m)
  }

  predicate NotMuchWorse(count: seq<nat>, sizes: seq<nat>, lens: seq<nat>, m: nat) {
    |count| == |sizes| == |lens| && Feasible(UsedLens(count, lens), m) ==>
      540 * Cost(count, sizes) <= 540 * Cost(count, lens) + Sum(count) * (2 * (Used(count) - 1))
  }

  lemma ChosenNearlyBest(count: seq<nat>, t: seq<SymFreq>, sizes: seq<nat>, keys: seq<nat>, num0: seq<int>, num: seq<int>, base: nat)
    requires Ranked(count, t) && |t| >= 2 && Sum(Keys(t)) == Sum(count) && |sizes| == |count|
    requires LengthsChosen(Keys(t), keys, num0, num, base, LIMIT) && NonNegative(num)
    requires RanksGiven(t, sizes, num, 0) && forall p :: 0 <= p < |t| ==> sizes[t[p].sym] <= LIMIT
    ensures NearlyBest(count, sizes)
  {
    hide Sum, Cost, KraftSum, Pow2, Light, Limited, AtRank, Ranked, CountsOf, Used, Feasible;
    RankedDistinct(count, t);
    var w := Keys(t);
    LimitCosts(w, keys, RankLens(t, sizes), num0, num, base);
    RankedCost(count, t, sizes);
    forall lens: seq<nat>, m: nat ensures NotMuchWorse(count, sizes, lens, m) {
      if |count| == |lens| && Feasible(UsedLens(count, lens), m) {
        RankedFeasible(count, t, lens, m);
        RankedCost(count, t, lens);
        assert BoundAt(w, Cost(w, keys), RankLens(t, lens), m);
      }
    }
  }

  // ---- what the table means ----

  /** The sizes the encoder chooses for these counts. */
  ghost predicate SizesFor(count: seq<nat>, sizes: seq<nat>, limit: nat)
    requires limit >= 1
  {
    && |sizes| == |count|
    && (forall s :: 0 <= s < |sizes| ==> sizes[s] <= limit && (sizes[s] > 0 <==> count[s] > 0))
    && (forall s, t :: 0 <= s < |sizes| && 0 <= t < |sizes| && count[s] > count[t] > 0 ==> sizes[s] <= sizes[t])
    && (Used(count) >= 2 ==> EndCode(sizes, limit) == Pow2(limit))
    && (Used(count) == 1 ==> forall s :: 0 <= s < |sizes| ==> sizes[s] <= 1)
  }

  /** Every symbol with a size has its canonical code, reversed. */
  ghost predicate CodesFor(sizes: seq<nat>, codes: seq<nat>, i: nat) {
    && i <= |sizes| <= |codes|
    && forall s :: 0 <= s < i && sizes[s] > 0 ==> codes[s] == FromBits(CodeBits(sizes, s))
  }

  lemma CodesForStep(sizes: seq<nat>, codes: seq<nat>, i: nat, c: nat)
    requires CodesFor(sizes, codes, i) && i < |sizes| && sizes[i] > 0 && c == FromBits(CodeBits(sizes, i))
    ensures CodesFor(sizes, codes[i := c], i + 1)
  {
  }

  lemma RankSizes(count: seq<nat>, t: seq<SymFreq>, sizes: seq<nat>, num: seq<int>, limit: nat)
    requires Ranked(count, t) && |sizes| == |count| && 1 <= limit <= 15
    requires SizesByRank(t, sizes, 0, limit) && GivenOut(num, sizes, limit, limit + 1, 0)
    requires |t| >= 2 ==> KraftUpTo(num, limit) == Pow2(limit)
    requires |t| == 1 ==> num[1] == 1
    ensures SizesFor(count, sizes, limit)
  {
    forall s | 0 <= s < |sizes| ensures sizes[s] <= limit && (sizes[s] > 0 <==> count[s] > 0) {
      if sizes[s] > 0 {
        assert HasRank(t, s, 0);
        var p :| 0 <= p < |t| && t[p].sym == s;
        assert t[p] in t;
      }
      if count[s] > 0 {
        var p := RankOf(count, t, s);
        assert sizes[t[p].sym] >= 1;
      }
    }
    forall s, u | 0 <= s < |sizes| && 0 <= u < |sizes| && count[s] > count[u] > 0 ensures sizes[s] <= sizes[u] {
      var p := RankOf(count, t, s);
      var q := RankOf(count, t, u);
      NotAfter(t, p, q);
    }
    assert CountsOf(num, sizes, limit);
    CountsSums(num, sizes, limit);
    if |t| == 1 {
      SingleSize(t, sizes);
    }
  }

  lemma NotAfter(t: seq<SymFreq>, p: nat, q: nat)
    requires KeySorted(t) && p < |t| && q < |t| && t[p].key > t[q].key
    ensures q < p
  {
  }

  lemma RankOf(count: seq<nat>, t: seq<SymFreq>, s: nat) returns (p: nat)
    requires Ranked(count, t) && s < |count| && count[s] > 0
    ensures p < |t| && t[p] == SymFreq(count[s], s)
  {
    assert RecordOk(count, SymFreq(count[s], s));
    assert SymFreq(count[s], s) in t;
    p :| 0 <= p < |t| && t[p] == SymFreq(count[s], s);
  }

  lemma SingleSize(t: seq<SymFreq>, sizes: seq<nat>)
    requires |t| == 1 && SizesByRank(t, sizes, 0, 15) && Count(sizes, 1) == 1
    ensures forall s :: 0 <= s < |sizes| ==> sizes[s] <= 1
  {
    var x := SomeOfLength(sizes, 1);
    assert HasRank(t, x, 0);
    forall s | 0 <= s < |sizes| ensures sizes[s] <= 1 {
      if sizes[s] > 0 {
        assert HasRank(t, s, 0);
      }
    }
  }

  lemma {:induction false} SomeOfLength(sizes: seq<nat>, l: nat) returns (s: nat)
    requires Count(sizes, l) > 0
    ensures s < |sizes| && sizes[s] == l
  {
    var n := |sizes| - 1;
    if sizes[n] == l {
      s := n;
    } else {
      s := SomeOfLength(sizes[..n], l);
    }
  }

  lemma {:induction false} SameUsed(count: seq<nat>, sizes: seq<nat>)
    requires |count| == |sizes| && forall s :: 0 <= s < |sizes| ==> (sizes[s] > 0 <==> count[s] > 0)
    ensures Used(count) == Used(sizes)
  {
    if sizes != [] {
      SameUsed(count[..|count| - 1], sizes[..|sizes| - 1]);
    }
  }

  /** The decoder accepts the sizes the encoder chooses. */
  lemma ChosenDecodable(count: seq<nat>, sizes: seq<nat>, limit: nat)
    requires 1 <= limit <= 15 && SizesFor(count, sizes, limit)
    ensures Decodable(sizes)
  {
    SameUsed(count, sizes);
    if Used(count) >= 2 {
      CompleteAt(sizes, limit, 15);
      Pow2Values();
    }
  }

  lemma SingleCount(num: seq<int>, keys: seq<nat>, limit: nat)
    requires CountsOf(num, keys, 32) && |keys| <= 1 && (forall i :: 0 <= i < |keys| ==> keys[i] == 1) && 1 <= limit <= 32
    ensures CodesUpTo(num, limit) == |keys| && (|keys| == 1 ==> num[1] == 1)
  {
    CountsSums(num, keys, limit);
    AllUsed(keys);
    UsedIsUsedUpTo(keys, limit);
    if |keys| == 1 {
      assert keys[..0] == [] && Count(keys, 1) == Count([], 1) + 1;
    }
  }

  /** The arrays of one of the three tables of tdefl_compressor. */
  class EncTable {
    const count: array<nat>
    const codes: array<nat>
    const codeSizes: array<nat>

    ghost predicate Valid() {
      && count.Length == codes.Length == codeSizes.Length == MAX_HUFF_SYMBOLS
      && count != codes && count != codeSizes && codes != codeSizes
    }

    constructor ()
      ensures Valid() && fresh(count) && fresh(codes) && fresh(codeSizes)
      ensures forall i :: 0 <= i < MAX_HUFF_SYMBOLS ==> count[i] == 0
    {
      count := new nat[MAX_HUFF_SYMBOLS](_ => 0);
      codes := new nat[MAX_HUFF_SYMBOLS](_ => 0);
      codeSizes := new nat[MAX_HUFF_SYMBOLS](_ => 0);
    }

    method Optimize(tableLen: nat, codeSizeLimit: nat, staticTable: bool)
      requires Valid() && tableLen <= MAX_HUFF_SYMBOLS && 1 <= codeSizeLimit <= 15
      requires staticTable ==> forall i :: 0 <= i < tableLen ==> codeSizes[i] <= codeSizeLimit
      requires !staticTable ==> Sum(count[..tableLen]) < 65536 && tableLen <= Pow2(codeSizeLimit)
      modifies codes, codeSizes
      ensures staticTable ==> codeSizes[..] == old(codeSizes[..])
      ensures !staticTable ==> SizesFor(count[..tableLen], codeSizes[..tableLen], codeSizeLimit)
      ensures !staticTable ==> Decodable(codeSizes[..tableLen])
      ensures !staticTable && codeSizeLimit == 15 && Used(count[..tableLen]) >= 2 ==>
        NearlyBest(count[..tableLen], codeSizes[..tableLen])
      ensures CodesFor(codeSizes[..tableLen], codes[..], tableLen)
    {
      var numCodes := new int[33](_ => 0);
      if staticTable {
        CountSizes(tableLen, numCodes);
      } else {
        ChooseSizes(tableLen, codeSizeLimit, numCodes);
        ChosenDecodable(count[..tableLen], codeSizes[..tableLen], codeSizeLimit);
      }
      AssignCodes(tableLen, codeSizeLimit, numCodes);
    }

    method CountSizes(tableLen: nat, numCodes: array<int>)
      requires Valid() && tableLen <= MAX_HUFF_SYMBOLS && numCodes.Length == 33
      requires forall i :: 0 <= i < tableLen ==> codeSizes[i] <= 15
      requires forall l :: 0 <= l < 33 ==> numCodes[l] == 0
      modifies numCodes
      ensures CountsOf(numCodes[..], codeSizes[..tableLen], 32)
    {
      for i := 0 to tableLen
        invariant forall l :: 0 <= l < 33 ==> numCodes[l] == Count(codeSizes[..i], l)
      {
        assert codeSizes[..i + 1][..i] == codeSizes[..i];
        numCodes[codeSizes[i]] := numCodes[codeSizes[i]] + 1;
      }
    }

    method CollectUsed(tableLen: nat, syms0: array<SymFreq>) returns (numUsed: nat)
      requires Valid() && tableLen <= MAX_HUFF_SYMBOLS == syms0.Length
      modifies syms0
      ensures numUsed <= tableLen && syms0[..numUsed] == UsedSyms(count[..tableLen], tableLen)
    {
      ghost var c := count[..tableLen];
      numUsed := 0;
      for i := 0 to tableLen
        invariant numUsed <= i && syms0[..numUsed] == UsedSyms(c, i)
      {
        if count[i] != 0 {
          syms0[numUsed] := SymFreq(count[i], i);
          numUsed := numUsed + 1;
          assert syms0[..numUsed] == syms0[..numUsed - 1] + [SymFreq(c[i], i)];
        }
      }
    }

    method ChooseSizes(tableLen: nat, codeSizeLimit: nat, numCodes: array<int>)
      requires Valid() && tableLen <= MAX_HUFF_SYMBOLS && 1 <= codeSizeLimit <= 15 && tableLen <= Pow2(codeSizeLimit)
      requires Sum(count[..tableLen]) < 65536
      requires numCodes.Length == 33 && forall l :: 0 <= l < 33 ==> numCodes[l] == 0
      modifies codes, codeSizes, numCodes
      ensures SizesFor(count[..tableLen], codeSizes[..tableLen], codeSizeLimit)
      ensures CountsOf(numCodes[..], codeSizes[..tableLen], codeSizeLimit)
      ensures codeSizeLimit == 15 && Used(count[..tableLen]) >= 2 ==> NearlyBest(count[..tableLen], codeSizes[..tableLen])
    {
      hide LengthsChosen, NearlyBest, Ranked, SizesByRank, RanksGiven, GivenOut, Sum, AtRank;
      ghost var c := count[..tableLen];
      var n, syms := SortUsed(tableLen);
      ghost var t := syms[..n];
      ghost var keys, num0, base := CodeLengths(n, syms, t, c, codeSizeLimit, numCodes);
      RankedBelow(c, t);
      RankedDistinct(c, t);
      HandOut(n, syms, t, tableLen, codeSizeLimit, numCodes);
      RankSizes(c, t, codeSizes[..tableLen], numCodes[..], codeSizeLimit);
      if codeSizeLimit == 15 && Used(c) >= 2 {
        SizesBounded(t, codeSizes[..tableLen], 15);
        ChosenNearlyBest(c, t, codeSizes[..tableLen], keys, num0, numCodes[..], base);
      }
    }

    method SortUsed(tableLen: nat) returns (n: nat, syms: array<SymFreq>)
      requires Valid() && tableLen <= MAX_HUFF_SYMBOLS && Sum(count[..tableLen]) < 65536
      ensures fresh(syms) && n <= tableLen && n <= syms.Length
      ensures Ranked(count[..tableLen], syms[..n]) && Sum(Keys(syms[..n])) == Sum(count[..tableLen]) < 65536
    {
      ghost var c := count[..tableLen];
      var syms0 := new SymFreq[MAX_HUFF_SYMBOLS](_ => SymFreq(0, 0));
      var syms1 := new SymFreq[MAX_HUFF_SYMBOLS](_ => SymFreq(0, 0));
      n := CollectUsed(tableLen, syms0);
      UsedBelow(c, syms0[..n]);
      SortRanksAll(c);
      syms := RadixSortSyms(n, syms0, syms1);
    }

    /** The keys become code lengths, and num_codes their histogram, limited to the maximum length. */
    static method CodeLengths(n: nat, syms: array<SymFreq>, ghost t: seq<SymFreq>, ghost c: seq<nat>, limit: nat,
                              numCodes: array<int>)
      returns (ghost keys: seq<nat>, ghost num0: seq<int>, ghost base: nat)
      requires n <= syms.Length && n <= 288 && t == syms[..n] && Ranked(c, t) && Sum(Keys(t)) < 65536
      requires 1 <= limit <= 15 && n <= Pow2(limit)
      requires numCodes.Length == 33 && forall l :: 0 <= l < 33 ==> numCodes[l] == 0
      modifies syms, numCodes
      ensures forall i :: 0 <= i < n ==> syms[i].sym == t[i].sym
      ensures NonNegative(numCodes[..]) && CodesUpTo(numCodes[..], limit) == n
      ensures n >= 2 ==> KraftUpTo(numCodes[..], limit) == Pow2(limit)
      ensures n == 1 ==> numCodes[1] == 1
      ensures LengthsChosen(Keys(t), keys, num0, numCodes[..], base, limit)
    {
      hide Cheapest, Light, Limited, Sum, KraftSum, Descending, Count;
      RankedOrderly(c, t);
      RankedKeys(c, t);
      CalculateMinimumRedundancy(syms, n);
      keys := Keys(syms[..n]);
      CountKeys(n, syms, numCodes);
      num0 := numCodes[..];
      base := LimitLengths(n, keys, limit, numCodes);
    }

    static method LimitLengths(n: nat, ghost keys: seq<nat>, limit: nat, numCodes: array<int>) returns (ghost base: nat)
      requires n == |keys| <= Pow2(limit) && 1 <= limit <= 15
      requires (forall i :: 0 <= i < n ==> 1 <= keys[i] <= 22) && (n == 1 ==> keys[0] == 1)
      requires n >= 2 ==> CompleteLengths(keys)
      requires numCodes.Length == 33 && NonNegative(numCodes[..]) && CountsOf(numCodes[..], keys, 32)
      modifies numCodes
      ensures NonNegative(numCodes[..]) && CodesUpTo(numCodes[..], limit) == n
      ensures n >= 2 ==> KraftUpTo(numCodes[..], limit) == Pow2(limit)
      ensures n == 1 ==> numCodes[1] == 1
      ensures n >= 2 ==> Limited(old(numCodes[..]), numCodes[..], base, limit, n)
    {
      hide Limited;
      UnlimitedCounts(numCodes[..], keys);
      base := EnforceMaxCodeSize(numCodes, n, limit);
      if n <= 1 {
        SingleCount(numCodes[..], keys, limit);
      }
    }

    static method CountKeys(n: nat, syms: array<SymFreq>, numCodes: array<int>)
      requires n <= syms.Length && numCodes.Length == 33 && forall l :: 0 <= l < 33 ==> numCodes[l] == 0
      requires forall i :: 0 <= i < n ==> syms[i].key <= 22
      modifies numCodes
      ensures CountsOf(numCodes[..], Keys(syms[..n]), 32) && NonNegative(numCodes[..])
    {
      for i := 0 to n
        invariant forall l :: 0 <= l < 33 ==> numCodes[l] == Count(Keys(syms[..i]), l)
      {
        var key := syms[i].key;
        assert syms[..i + 1] == syms[..i] + [syms[i]];
        assert Keys(syms[..i + 1]) == Keys(syms[..i]) + [key];
        assert Keys(syms[..i + 1])[..i] == Keys(syms[..i]);
        numCodes[key] := numCodes[key] + 1;
      }
    }

    /** The longest codes go to the symbols of the lowest rank. */
    method HandOut(n: nat, syms: array<SymFreq>, ghost t: seq<SymFreq>, tableLen: nat, codeSizeLimit: nat, numCodes: array<int>)
      requires Valid() && tableLen <= MAX_HUFF_SYMBOLS && 1 <= codeSizeLimit <= 15 && n == |t| <= syms.Length
      requires forall i :: 0 <= i < n ==> syms[i].sym == t[i].sym < tableLen
      requires forall p, q :: 0 <= p < q < |t| ==> t[p].sym != t[q].sym
      requires numCodes.Length == 33 && NonNegative(numCodes[..]) && CodesUpTo(numCodes[..], codeSizeLimit) == n
      requires codes as object != numCodes && codeSizes as object != numCodes
      modifies codes, codeSizes
      ensures SizesByRank(t, codeSizes[..tableLen], 0, codeSizeLimit)
      ensures GivenOut(numCodes[..], codeSizes[..tableLen], codeSizeLimit, codeSizeLimit + 1, 0)
      ensures RanksGiven(t, codeSizes[..tableLen], numCodes[..], 0) && CountsOf(numCodes[..], codeSizes[..tableLen], codeSizeLimit)
    {
      hide SizesByRank, GivenOut, AtRank;
      Clear();
      CleanStart(t, codeSizes[..tableLen], numCodes[..], codeSizeLimit);
      var j := n;
      for i: nat := 1 to codeSizeLimit + 1
        invariant 0 <= j == n - CodesUpTo(numCodes[..], i - 1)
        invariant SizesByRank(t, codeSizes[..tableLen], j, i - 1)
        invariant GivenOut(numCodes[..], codeSizes[..tableLen], codeSizeLimit, i, numCodes[i])
        invariant RanksGiven(t, codeSizes[..tableLen], numCodes[..], j)
      {
        MoreCodes(numCodes[..], i, codeSizeLimit);
        j := GiveSizes(numCodes[i], i, j, syms, t, tableLen, codeSizeLimit, numCodes[..]);
        NextLength(numCodes[..], codeSizes[..tableLen], codeSizeLimit, i);
      }
      AllGiven(numCodes[..], codeSizes[..tableLen], codeSizeLimit);
    }

    method Clear()
      requires Valid()
      modifies codes, codeSizes
      ensures forall k :: 0 <= k < MAX_HUFF_SYMBOLS ==> codeSizes[k] == 0
    {
      for s := 0 to MAX_HUFF_SYMBOLS
        invariant forall k :: 0 <= k < s ==> codeSizes[k] == 0
      {
        codeSizes[s], codes[s] := 0, 0;
      }
    }

    method GiveSizes(numOfSize: int, i: nat, from: nat, syms: array<SymFreq>, ghost t: seq<SymFreq>, tableLen: nat,
                     ghost codeSizeLimit: nat, ghost num: seq<int>) returns (j: nat)
      requires Valid() && tableLen <= MAX_HUFF_SYMBOLS && 1 <= i <= codeSizeLimit && |t| <= syms.Length
      requires forall p :: 0 <= p < |t| ==> syms[p].sym == t[p].sym < tableLen
      requires forall p, q :: 0 <= p < q < |t| ==> t[p].sym != t[q].sym
      requires 0 <= numOfSize <= from && SizesByRank(t, codeSizes[..tableLen], from, i - 1)
      requires GivenOut(num, codeSizes[..tableLen], codeSizeLimit, i, numOfSize)
      requires i < |num| && num[i] == numOfSize && from == |t| - CodesUpTo(num, i - 1)
      requires RanksGiven(t, codeSizes[..tableLen], num, from)
      modifies codeSizes
      ensures j == from - numOfSize && SizesByRank(t, codeSizes[..tableLen], j, i)
      ensures GivenOut(num, codeSizes[..tableLen], codeSizeLimit, i, 0)
      ensures RanksGiven(t, codeSizes[..tableLen], num, j)
    {
      hide GivenOut, RanksGiven, SizesByRank, Count;
      SizesSoFar(t, codeSizes[..tableLen], from, i);
      j := from;
      var l := numOfSize;
      while l > 0
        invariant 0 <= l && j == from - numOfSize + l
        invariant SizesByRank(t, codeSizes[..tableLen], j, i)
        invariant GivenOut(num, codeSizes[..tableLen], codeSizeLimit, i, l)
        invariant RanksGiven(t, codeSizes[..tableLen], num, j)
      {
        ghost var before := codeSizes[..tableLen];
        GiveSize(t, before, j, i);
        GiveRank(t, before, num, j, i);
        GivenStep(num, before, codeSizeLimit, i, l, t[j - 1].sym);
        j := j - 1;
        codeSizes[syms[j].sym] := i;
        assert codeSizes[..tableLen] == before[t[j].sym := i];
        l := l - 1;
      }
    }

    method AssignCodes(tableLen: nat, codeSizeLimit: nat, numCodes: array<int>)
      requires Valid() && tableLen <= MAX_HUFF_SYMBOLS && 1 <= codeSizeLimit <= 15 && numCodes.Length == 33
      requires forall i :: 0 <= i < tableLen ==> codeSizes[i] <= codeSizeLimit
      requires CountsOf(numCodes[..], codeSizes[..tableLen], codeSizeLimit) && codes as object != numCodes
      modifies codes
      ensures CodesFor(codeSizes[..tableLen], codes[..], tableLen)
    {
      ghost var lens := codeSizes[..tableLen];
      var nextCode := FirstCodes(lens, codeSizeLimit, numCodes);
      for i := 0 to tableLen
        invariant CodesBefore(lens, i, nextCode[..], codeSizeLimit)
        invariant CodesFor(lens, codes[..], i)
      {
        AssignCode(i, nextCode, lens, codeSizeLimit);
      }
    }

    method AssignCode(i: nat, nextCode: array<nat>, ghost lens: seq<nat>, ghost codeSizeLimit: nat)
      requires Valid() && i < |lens| <= MAX_HUFF_SYMBOLS && lens[i] == codeSizes[i] <= codeSizeLimit && codes != nextCode
      requires CodesBefore(lens, i, nextCode[..], codeSizeLimit) && CodesFor(lens, codes[..], i)
      modifies codes, nextCode
      ensures CodesBefore(lens, i + 1, nextCode[..], codeSizeLimit) && CodesFor(lens, codes[..], i + 1)
    {
      var codeSize := codeSizes[i];
      if codeSize == 0 {
        NoCodeTaken(lens, i, nextCode[..], codeSizeLimit);
      } else {
        ghost var before := codes[..];
        var revCode := TakeCode(lens, i, codeSize, nextCode, codeSizeLimit);
        codes[i] := revCode;
        assert codes[..] == before[i := revCode];
        CodesForStep(lens, before, i, revCode);
      }
    }

    static method FirstCodes(ghost lens: seq<nat>, codeSizeLimit: nat, numCodes: array<int>) returns (nextCode: array<nat>)
      requires numCodes.Length == 33 && 1 <= codeSizeLimit <= 15 && CountsOf(numCodes[..], lens, codeSizeLimit)
      ensures fresh(nextCode) && CodesBefore(lens, 0, nextCode[..], codeSizeLimit)
    {
      nextCode := new nat[33](_ => 0);
      var j: nat := 0;
      assert lens[..0] == [];
      for i := 2 to codeSizeLimit + 1
        invariant j == NextCode(lens, i - 1)
        invariant forall l :: 1 <= l < i ==> nextCode[l] == NextCode(lens, l)
      {
        assert numCodes[..][i - 1] == Count(lens, i - 1);
        j := (j + numCodes[i - 1]) * 2;
        nextCode[i] := j;
      }
    }
  }

  lemma UsedBelow(count: seq<nat>, s: seq<SymFreq>)
    requires s == UsedSyms(count, |count|) && Sum(count) < 65536
    ensures |s| == Used(count) && forall i :: 0 <= i < |s| ==> s[i].key < 65536
  {
    assert count[..|count|] == count;
    UsedSymsSize(count, |count|);
    UsedSymsOk(count, |count|);
    forall i | 0 <= i < |s| ensures s[i].key < 65536 {
      assert s[i] in s;
      SumAtLeast(count, s[i].sym);
    }
  }

  lemma RankedBelow(count: seq<nat>, t: seq<SymFreq>)
    requires Ranked(count, t) && Sum(count) < 65536
    ensures forall i :: 0 <= i < |t| ==> t[i].key < 65536 && t[i].sym < |count|
  {
    forall i | 0 <= i < |t| ensures t[i].key < 65536 && t[i].sym < |count| {
      assert t[i] in t;
      SumAtLeast(count, t[i].sym);
    }
  }

  lemma {:induction false} SumAtLeast(count: seq<nat>, s: nat)
    requires s < |count|
    ensures count[s] <= Sum(count)
  {
    SumPrefix(count, s + 1);
    assert count[..s + 1][..s] == count[..s];
  }

  lemma RankedDistinct(count: seq<nat>, t: seq<SymFreq>)
    requires Ranked(count, t)
    ensures (forall p, q :: 0 <= p < q < |t| ==> t[p].sym != t[q].sym) && |t| == Used(count)
  {
  }

  lemma SizesSoFar(t: seq<SymFreq>, sizes: seq<nat>, j: nat, i: nat)
    requires i >= 1 && SizesByRank(t, sizes, j, i - 1)
    ensures SizesByRank(t, sizes, j, i) && j <= |t| && forall p :: 0 <= p < |t| ==> t[p].sym < |sizes|
  {
  }

  lemma SizesBounded(t: seq<SymFreq>, sizes: seq<nat>, limit: nat)
    requires SizesByRank(t, sizes, 0, limit)
    ensures forall p :: 0 <= p < |t| ==> t[p].sym < |sizes| && sizes[t[p].sym] <= limit
  {
  }

  lemma RankedKeys(c: seq<nat>, t: seq<SymFreq>)
    requires Ranked(c, t) && Sum(Keys(t)) < 65536
    ensures forall i :: 0 <= i < |t| ==> 1 <= t[i].key < 65536
  {
    forall i | 0 <= i < |t| ensures 1 <= t[i].key < 65536 {
      assert t[i] in t;
      SumAtLeast(Keys(t), i);
    }
  }

  lemma SortRanksAll(c: seq<nat>)
    ensures forall t :: StableSorted(UsedSyms(c, |c|), t) ==> Ranked(c, t) && Sum(Keys(t)) == Sum(c)
  {
    forall t | StableSorted(UsedSyms(c, |c|), t) ensures Ranked(c, t) && Sum(Keys(t)) == Sum(c) {
      SortRanks(c, t);
    }
  }
}
