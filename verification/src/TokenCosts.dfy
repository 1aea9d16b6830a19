/** The size of a block with its own codes, from the counts of its symbols: never too much for the output buffer. */
module TokenCosts {
  import opened Bits
  import opened Canonical
  import opened Kraft
  import opened MergeTrace
  import opened LenDist
  import opened Lz
  import opened Deflate
  import opened TokenBuffers
  import opened TokenItems
  import opened EncoderTables
  import opened SymbolSort
  import opened StaticBounds

  function Matches(ts: seq<Token>): (m: nat)
    ensures m <= |ts|
  {
    if ts == [] then 0 else (if ts[0].Match? then 1 else 0) + Matches(ts[1..])
  }

  lemma {:induction false} PackedIs(ts: seq<Token>)
    ensures TotalPackedBits(ts) == 9 * (|ts| - Matches(ts)) + 25 * Matches(ts)
  {
    if ts != [] {
      PackedIs(ts[1..]);
    }
  }

  // ---- costs of counts ----

  lemma {:induction false} ZeroCost(n: nat, lens: seq<nat>)
    requires |lens| == n
    ensures Cost(seq(n, _ => 0), lens) == 0
  {
    var z := seq(n, _ => 0);
    if n > 0 {
      ZeroCost(n - 1, lens[1..]);
      assert z[1..] == seq(n - 1, _ => 0);
    }
  }

  lemma BumpCost(c: seq<nat>, s: nat, lens: seq<nat>)
    requires |c| == |lens|
    ensures Cost(Bump(c, s), lens) == Cost(c, lens) + (if s < |c| then lens[s] else 0)
  {
    if s < |c| {
      CostAdd(c, lens, s);
    }
  }

  lemma {:induction false} CostAdd(c: seq<nat>, lens: seq<nat>, s: nat)
    requires |c| == |lens| && s < |c|
    ensures Cost(c[s := c[s] + 1], lens) == Cost(c, lens) + lens[s]
  {
    if s == 0 {
      assert c[s := c[s] + 1][1..] == c[1..];
      assert (c[0] + 1) * lens[0] == c[0] * lens[0] + lens[0];
    } else {
      CostAdd(c[1..], lens[1..], s - 1);
      assert c[s := c[s] + 1][1..] == c[1..][s - 1 := c[s] + 1];
    }
  }

  lemma {:induction false} SumBump(c: seq<nat>, s: nat)
    ensures Sum(Bump(c, s)) == Sum(c) + (if s < |c| then 1 else 0)
  {
    if s < |c| {
      TokenBuffers.SumUpdate(c, s, c[s] + 1);
    }
  }

  /** Each distance is counted. */
  lemma {:induction false} DistSum(ts: seq<Token>)
    requires AllRecordable(ts)
    ensures Sum(DistCounts(ts)) == Matches(ts)
  {
    if ts == [] {
      SumZeros(DistCounts(ts));
    } else {
      hide DistSym, Bump;
      DistSum(ts[1..]);
      SymbolRange(ts[0]);
      SumBump(DistCounts(ts[1..]), if ts[0].Match? then DistSymOf(ts[0]) else 32);
    }
  }

  // ---- what the codes of the tokens take ----

  /** The sizes of the codes, as far as the tables go. */
  ghost predicate SizesOf(codes: seq<seq<bool>>, sizes: seq<nat>) {
    forall s: nat :: s < |sizes| ==> |CodeOf(codes, s)| == sizes[s]
  }

  lemma ItemSize(c: Codes, t: Token, ls: seq<nat>, ds: seq<nat>)
    requires Recordable(t) && |ls| == 288 && |ds| == 32 && SizesOf(c.lit, ls) && SizesOf(c.dist, ds)
    ensures LitSymOf(t) < 288 && (t.Match? ==> DistSymOf(t) < 32)
    ensures |ItemBits(c, ItemOf(t))| <= ls[LitSymOf(t)] + (if t.Match? then ds[DistSymOf(t)] + 18 else 0)
  {
    hide CodeOf, ItemOf, LitSymOf, DistSymOf, LengthExtra, DistanceExtra, LenExtra, DistExtra, ToBits;
    SymbolRange(t);
    ItemShape(t);
    if t.Match? {
      ItemMeaning(t);
      SmallExtra(t.len - 3, t.dist - 1);
    }
  }

  /** A block takes what its counts cost, and 18 extra bits for each match at most. */
  lemma {:induction false} ItemsSize(c: Codes, ts: seq<Token>, ls: seq<nat>, ds: seq<nat>)
    requires AllRecordable(ts) && |ls| == 288 && |ds| == 32 && SizesOf(c.lit, ls) && SizesOf(c.dist, ds)
    ensures |ItemsBits(c, Items(ts))| <= Cost(LitCounts(ts), ls) + Cost(DistCounts(ts), ds) + 18 * Matches(ts) + ls[256]
  {
    hide CodeOf, ItemOf, ItemBits, LenSym, DistSym, Bump, Cost;
    if ts == [] {
      ZeroCost(288, ls);
      ZeroCost(32, ds);
      EndSize(c, ls);
    } else {
      ItemsSize(c, ts[1..], ls, ds);
      ItemSize(c, ts[0], ls, ds);
      assert Items(ts)[0] == ItemOf(ts[0]) && Items(ts)[1..] == Items(ts[1..]);
      BumpCost(LitCounts(ts[1..]), LitSymOf(ts[0]), ls);
      BumpCost(DistCounts(ts[1..]), if ts[0].Match? then DistSymOf(ts[0]) else 32, ds);
    }
  }

  lemma EndSize(c: Codes, ls: seq<nat>)
    requires |ls| == 288 && SizesOf(c.lit, ls)
    ensures |CodeOf(c.lit, 256)| == ls[256] && |ItemsBits(c, [])| == ls[256]
  {
  }

  // ---- what the fixed codes would take ----

  lemma {:induction false} FixedCosts(ts: seq<Token>)
    requires AllRecordable(ts)
    ensures Cost(LitCounts(ts), FixedLitLens()) <= 9 * (|ts| - Matches(ts)) + 8 * Matches(ts)
    ensures Cost(DistCounts(ts), FixedDistLens()) == 5 * Matches(ts)
  {
    hide FixedLitLens, LenSym, DistSym, Bump, Cost;
    if ts == [] {
      ZeroCost(288, FixedLitLens());
      ZeroCost(32, FixedDistLens());
    } else {
      FixedCosts(ts[1..]);
      SymbolRange(ts[0]);
      FixedLength(LitSymOf(ts[0]));
      if ts[0].Match? {
        MatchRange(ts[0]);
      }
      LitSize();
      BumpCost(LitCounts(ts[1..]), LitSymOf(ts[0]), FixedLitLens());
      BumpCost(DistCounts(ts[1..]), if ts[0].Match? then DistSymOf(ts[0]) else 32, FixedDistLens());
    }
  }

  lemma LitSize()
    ensures |FixedLitLens()| == 288
  {
  }

  lemma {:induction false} KraftConcat(a: seq<nat>, b: seq<nat>, m: nat)
    requires (forall i :: 0 <= i < |a| ==> a[i] <= m) && forall i :: 0 <= i < |b| ==> b[i] <= m
    ensures (forall i :: 0 <= i < |a + b| ==> (a + b)[i] <= m) && KraftSum(a + b, m) == KraftSum(a, m) + KraftSum(b, m)
  {
    if a == [] {
      assert a + b == b;
    } else {
      assert (a + b)[1..] == a[1..] + b;
      KraftConcat(a[1..], b, m);
    }
  }

  function Times(n: nat, l: nat): (s: seq<nat>)
    ensures |s| == n && forall i :: 0 <= i < n ==> s[i] == l
  {
    seq(n, _ => l)
  }

  lemma {:induction false} KraftTimes(n: nat, l: nat, m: nat)
    requires l <= m
    ensures KraftSum(Times(n, l), m) == n * Pow2(m - l)
  {
    if n > 0 {
      KraftTimes(n - 1, l, m);
      assert Times(n, l)[1..] == Times(n - 1, l);
      assert n * Pow2(m - l) == (n - 1) * Pow2(m - l) + Pow2(m - l);
    }
  }

  lemma FixedLitKraft()
    ensures KraftSum(Times(144, 8) + Times(112, 9) + Times(24, 7) + Times(8, 8), 9) == 512
  {
    hide KraftSum;
    KraftTimes(144, 8, 9);
    KraftTimes(112, 9, 9);
    KraftTimes(24, 7, 9);
    KraftTimes(8, 8, 9);
    KraftConcat(Times(144, 8), Times(112, 9), 9);
    KraftConcat(Times(144, 8) + Times(112, 9), Times(24, 7), 9);
    KraftConcat(Times(144, 8) + Times(112, 9) + Times(24, 7), Times(8, 8), 9);
    assert Pow2(0) == 1 && Pow2(1) == 2 && Pow2(2) == 4;
  }

  lemma FixedFeasible()
    ensures Feasible(FixedLitLens(), 9) && Feasible(FixedDistLens(), 5)
  {
    hide KraftSum, Pow2;
    FixedLitKraft();
    assert FixedLitLens() == Times(144, 8) + Times(112, 9) + Times(24, 7) + Times(8, 8);
    KraftTimes(32, 5, 5);
    assert FixedDistLens() == Times(32, 5);
    Pow2Values();
    OneUnit();
  }

  // ---- with the codes the encoder chooses ----

  lemma {:induction false} UsedBound(count: seq<nat>, k: nat)
    requires k <= |count| && forall s :: k <= s < |count| ==> count[s] == 0
    ensures Used(count) <= k
  {
    if count != [] {
      UsedBound(count[..|count| - 1], if k == |count| then k - 1 else k);
    }
  }

  /** A table for at most k symbols costs little more than the fixed lengths, and nothing to speak of if it has one symbol. */
  lemma TableCost(count: seq<nat>, sizes: seq<nat>, fixed: seq<nat>, m: nat, k: nat)
    requires |count| == |sizes| == |fixed| && Feasible(fixed, m) && 2 <= k && Used(count) <= k
    requires Used(count) >= 2 ==> NearlyBest(count, sizes)
    requires Used(count) <= 1 ==> forall s :: 0 <= s < |sizes| ==> sizes[s] <= 1
    requires forall s :: 0 <= s < |fixed| ==> fixed[s] >= 1
    ensures 540 * Cost(count, sizes) <= 540 * Cost(count, fixed) + Sum(count) * (2 * (k - 1))
  {
    hide Sum, Cost, KraftSum, Used, Feasible;
    if Used(count) >= 2 {
      AllFeasible(count, fixed, m);
      assert NotMuchWorse(count, sizes, fixed, m);
      MulMonotone(Sum(count), 2 * (Used(count) - 1), 2 * (k - 1));
    } else {
      CostMonotone(count, sizes, fixed);
      MulMonotone(Sum(count), 0, 2 * (k - 1));
    }
  }

  lemma {:induction false} CostMonotone(count: seq<nat>, a: seq<nat>, b: seq<nat>)
    requires |count| == |a| == |b| && forall s :: 0 <= s < |a| ==> a[s] <= b[s]
    ensures Cost(count, a) <= Cost(count, b)
  {
    if count != [] {
      CostMonotone(count[1..], a[1..], b[1..]);
      MulMonotone(count[0], a[0], b[0]);
    }
  }

  /** The sizes of the codes of a block, chosen from the counts of its symbols. */
  ghost predicate TablesChosen(ts: seq<Token>, ls: seq<nat>, ds: seq<nat>) {
    var lit := LitCounts(ts)[256 := 1];
    && |ls| == 288 && |ds| == 32
    && SizesFor(lit, ls, 15) && (Used(lit) >= 2 ==> NearlyBest(lit, ls))
    && SizesFor(DistCounts(ts), ds, 15) && (Used(DistCounts(ts)) >= 2 ==> NearlyBest(DistCounts(ts), ds))
  }

  /** Nothing beyond the last symbol occurs. */
  lemma {:induction false} CountsInRange(ts: seq<Token>)
    requires AllRecordable(ts)
    ensures forall s :: 0 <= s < 288 && (s == 256 || s >= 286) ==> LitCounts(ts)[s] == 0
    ensures forall s :: 30 <= s < 32 ==> DistCounts(ts)[s] == 0
    ensures Sum(LitCounts(ts)) == |ts|
  {
    if ts == [] {
      SumZeros(LitCounts(ts));
    } else {
      hide LenSym, DistSym;
      CountsInRange(ts[1..]);
      SymbolRange(ts[0]);
      SumBump(LitCounts(ts[1..]), LitSymOf(ts[0]));
    }
  }

  lemma {:induction false} SomeUsed(count: seq<nat>, s: nat)
    requires s < |count| && count[s] > 0
    ensures Used(count) >= 1
  {
    if s < |count| - 1 {
      SomeUsed(count[..|count| - 1], s);
    }
  }

  lemma OneSymbol(count: seq<nat>, sizes: seq<nat>)
    requires SizesFor(count, sizes, 15) && Used(count) <= 1
    ensures forall s :: 0 <= s < |sizes| ==> sizes[s] <= 1
  {
    hide Used, EndCode;
    forall s | 0 <= s < |sizes| ensures sizes[s] <= 1 {
      if sizes[s] > 0 {
        SomeUsed(count, s);
      }
    }
  }

  lemma LitTable(ts: seq<Token>, ls: seq<nat>, ds: seq<nat>)
    requires AllRecordable(ts) && TablesChosen(ts, ls, ds)
    ensures 540 * (Cost(LitCounts(ts), ls) + ls[256])
         <= 540 * (9 * (|ts| - Matches(ts)) + 8 * Matches(ts) + 9) + 570 * (|ts| + 1)
  {
    hide Sum, Cost, Used, NearlyBest, LitCounts, Matches, SizesFor, FixedLitLens, Feasible;
    var c := LitCounts(ts);
    var lit := c[256 := 1];
    CountsInRange(ts);
    FixedFeasible();
    FixedSizesSmall();
    UsedBound(lit, 286);
    if Used(lit) <= 1 {
      OneSymbol(lit, ls);
    }
    TableCost(lit, ls, FixedLitLens(), 9, 286);
    LitCosts(ts, ls);
  }

  /** The end of the block is one symbol more. */
  lemma LitCosts(ts: seq<Token>, ls: seq<nat>)
    requires AllRecordable(ts) && |ls| == 288
    ensures var c := LitCounts(ts);
      && Cost(c[256 := 1], ls) == Cost(c, ls) + ls[256] && Sum(c[256 := 1]) == |ts| + 1
      && Cost(c[256 := 1], FixedLitLens()) <= 9 * (|ts| - Matches(ts)) + 8 * Matches(ts) + 9
  {
    hide Sum, Cost, LitCounts, Matches, FixedLitLens;
    CountsInRange(ts);
    FixedSizesSmall();
    FixedCosts(ts);
    var c := LitCounts(ts);
    TokenBuffers.SumUpdate(c, 256, 1);
    CostAdd(c, ls, 256);
    CostAdd(c, FixedLitLens(), 256);
  }

  lemma FixedSizesSmall()
    ensures |FixedLitLens()| == 288 && forall s :: 0 <= s < 288 ==> 1 <= FixedLitLens()[s] <= 9
  {
  }

  lemma DistTable(ts: seq<Token>, ls: seq<nat>, ds: seq<nat>)
    requires AllRecordable(ts) && TablesChosen(ts, ls, ds)
    ensures 540 * Cost(DistCounts(ts), ds) <= 540 * (5 * Matches(ts)) + 58 * Matches(ts)
  {
    hide Sum, Cost, Used, NearlyBest, KraftSum, Pow2, DistCounts, Matches, EndCode;
    CountsInRange(ts);
    FixedFeasible();
    FixedCosts(ts);
    DistSum(ts);
    UsedBound(DistCounts(ts), 30);
    if Used(DistCounts(ts)) <= 1 {
      OneSymbol(DistCounts(ts), ds);
    }
    TableCost(DistCounts(ts), ds, FixedDistLens(), 5, 30);
  }

  /** The codes of the tokens of a full code buffer, and of the end of the block, take less than the output buffer has. */
  lemma DynamicFits(c: Codes, ts: seq<Token>, ls: seq<nat>, ds: seq<nat>)
    requires AllRecordable(ts) && TablesChosen(ts, ls, ds) && |Pack(ts)| <= LZ_CODE_BUF_SIZE
    requires SizesOf(c.lit, ls) && SizesOf(c.dist, ds)
    ensures |ItemsBits(c, Items(ts))| <= 674520
  {
    hide Cost, TablesChosen, Pack, ItemsBits, Items, Matches, SizesOf, LitCounts, DistCounts;
    Sizes(ts, ls, ds);
    ItemsSize(c, ts, ls, ds);
    LitTable(ts, ls, ds);
    DistTable(ts, ls, ds);
    PackBits(ts);
    PackedIs(ts);
  }

  lemma {:induction false} LenAtLeast(ts: seq<Token>)
    requires AllRecordable(ts)
    ensures TokensLen(ts) >= |ts| + 2 * Matches(ts)
  {
    if ts != [] {
      LenAtLeast(ts[1..]);
    }
  }

  /** In terms of what the tokens stand for, the chosen codes take at most 12 bits for a byte. */
  lemma DynamicSize(c: Codes, ts: seq<Token>, ls: seq<nat>, ds: seq<nat>)
    requires AllRecordable(ts) && TablesChosen(ts, ls, ds) && SizesOf(c.lit, ls) && SizesOf(c.dist, ds)
    ensures |ItemsBits(c, Items(ts))| <= 12 * TokensLen(ts) + 20
  {
    hide Cost, TablesChosen, ItemsBits, Items, Matches, SizesOf, LitCounts, DistCounts, TokensLen;
    Sizes(ts, ls, ds);
    ItemsSize(c, ts, ls, ds);
    LitTable(ts, ls, ds);
    DistTable(ts, ls, ds);
    LenAtLeast(ts);
  }

  lemma Sizes(ts: seq<Token>, ls: seq<nat>, ds: seq<nat>)
    requires TablesChosen(ts, ls, ds)
    ensures |ls| == 288 && |ds| == 32
  {
  }
}
