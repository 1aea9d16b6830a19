/** The used symbols with their counts, before and after sorting. */
module SymbolSort {
  import opened Bits
  import opened Canonical
  import opened Kraft
  import opened MergeTrace
  import opened MinRedundancy
  import opened RadixSort

  /** The symbols below i that occur, with their counts. */
  function UsedSyms(count: seq<nat>, i: nat): seq<SymFreq>
    requires i <= |count|
  {
    if i == 0 then [] else UsedSyms(count, i - 1) + if count[i - 1] > 0 then [SymFreq(count[i - 1], i - 1)] else []
  }

  lemma {:induction false} UsedSymsBelow(count: seq<nat>, i: nat)
    requires i <= |count|
    ensures forall p :: 0 <= p < |UsedSyms(count, i)| ==> UsedSyms(count, i)[p].sym < i
  {
    if i > 0 {
      UsedSymsBelow(count, i - 1);
    }
  }

  /** Every record is a used symbol with its count. */
  predicate RecordOk(count: seq<nat>, r: SymFreq) {
    r.sym < |count| && r.key == count[r.sym] > 0
  }

  lemma {:induction false} UsedSymsSize(count: seq<nat>, i: nat)
    requires i <= |count|
    ensures |UsedSyms(count, i)| == Used(count[..i]) && Sum(Keys(UsedSyms(count, i))) == Sum(count[..i])
  {
    if i > 0 {
      UsedSymsSize(count, i - 1);
      var front := UsedSyms(count, i - 1);
      assert count[..i] == count[..i - 1] + [count[i - 1]];
      if count[i - 1] > 0 {
        KeysAppend(front, SymFreq(count[i - 1], i - 1));
      } else {
        assert UsedSyms(count, i) == front;
      }
    } else {
      assert Keys([]) == [];
    }
  }

  lemma {:induction false} UsedSymsOk(count: seq<nat>, i: nat)
    requires i <= |count|
    ensures forall r :: r in UsedSyms(count, i) <==> RecordOk(count, r) && r.sym < i
    ensures forall r :: multiset(UsedSyms(count, i))[r] <= 1
  {
    if i > 0 {
      UsedSymsOk(count, i - 1);
      var front := UsedSyms(count, i - 1);
      if count[i - 1] > 0 {
        var last := SymFreq(count[i - 1], i - 1);
        assert last !in front;
      } else {
        assert UsedSyms(count, i) == front;
      }
    }
  }

  lemma KeysAppend(s: seq<SymFreq>, r: SymFreq)
    ensures Keys(s + [r]) == Keys(s) + [r.key] && Sum(Keys(s + [r])) == Sum(Keys(s)) + r.key
  {
    assert Keys(s + [r]) == Keys(s) + [r.key];
  }

  lemma KeySumRemove(s: seq<SymFreq>, j: nat)
    requires j < |s|
    ensures Sum(Keys(s)) == s[j].key + Sum(Keys(s[..j] + s[j + 1..]))
  {
    var a, b := Keys(s[..j]), Keys(s[j + 1..]);
    assert Keys(s) == a + [s[j].key] + b && Keys(s[..j] + s[j + 1..]) == a + b;
    SumConcat(a + [s[j].key], b);
    SumConcat(a, b);
  }

  lemma RemoveRecord(s: seq<SymFreq>, t: seq<SymFreq>) returns (j: nat)
    requires s != [] && multiset(s) == multiset(t)
    ensures j < |t| && t[j] == s[|s| - 1]
    ensures multiset(s[..|s| - 1]) == multiset(t[..j] + t[j + 1..])
  {
    var n := |s| - 1;
    assert s == s[..n] + [s[n]];
    assert s[n] in multiset(t);
    j :| 0 <= j < |t| && t[j] == s[n];
    assert t == t[..j] + [s[n]] + t[j + 1..];
    assert multiset(t[..j] + t[j + 1..]) == multiset(t) - multiset{s[n]};
    assert multiset(s[..n]) == multiset(s) - multiset{s[n]};
  }

  lemma {:induction false} CountWithKey(s: seq<SymFreq>, r: SymFreq)
    ensures multiset(s)[r] == multiset(WithKey(s, r.key))[r]
  {
    if s != [] {
      var n := |s| - 1;
      CountWithKey(s[..n], r);
      assert s == s[..n] + [s[n]];
      var last := if s[n].key == r.key then [s[n]] else [];
      assert multiset(WithKey(s[..n], r.key) + last) == multiset(WithKey(s[..n], r.key)) + multiset(last);
    }
  }

  /** A stable sort permutes the records. */
  lemma SortPermutes(s: seq<SymFreq>, t: seq<SymFreq>)
    requires StableSorted(s, t)
    ensures multiset(s) == multiset(t)
  {
    forall r: SymFreq ensures multiset(s)[r] == multiset(t)[r] {
      CountWithKey(s, r);
      CountWithKey(t, r);
      assert WithKey(t, r.key) == WithKey(s, r.key);
    }
  }

  lemma {:induction false} SumPermutes(s: seq<SymFreq>, t: seq<SymFreq>)
    requires multiset(s) == multiset(t)
    ensures Sum(Keys(s)) == Sum(Keys(t))
    decreases s
  {
    if s != [] {
      var j := RemoveRecord(s, t);
      SumPermutes(s[..|s| - 1], t[..j] + t[j + 1..]);
      KeySumRemove(t, j);
      KeySumRemove(s, |s| - 1);
      assert s[..|s| - 1] + s[|s|..] == s[..|s| - 1];
    } else {
      assert |multiset(t)| == 0;
    }
  }

  /** The records sorted by count: each used symbol once. */
  ghost predicate Ranked(count: seq<nat>, t: seq<SymFreq>) {
    && |t| == Used(count) && KeySorted(t) && multiset(t) == multiset(UsedSyms(count, |count|))
    && (forall r :: r in t <==> RecordOk(count, r))
    && (forall p, q :: 0 <= p < q < |t| ==> t[p].sym != t[q].sym)
  }

  lemma SortRanks(count: seq<nat>, t: seq<SymFreq>)
    requires StableSorted(UsedSyms(count, |count|), t)
    ensures Ranked(count, t) && Sum(Keys(t)) == Sum(count)
    ensures forall i :: 0 <= i < |t| ==> t[i].key >= 1
  {
    var s := UsedSyms(count, |count|);
    assert count[..|count|] == count;
    UsedSymsOk(count, |count|);
    UsedSymsSize(count, |count|);
    SortPermutes(s, t);
    SumPermutes(s, t);
    assert |s| == |multiset(s)| == |multiset(t)| == |t|;
    forall r ensures r in t <==> RecordOk(count, r) {
      assert r in t <==> r in multiset(t);
      assert r in s <==> r in multiset(s);
    }
    DistinctSyms(count, s, t);
    forall i | 0 <= i < |t| ensures t[i].key >= 1 {
      assert t[i] in t;
    }
  }

  lemma DistinctSyms(count: seq<nat>, s: seq<SymFreq>, t: seq<SymFreq>)
    requires multiset(s) == multiset(t)
    requires (forall r :: r in t <==> RecordOk(count, r)) && forall r :: multiset(s)[r] <= 1
    ensures forall p, q :: 0 <= p < q < |t| ==> t[p].sym != t[q].sym
  {
    forall p, q | 0 <= p < q < |t| ensures t[p].sym != t[q].sym {
      assert t[p] in t && t[q] in t;
      if t[p] == t[q] {
        TwiceIn(t, p, q);
      }
    }
  }

  lemma TwiceIn(t: seq<SymFreq>, p: nat, q: nat)
    requires p < q < |t| && t[p] == t[q]
    ensures multiset(t)[t[p]] >= 2
  {
    var a, b := t[..q], t[q..];
    assert t == a + b;
    assert a[p] in multiset(a) && b[0] in multiset(b);
  }

  // ---- sums over the used symbols ----

  function SumOf(t: seq<SymFreq>, f: SymFreq -> nat): nat {
    if t == [] then 0 else SumOf(t[..|t| - 1], f) + f(t[|t| - 1])
  }

  lemma {:induction false} SumOfConcat(a: seq<SymFreq>, b: seq<SymFreq>, f: SymFreq -> nat)
    ensures SumOf(a + b, f) == SumOf(a, f) + SumOf(b, f)
  {
    if b == [] {
      assert a + b == a;
    } else {
      var n := |b| - 1;
      SumOfConcat(a, b[..n], f);
      assert (a + b)[..|a| + n] == a + b[..n];
    }
  }

  lemma {:induction false} SumOfPermutes(s: seq<SymFreq>, t: seq<SymFreq>, f: SymFreq -> nat)
    requires multiset(s) == multiset(t)
    ensures SumOf(s, f) == SumOf(t, f)
    decreases s
  {
    if s == [] {
      assert |multiset(t)| == 0;
    } else {
      var j := RemoveRecord(s, t);
      var a, b := t[..j], t[j + 1..];
      SumOfPermutes(s[..|s| - 1], a + b, f);
      SumOfConcat(a, b, f);
      SumOfConcat(a, [t[j]], f);
      SumOfConcat(a + [t[j]], b, f);
      assert [t[j]][..0] == [] && t == a + [t[j]] + b;
    }
  }

  /** The lengths of the symbols of these records. */
  function RankLens(t: seq<SymFreq>, lens: seq<nat>): (r: seq<nat>)
    requires forall p :: 0 <= p < |t| ==> t[p].sym < |lens|
    ensures |r| == |t| && forall p :: 0 <= p < |t| ==> r[p] == lens[t[p].sym]
  {
    seq(|t|, p requires 0 <= p < |t| => lens[t[p].sym])
  }

  function CostTerm(lens: seq<nat>): SymFreq -> nat {
    (r: SymFreq) => if r.sym < |lens| then r.key * lens[r.sym] else 0
  }

  function KraftTerm(lens: seq<nat>, m: nat): SymFreq -> nat {
    (r: SymFreq) => if r.sym < |lens| && lens[r.sym] <= m then Pow2(m - lens[r.sym]) else 0
  }

  lemma {:induction false} RankCost(t: seq<SymFreq>, lens: seq<nat>)
    requires forall p :: 0 <= p < |t| ==> t[p].sym < |lens|
    ensures Cost(Keys(t), RankLens(t, lens)) == SumOf(t, CostTerm(lens))
  {
    if t != [] {
      var n := |t| - 1;
      RankCost(t[..n], lens);
      CostRemove(Keys(t), RankLens(t, lens), n);
      assert Keys(t)[..n] + Keys(t)[n + 1..] == Keys(t[..n]);
      assert RankLens(t, lens)[..n] + RankLens(t, lens)[n + 1..] == RankLens(t[..n], lens);
    }
  }

  lemma {:induction false} UsedCost(count: seq<nat>, lens: seq<nat>, i: nat)
    requires |lens| == |count| && i <= |count|
    ensures SumOf(UsedSyms(count, i), CostTerm(lens)) == Cost(count[..i], lens[..i])
  {
    hide Cost, CostTerm;
    if i > 0 {
      UsedCost(count, lens, i - 1);
      LastCost(count, lens, i);
      LastUsed(count, i, CostTerm(lens));
    } else {
      NoCost();
      assert count[..0] == [] && lens[..0] == [];
    }
  }

  lemma NoCost()
    ensures Cost([], []) == 0
  {
  }

  lemma LastUsed(count: seq<nat>, i: nat, f: SymFreq -> nat)
    requires 1 <= i <= |count|
    ensures SumOf(UsedSyms(count, i), f)
         == SumOf(UsedSyms(count, i - 1), f) + (if count[i - 1] > 0 then f(SymFreq(count[i - 1], i - 1)) else 0)
  {
    var front := UsedSyms(count, i - 1);
    if count[i - 1] > 0 {
      assert (front + [SymFreq(count[i - 1], i - 1)])[..|front|] == front;
    } else {
      assert UsedSyms(count, i) == front;
    }
  }

  lemma LastCost(count: seq<nat>, lens: seq<nat>, i: nat)
    requires |lens| == |count| && 1 <= i <= |count|
    ensures Cost(count[..i], lens[..i])
         == Cost(count[..i - 1], lens[..i - 1])
          + (if count[i - 1] > 0 then CostTerm(lens)(SymFreq(count[i - 1], i - 1)) else 0)
  {
    hide Cost;
    CostRemove(count[..i], lens[..i], i - 1);
    assert count[..i][..i - 1] + count[..i][i..] == count[..i - 1];
    assert lens[..i][..i - 1] + lens[..i][i..] == lens[..i - 1];
  }

  /** A table costs what its used symbols cost, in whatever order. */
  lemma RankedCost(count: seq<nat>, t: seq<SymFreq>, lens: seq<nat>)
    requires Ranked(count, t) && |lens| == |count|
    ensures forall p :: 0 <= p < |t| ==> t[p].sym < |lens|
    ensures Cost(Keys(t), RankLens(t, lens)) == Cost(count, lens)
  {
    forall p | 0 <= p < |t| ensures t[p].sym < |lens| {
      assert t[p] in t;
    }
    RankCost(t, lens);
    SumOfPermutes(t, UsedSyms(count, |count|), CostTerm(lens));
    UsedCost(count, lens, |count|);
    assert count[..|count|] == count && lens[..|lens|] == lens;
  }

  lemma {:induction false} RankKraft(t: seq<SymFreq>, lens: seq<nat>, m: nat)
    requires (forall p :: 0 <= p < |t| ==> t[p].sym < |lens|) && forall p :: 0 <= p < |t| ==> lens[t[p].sym] <= m
    ensures KraftSum(RankLens(t, lens), m) == SumOf(t, KraftTerm(lens, m))
  {
    if t != [] {
      var n := |t| - 1;
      RankKraft(t[..n], lens, m);
      SumRemove(RankLens(t, lens), m, n);
      assert RankLens(t, lens)[..n] + RankLens(t, lens)[n + 1..] == RankLens(t[..n], lens);
    }
  }

  lemma {:induction false} UsedKraft(count: seq<nat>, lens: seq<nat>, m: nat, i: nat)
    requires |lens| == |count| && i <= |count| && forall k :: 0 <= k < |lens| ==> lens[k] <= m
    ensures SumOf(UsedSyms(count, i), KraftTerm(lens, m)) <= KraftSum(lens[..i], m)
  {
    hide KraftSum, KraftTerm;
    if i > 0 {
      UsedKraft(count, lens, m, i - 1);
      LastKraft(count, lens, m, i);
      LastUsed(count, i, KraftTerm(lens, m));
    }
  }

  lemma LastKraft(count: seq<nat>, lens: seq<nat>, m: nat, i: nat)
    requires |lens| == |count| && 1 <= i <= |count| && forall k :: 0 <= k < |lens| ==> lens[k] <= m
    ensures KraftSum(lens[..i], m) == KraftSum(lens[..i - 1], m) + KraftTerm(lens, m)(SymFreq(count[i - 1], i - 1))
  {
    hide KraftSum;
    SumRemove(lens[..i], m, i - 1);
    assert lens[..i][..i - 1] + lens[..i][i..] == lens[..i - 1];
  }

  /** The lengths of the symbols that occur. */
  function UsedLens(count: seq<nat>, lens: seq<nat>): seq<nat>
    requires |lens| == |count|
  {
    UsedSymsBelow(count, |count|);
    RankLens(UsedSyms(count, |count|), lens)
  }

  /** Lengths that are feasible for all symbols are feasible for those that are used. */
  lemma AllFeasible(count: seq<nat>, lens: seq<nat>, m: nat)
    requires |lens| == |count| && Feasible(lens, m)
    ensures Feasible(UsedLens(count, lens), m)
  {
    UsedSymsBelow(count, |count|);
    RankKraft(UsedSyms(count, |count|), lens, m);
    UsedKraft(count, lens, m, |count|);
    assert lens[..|lens|] == lens;
  }

  /** The order of the symbols does not matter. */
  lemma RankedFeasible(count: seq<nat>, t: seq<SymFreq>, lens: seq<nat>, m: nat)
    requires Ranked(count, t) && |lens| == |count| && Feasible(UsedLens(count, lens), m)
    ensures (forall p :: 0 <= p < |t| ==> t[p].sym < |lens|) && Feasible(RankLens(t, lens), m)
  {
    var s := UsedSyms(count, |count|);
    UsedSymsBelow(count, |count|);
    forall p | 0 <= p < |t| ensures t[p].sym < |lens| && lens[t[p].sym] <= m {
      assert t[p] in multiset(t);
      assert t[p] in s;
      var q :| 0 <= q < |s| && s[q] == t[p];
      assert UsedLens(count, lens)[q] <= m;
    }
    RankKraft(t, lens, m);
    RankKraft(s, lens, m);
    SumOfPermutes(t, s, KraftTerm(lens, m));
  }

  lemma RankedOrderly(count: seq<nat>, t: seq<SymFreq>)
    requires Ranked(count, t) && Sum(Keys(t)) < 65536
    ensures Orderly(Keys(t))
  {
    var w := Keys(t);
    forall i, j ensures InOrder(w, i, j) {
    }
  }
}
