/** Counts of the codes of each length, and which ranks of a sorted table have a length. */
module LengthCounts {
  import opened Canonical
  import opened MinRedundancy
  import opened CodeSizeLimit

  /** The counts of the lengths 1 to l of these codes. */
  ghost predicate CountsOf(num: seq<int>, lens: seq<nat>, l: nat) {
    l < |num| && forall i :: 1 <= i <= l ==> num[i] == Count(lens, i)
  }

  lemma {:induction false} CountsSums(num: seq<int>, lens: seq<nat>, l: nat)
    requires CountsOf(num, lens, l)
    ensures CodesUpTo(num, l) == UsedUpTo(lens, l)
    ensures l >= 1 ==> KraftUpTo(num, l) == EndCode(lens, l)
  {
    if l > 0 {
      CountsSums(num, lens, l - 1);
    }
  }

  lemma {:induction false} UsedAppend(lens: seq<nat>, v: nat, d: nat)
    requires v >= 1
    ensures UsedUpTo(lens + [v], d) == UsedUpTo(lens, d) + (if v <= d then 1 else 0)
  {
    if d > 0 {
      UsedAppend(lens, v, d - 1);
      assert (lens + [v])[..|lens|] == lens;
    }
  }

  lemma {:induction false} NoneUsed(lens: seq<nat>, d: nat)
    requires forall i :: 0 <= i < |lens| ==> lens[i] > d
    ensures UsedUpTo(lens, d) == 0
  {
    if d > 0 {
      NoneUsed(lens, d - 1);
      NotCounted(lens, d);
    }
  }

  /** Of lengths in descending order, those up to d are the last ones. */
  lemma {:induction false} LastRanks(lens: seq<nat>, d: nat)
    requires Descending(lens) && forall i :: 0 <= i < |lens| ==> lens[i] >= 1
    ensures UsedUpTo(lens, d) <= |lens|
    ensures forall p :: 0 <= p < |lens| ==> (lens[p] <= d <==> p >= |lens| - UsedUpTo(lens, d))
  {
    if lens == [] {
      NoneUsed(lens, d);
    } else {
      var n := |lens| - 1;
      if lens[n] > d {
        forall i | 0 <= i < |lens| ensures lens[i] > d {
          assert NotBelow(lens, i, n);
        }
        NoneUsed(lens, d);
      } else {
        var front := lens[..n];
        forall i, j ensures NotBelow(front, i, j) {
          assert NotBelow(lens, i, j);
        }
        LastRanks(front, d);
        UsedAppend(front, lens[n], d);
        assert front + [lens[n]] == lens;
      }
    }
  }

  lemma RanksOfLength(num: seq<int>, lens: seq<nat>, d: nat)
    requires CountsOf(num, lens, d) && Descending(lens) && forall i :: 0 <= i < |lens| ==> lens[i] >= 1
    ensures 0 <= CodesUpTo(num, d) <= |lens|
    ensures forall p :: 0 <= p < |lens| ==> (lens[p] <= d <==> p >= |lens| - CodesUpTo(num, d))
  {
    CountsSums(num, lens, d);
    LastRanks(lens, d);
  }
}
