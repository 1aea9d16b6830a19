/** tdefl_huffman_enforce_max_code_size: shortens a complete code to a maximum code length, on counts per length alone. */
module CodeSizeLimit {
  import opened Bits

  const MAX_SUPPORTED_HUFF_CODESIZE: nat := 32

  /** How many codes have a length from 1 to l. */
  function CodesUpTo(num: seq<int>, l: nat): int
    requires l < |num|
  {
    if l == 0 then 0 else CodesUpTo(num, l - 1) + num[l]
  }

  /** Kraft's sum over the lengths from 1 to l, in units of 2^-l. */
  function KraftUpTo(num: seq<int>, l: nat): int
    requires l < |num|
  {
    if l == 0 then 0 else 2 * KraftUpTo(num, l - 1) + num[l]
  }

  predicate NonNegative(num: seq<int>) {
    forall i :: 0 <= i < |num| ==> num[i] >= 0
  }

  lemma {:induction false} UpToUpdate(num: seq<int>, j: nat, v: int, l: nat)
    requires 1 <= j < |num| && l < |num|
    ensures CodesUpTo(num[j := v], l) == CodesUpTo(num, l) + (if j <= l then v - num[j] else 0)
    ensures KraftUpTo(num[j := v], l) == KraftUpTo(num, l) + (if j <= l then (v - num[j]) * Pow2(l - j) else 0)
  {
    if l > 0 {
      UpToUpdate(num, j, v, l - 1);
      if j < l {
        Doubled(v - num[j], Pow2(l - 1 - j));
      }
    }
  }

  lemma Doubled(d: int, p: nat)
    ensures d * (2 * p) == 2 * (d * p)
  {
  }

  /**
    Cutting a complete code at length l: what is missing below is made up for, at least, by giving all longer codes that
    length, and by more than their number less one.
   */
  lemma {:induction false} CutKraft(num: seq<int>, l: nat, m: nat)
    requires 1 <= l <= m < |num| && NonNegative(num) && KraftUpTo(num, m) == Pow2(m)
    ensures var longer := CodesUpTo(num, m) - CodesUpTo(num, l);
      && longer >= 0
      && Pow2(l) <= KraftUpTo(num, l) + longer
      && (if longer == 0 then KraftUpTo(num, l) == Pow2(l) else KraftUpTo(num, l) < Pow2(l))
    decreases m - l
  {
    if l < m {
      CutKraft(num, l + 1, m);
    }
  }

  lemma {:induction false} NoShorterCodes(num: seq<int>, l: nat)
    requires 1 <= l < |num| && forall i :: 1 <= i < l ==> num[i] == 0
    ensures KraftUpTo(num, l) == num[l] == CodesUpTo(num, l)
  {
    if l > 1 {
      NoShorterCodes(num, l - 1);
    }
  }

  lemma {:induction false} UpToNonNegative(num: seq<int>, l: nat)
    requires l < |num| && NonNegative(num)
    ensures CodesUpTo(num, l) >= 0 && KraftUpTo(num, l) >= 0
  {
    if l > 0 {
      UpToNonNegative(num, l - 1);
    }
  }

  // ---- how much longer the codes get ----

  /** What the codes of the lengths between d and limit leave free, in units of 2^-limit, when they get the length limit. */
  function Freed(num: seq<int>, d: nat, limit: nat): int
    requires limit < |num|
    decreases limit - d
  {
    if d + 1 >= limit then 0 else num[d + 1] * (Pow2(limit - d - 1) - 1) + Freed(num, d + 1, limit)
  }

  /**
    Only codes of length base and more get longer, and of length base only some. They are not many: what they leave free is
    not much more than what the long codes need.
   */
  ghost predicate Limited(num0: seq<int>, num: seq<int>, base: nat, limit: nat, n: nat)
    requires limit < |num0| == |num|
  {
    && 1 <= base <= limit && (forall k :: 1 <= k < base ==> num[k] == num0[k])
    && (base < limit ==>
          num[base] <= num0[base] && Freed(num0, base, limit) + (num0[base] - num[base]) * (Pow2(limit - base) - 1) <= 2 * (n - 1))
  }

  /** The same while codes are being pushed down: all that has been freed so far but for the last code has been taken. */
  ghost predicate Limiting(num0: seq<int>, num: seq<int>, base: nat, limit: nat, n: nat, steps: nat)
    requires limit < |num0| == |num|
  {
    && steps == KraftUpTo(num0, limit) - KraftUpTo(num, limit) && 1 <= base <= limit
    && (forall k :: 1 <= k < base && k < limit ==> num[k] == num0[k])
    && (if steps == 0 then base == limit
        else base < limit && num[base] < num0[base] && Pow2(limit - base) < n
             && Freed(num0, base, limit) + (num0[base] - num[base] - 1) * (Pow2(limit - base) - 1) <= steps - 1)
  }

  lemma LimitingDone(num0: seq<int>, num: seq<int>, base: nat, limit: nat, n: nat, steps: nat)
    requires limit < |num0| == |num| && Limiting(num0, num, base, limit, n, steps) && steps < n
    ensures Limited(num0, num, base, limit, n)
  {
    if base < limit {
      var t, g := num0[base] - num[base], Pow2(limit - base) - 1;
      assert (t - 1) * g + g == t * g;
    }
  }

  lemma {:induction false} FreedFrom(num: seq<int>, d: nat, limit: nat)
    requires d < limit < |num|
    ensures Freed(num, 0, limit) == KraftUpTo(num, d) * Pow2(limit - d) - CodesUpTo(num, d) + Freed(num, d, limit)
  {
    if d > 0 {
      FreedFrom(num, d - 1, limit);
      FreedStep(KraftUpTo(num, d - 1), num[d], Pow2(limit - d));
    }
  }

  lemma FreedStep(k: int, c: int, p: nat)
    ensures k * (2 * p) + c * (p - 1) == (2 * k + c) * p - c
  {
  }

  /** All that is free is Kraft's sum less the number of codes. */
  lemma FreedAll(num: seq<int>, limit: nat)
    requires 1 <= limit < |num|
    ensures Freed(num, 0, limit) == KraftUpTo(num, limit) - CodesUpTo(num, limit)
  {
    FreedFrom(num, limit - 1, limit);
    assert Pow2(1) == 2;
  }

  lemma {:induction false} NoneFreed(num: seq<int>, d: nat, limit: nat)
    requires limit < |num| && forall k :: d < k < limit ==> num[k] == 0
    ensures Freed(num, d, limit) == 0
    decreases limit - d
  {
    if d + 1 < limit {
      NoneFreed(num, d + 1, limit);
    }
  }

  lemma {:induction false} SameBelow(num0: seq<int>, num: seq<int>, d: nat)
    requires d < |num0| == |num| && forall k :: 1 <= k <= d ==> num[k] == num0[k]
    ensures KraftUpTo(num0, d) == KraftUpTo(num, d) && CodesUpTo(num0, d) == CodesUpTo(num, d)
  {
    if d > 0 {
      SameBelow(num0, num, d - 1);
    }
  }

  /** Counts that agree below length i differ in what is free from there on. */
  lemma SameFreedBelow(num0: seq<int>, num: seq<int>, i: nat, limit: nat)
    requires 1 <= i < limit < |num0| == |num| && CodesUpTo(num0, limit) == CodesUpTo(num, limit)
    requires forall k :: 1 <= k < i ==> num[k] == num0[k]
    ensures KraftUpTo(num0, limit) - KraftUpTo(num, limit) == Freed(num0, i - 1, limit) - Freed(num, i - 1, limit)
  {
    hide Freed, KraftUpTo, CodesUpTo, Pow2;
    FreedAll(num0, limit);
    FreedAll(num, limit);
    FreedFrom(num0, i - 1, limit);
    FreedFrom(num, i - 1, limit);
    SameBelow(num0, num, i - 1);
  }

  /** When no code is between length i and the limit, everything freed so far comes from longer codes and those of length i. */
  lemma FreedSoFar(num0: seq<int>, num: seq<int>, i: nat, limit: nat)
    requires 1 <= i < limit < |num0| == |num| && CodesUpTo(num0, limit) == CodesUpTo(num, limit)
    requires (forall k :: 1 <= k < i ==> num[k] == num0[k]) && forall k :: i < k < limit ==> num[k] == 0
    ensures KraftUpTo(num0, limit) - KraftUpTo(num, limit)
         == Freed(num0, i, limit) + (num0[i] - num[i]) * (Pow2(limit - i) - 1)
  {
    hide Freed, KraftUpTo, CodesUpTo, Pow2;
    SameFreedBelow(num0, num, i, limit);
    FreedAt(num0, i, limit);
    FreedAt(num, i, limit);
    NoneFreed(num, i, limit);
    Difference(num0[i], num[i], Pow2(limit - i) - 1);
  }

  lemma FreedAt(num: seq<int>, i: nat, limit: nat)
    requires 1 <= i < limit < |num|
    ensures Freed(num, i - 1, limit) == num[i] * (Pow2(limit - i) - 1) + Freed(num, i, limit)
  {
  }

  lemma Difference(x: int, y: int, p: int)
    ensures x * p - y * p == (x - y) * p
  {
  }

  /** Kraft's sum is exceeded by codes of the maximum length alone. */
  ghost predicate Open(num: seq<int>, limit: nat) {
    limit < |num| && forall l :: 1 <= l < limit ==> KraftUpTo(num, l) < Pow2(l)
  }

  lemma {:induction false} GapKraft(num: seq<int>, i: nat, l: nat)
    requires 1 <= i <= l < |num| && forall k :: i < k <= l ==> num[k] == 0
    ensures KraftUpTo(num, l) == KraftUpTo(num, i) * Pow2(l - i)
  {
    if i < l {
      GapKraft(num, i, l - 1);
      Doubled(KraftUpTo(num, i), Pow2(l - 1 - i));
    }
  }

  /** The slot of a code of length i is too small for all codes of the maximum length. */
  lemma SmallSlot(num: seq<int>, i: nat, limit: nat, n: nat)
    requires 1 <= i < limit < |num| && Open(num, limit) && KraftUpTo(num, limit) > Pow2(limit)
    requires (forall k :: i < k < limit ==> num[k] == 0) && NonNegative(num) && CodesUpTo(num, limit) == n
    ensures Pow2(limit - i) < n
  {
    GapKraft(num, i, limit - 1);
    UpToNonNegative(num, limit - 1);
    var k, p := KraftUpTo(num, i), Pow2(limit - 1 - i);
    assert KraftUpTo(num, limit) == 2 * (k * p) + num[limit];
    Pow2Add(i, limit - 1 - i);
    assert k <= Pow2(i) - 1;
    SlotSize(k, Pow2(i), p);
  }

  lemma SlotSize(k: int, q: nat, p: nat)
    requires k <= q - 1
    ensures k * p <= q * p - p
  {
    var d := q - 1 - k;
    MulMonotone(p, 0, d);
    assert d * p >= 0;
    Difference(q, k + 1, p);
    Difference(k + 1, k, p);
  }

  /** After another code has been pushed down. */
  lemma LimitingStep(num0: seq<int>, num: seq<int>, num': seq<int>, base: nat, i: nat, limit: nat, n: nat, steps: nat)
    requires limit < |num0| == |num| && Limiting(num0, num, base, limit, n, steps) && 1 <= i < limit
    requires num' == PushedDown(num, i, limit) && (forall k :: i < k < limit ==> num[k] == 0) && NonNegative(num)
    requires KraftUpTo(num', limit) == KraftUpTo(num, limit) - 1 && CodesUpTo(num, limit) == CodesUpTo(num0, limit)
    requires Pow2(limit - i) < n
    ensures Limiting(num0, num', if i < base then i else base, limit, n, steps + 1)
  {
    if i <= base {
      FreedSoFar(num0, num, i, limit);
    }
  }

  function PushedDown(num: seq<int>, i: nat, limit: nat): seq<int>
    requires i < limit < |num|
  {
    var num1 := num[limit := num[limit] - 1];
    num1[i := num1[i] - 1][i + 1 := num1[i + 1] + 2]
  }

  lemma StillOpen(num: seq<int>, i: nat, limit: nat)
    requires 1 <= i < limit && Open(num, limit)
    ensures Open(PushedDown(num, i, limit), limit)
  {
    var num1 := num[limit := num[limit] - 1];
    var num2 := num1[i := num1[i] - 1];
    forall l | 1 <= l < limit ensures KraftUpTo(PushedDown(num, i, limit), l) < Pow2(l) {
      UpToUpdate(num, limit, num1[limit], l);
      UpToUpdate(num1, i, num2[i], l);
      UpToUpdate(num2, i + 1, num2[i + 1] + 2, l);
      if i < l {
        assert Pow2(l - i) == 2 * Pow2(l - i - 1);
      }
    }
  }

  lemma OpenBelow(num: seq<int>, limit: nat)
    requires 1 <= limit < 32 < |num| && NonNegative(num) && KraftUpTo(num, 32) == Pow2(32)
    requires CodesUpTo(num, 32) > CodesUpTo(num, limit)
    ensures Open(num, limit)
  {
    forall l | 1 <= l < limit ensures KraftUpTo(num, l) < Pow2(l) {
      CutKraft(num, l, 32);
      MoreCodes(num, l, limit);
    }
  }

  lemma {:induction false} MoreCodes(num: seq<int>, l: nat, m: nat)
    requires l <= m < |num| && NonNegative(num)
    ensures CodesUpTo(num, l) <= CodesUpTo(num, m)
  {
    if l < m {
      MoreCodes(num, l, m - 1);
    }
  }

  // ---- the method ----

  method EnforceMaxCodeSize(numCodes: array<int>, codeListLen: nat, maxCodeSize: nat) returns (ghost base: nat)
    requires numCodes.Length == MAX_SUPPORTED_HUFF_CODESIZE + 1 && 1 <= maxCodeSize < MAX_SUPPORTED_HUFF_CODESIZE
    requires NonNegative(numCodes[..]) && codeListLen == CodesUpTo(numCodes[..], 32)
    requires codeListLen >= 2 ==> codeListLen <= Pow2(maxCodeSize) && KraftUpTo(numCodes[..], 32) == Pow2(32)
    modifies numCodes
    ensures NonNegative(numCodes[..])
    ensures codeListLen <= 1 ==> numCodes[..] == old(numCodes[..])
    ensures codeListLen >= 2 ==> CodesUpTo(numCodes[..], maxCodeSize) == codeListLen
    ensures codeListLen >= 2 ==> KraftUpTo(numCodes[..], maxCodeSize) == Pow2(maxCodeSize)
    ensures numCodes[0] == old(numCodes[0])
    ensures codeListLen >= 2 ==> Limited(old(numCodes[..]), numCodes[..], base, maxCodeSize, codeListLen)
  {
    hide Limited, Limiting, Open, PushedDown;
    base := maxCodeSize;
    if codeListLen <= 1 {
      return;
    }
    ghost var before := numCodes[..];
    var total := FoldAll(numCodes, codeListLen, maxCodeSize);
    ghost var folded := numCodes[..];
    ghost var steps;
    base, steps := PushAll(numCodes, total, codeListLen, maxCodeSize);
    LimitingDone(folded, numCodes[..], base, maxCodeSize, codeListLen, steps);
    Unfold(before, folded, numCodes[..], base, maxCodeSize, codeListLen);
  }

  /** The counts up to the maximum length, and Kraft's sum of them, which is one or more. */
  method FoldAll(numCodes: array<int>, ghost codeListLen: nat, maxCodeSize: nat) returns (total: int)
    requires numCodes.Length == MAX_SUPPORTED_HUFF_CODESIZE + 1 && 1 <= maxCodeSize < MAX_SUPPORTED_HUFF_CODESIZE
    requires NonNegative(numCodes[..]) && codeListLen == CodesUpTo(numCodes[..], 32) <= Pow2(maxCodeSize)
    requires KraftUpTo(numCodes[..], 32) == Pow2(32)
    modifies numCodes
    ensures NonNegative(numCodes[..]) && numCodes[0] == old(numCodes[0])
    ensures numCodes[..] == old(numCodes[..])[maxCodeSize := numCodes[maxCodeSize]]
    ensures total == KraftUpTo(numCodes[..], maxCodeSize) && CodesUpTo(numCodes[..], maxCodeSize) == codeListLen
    ensures Pow2(maxCodeSize) <= total && (total == Pow2(maxCodeSize) || total < Pow2(maxCodeSize) + codeListLen)
    ensures total > Pow2(maxCodeSize) ==> numCodes[maxCodeSize] > total - Pow2(maxCodeSize) && Open(numCodes[..], maxCodeSize)
  {
    hide Open, KraftUpTo, CodesUpTo, Pow2;
    ghost var before := numCodes[..];
    Fold(numCodes, maxCodeSize);
    FoldedCounts(before, numCodes[..], codeListLen, maxCodeSize);
    total := Total(numCodes, maxCodeSize);
  }

  lemma FoldedCounts(before: seq<int>, folded: seq<int>, n: nat, limit: nat)
    requires 1 <= limit < 32 && |before| == 33 && NonNegative(before) && KraftUpTo(before, 32) == Pow2(32)
    requires CodesUpTo(before, 32) == n <= Pow2(limit)
    requires folded == before[limit := before[limit] + CodesUpTo(before, 32) - CodesUpTo(before, limit)]
    ensures NonNegative(folded) && folded[0] == before[0] && folded == before[limit := folded[limit]]
    ensures CodesUpTo(folded, limit) == n && Pow2(limit) <= KraftUpTo(folded, limit)
    ensures KraftUpTo(folded, limit) == Pow2(limit) || KraftUpTo(folded, limit) < Pow2(limit) + n
    ensures KraftUpTo(folded, limit) > Pow2(limit) ==>
      folded[limit] > KraftUpTo(folded, limit) - Pow2(limit) && Open(folded, limit)
  {
    hide Open, KraftUpTo, CodesUpTo, Pow2;
    CutKraft(before, limit, 32);
    LastUpdate(before, limit, folded[limit]);
    UpToNonNegative(before, limit - 1);
    LastLevel(before, limit);
    if KraftUpTo(folded, limit) != Pow2(limit) {
      FoldedOpen(before, folded, limit);
    }
  }

  lemma LastUpdate(num: seq<int>, l: nat, v: int)
    requires 1 <= l < |num|
    ensures CodesUpTo(num[l := v], l) == CodesUpTo(num, l) + v - num[l]
    ensures KraftUpTo(num[l := v], l) == KraftUpTo(num, l) + v - num[l]
  {
    SameBelow(num, num[l := v], l - 1);
  }

  lemma LastLevel(num: seq<int>, l: nat)
    requires 1 <= l < |num|
    ensures CodesUpTo(num, l) == CodesUpTo(num, l - 1) + num[l] && KraftUpTo(num, l) == 2 * KraftUpTo(num, l - 1) + num[l]
  {
  }

  /** Codes are pushed down until Kraft's sum is one. */
  method PushAll(numCodes: array<int>, total: int, ghost codeListLen: nat, maxCodeSize: nat)
    returns (ghost base: nat, ghost steps: nat)
    requires numCodes.Length == 33 && 1 <= maxCodeSize < 32 && NonNegative(numCodes[..]) && codeListLen <= Pow2(maxCodeSize)
    requires total == KraftUpTo(numCodes[..], maxCodeSize) && CodesUpTo(numCodes[..], maxCodeSize) == codeListLen
    requires Pow2(maxCodeSize) <= total
    requires total > Pow2(maxCodeSize) ==> numCodes[maxCodeSize] > total - Pow2(maxCodeSize) && Open(numCodes[..], maxCodeSize)
    modifies numCodes
    ensures NonNegative(numCodes[..]) && numCodes[0] == old(numCodes[0]) && steps == total - Pow2(maxCodeSize)
    ensures CodesUpTo(numCodes[..], maxCodeSize) == codeListLen && KraftUpTo(numCodes[..], maxCodeSize) == Pow2(maxCodeSize)
    ensures Limiting(old(numCodes[..]), numCodes[..], base, maxCodeSize, codeListLen, steps)
  {
    hide Limiting, Open, PushedDown, KraftUpTo, CodesUpTo, Pow2;
    ghost var folded := numCodes[..];
    base, steps := maxCodeSize, 0;
    NoSteps(folded, maxCodeSize, codeListLen);
    var left := total;
    while left != Pow2(maxCodeSize)
      invariant NonNegative(numCodes[..]) && numCodes[0] == folded[0]
      invariant left == KraftUpTo(numCodes[..], maxCodeSize) && CodesUpTo(numCodes[..], maxCodeSize) == codeListLen
      invariant Pow2(maxCodeSize) <= left && left + steps == total
      invariant left > Pow2(maxCodeSize) ==> numCodes[maxCodeSize] > left - Pow2(maxCodeSize) && Open(numCodes[..], maxCodeSize)
      invariant 1 <= base <= maxCodeSize && Limiting(folded, numCodes[..], base, maxCodeSize, codeListLen, steps)
      decreases left
    {
      ghost var num := numCodes[..];
      ghost var i := PushDown(numCodes, codeListLen, maxCodeSize);
      left := left - 1;
      SmallSlot(num, i, maxCodeSize, codeListLen);
      LimitingStep(folded, num, numCodes[..], base, i, maxCodeSize, codeListLen, steps);
      StillOpen(num, i, maxCodeSize);
      steps, base := steps + 1, if i < base then i else base;
    }
  }

  lemma NoSteps(num: seq<int>, limit: nat, n: nat)
    requires 1 <= limit < |num|
    ensures Limiting(num, num, limit, limit, n, 0)
  {
  }

  lemma FoldedOpen(before: seq<int>, folded: seq<int>, limit: nat)
    requires 1 <= limit < 32 < |before| && NonNegative(before) && KraftUpTo(before, 32) == Pow2(32)
    requires folded == before[limit := before[limit] + CodesUpTo(before, 32) - CodesUpTo(before, limit)]
    requires CodesUpTo(before, 32) > CodesUpTo(before, limit)
    ensures Open(folded, limit)
  {
    OpenBelow(before, limit);
    forall l | 1 <= l < limit ensures KraftUpTo(folded, l) < Pow2(l) {
      SameBelow(before, folded, l);
    }
  }

  lemma {:induction false} SameFreed(num0: seq<int>, num: seq<int>, d: nat, limit: nat)
    requires limit < |num0| == |num| && forall k :: d < k < limit ==> num[k] == num0[k]
    ensures Freed(num0, d, limit) == Freed(num, d, limit)
    decreases limit - d
  {
    if d + 1 < limit {
      SameFreed(num0, num, d + 1, limit);
    }
  }

  /** The counts below the limit are those before folding. */
  lemma Unfold(before: seq<int>, folded: seq<int>, num: seq<int>, base: nat, limit: nat, n: nat)
    requires limit < |before| == |num| == |folded| && folded == before[limit := folded[limit]] && Limited(folded, num, base, limit, n)
    ensures Limited(before, num, base, limit, n)
  {
    SameFreed(before, folded, base, limit);
  }

  /** All codes that are too long are given the maximum length. */
  method Fold(numCodes: array<int>, maxCodeSize: nat)
    requires numCodes.Length == 33 && 1 <= maxCodeSize < 32
    modifies numCodes
    ensures numCodes[..] == old(numCodes[..])[maxCodeSize := old(numCodes[maxCodeSize])
                              + CodesUpTo(old(numCodes[..]), 32) - CodesUpTo(old(numCodes[..]), maxCodeSize)]
  {
    ghost var before := numCodes[..];
    for i := maxCodeSize + 1 to 33
      invariant numCodes[..] == before[maxCodeSize := before[maxCodeSize]
                                  + CodesUpTo(before, i - 1) - CodesUpTo(before, maxCodeSize)]
    {
      numCodes[maxCodeSize] := numCodes[maxCodeSize] + numCodes[i];
    }
  }

  method Total(numCodes: array<int>, maxCodeSize: nat) returns (total: int)
    requires numCodes.Length == 33 && 1 <= maxCodeSize < 32
    ensures total == KraftUpTo(numCodes[..], maxCodeSize)
  {
    total := 0;
    var i := maxCodeSize;
    while i > 0
      invariant 0 <= i <= maxCodeSize
      invariant total + KraftUpTo(numCodes[..], i) * Pow2(maxCodeSize - i) == KraftUpTo(numCodes[..], maxCodeSize)
    {
      TotalStep(numCodes[i], KraftUpTo(numCodes[..], i - 1), Pow2(maxCodeSize - i));
      total := total + numCodes[i] * Pow2(maxCodeSize - i);
      i := i - 1;
    }
  }

  lemma TotalStep(c: int, k: int, p: nat)
    ensures (2 * k + c) * p == c * p + k * (2 * p)
  {
  }

  /** One code of the maximum length becomes, with the longest shorter one, a pair one bit longer than that was. */
  method PushDown(numCodes: array<int>, ghost codeListLen: nat, maxCodeSize: nat) returns (ghost at: nat)
    requires numCodes.Length == 33 && 1 <= maxCodeSize < 32 && NonNegative(numCodes[..])
    requires CodesUpTo(numCodes[..], maxCodeSize) == codeListLen <= Pow2(maxCodeSize)
    requires KraftUpTo(numCodes[..], maxCodeSize) > Pow2(maxCodeSize) && numCodes[maxCodeSize] > 0
    modifies numCodes
    ensures NonNegative(numCodes[..]) && numCodes[0] == old(numCodes[0])
    ensures CodesUpTo(numCodes[..], maxCodeSize) == codeListLen
    ensures KraftUpTo(numCodes[..], maxCodeSize) == KraftUpTo(old(numCodes[..]), maxCodeSize) - 1
    ensures numCodes[maxCodeSize] >= old(numCodes[maxCodeSize]) - 1
    ensures 1 <= at < maxCodeSize && numCodes[..] == PushedDown(old(numCodes[..]), at, maxCodeSize)
    ensures forall k :: at < k < maxCodeSize ==> old(numCodes[k]) == 0
  {
    ghost var num0 := numCodes[..];
    numCodes[maxCodeSize] := numCodes[maxCodeSize] - 1;
    ghost var num1 := num0[maxCodeSize := num0[maxCodeSize] - 1];
    assert numCodes[..] == num1;
    UpToUpdate(num0, maxCodeSize, num1[maxCodeSize], maxCodeSize);
    assert Pow2(0) == 1;
    var i := maxCodeSize - 1;
    while i > 0 && numCodes[i] == 0
      invariant 0 <= i < maxCodeSize && forall k :: i < k < maxCodeSize ==> numCodes[k] == 0
    {
      i := i - 1;
    }
    assert forall k :: i < k < maxCodeSize ==> num1[k] == 0;
    if i == 0 {
      forall k | 1 <= k < maxCodeSize ensures num0[k] == 0 {
        assert num0[k] == numCodes[k];
      }
      NoShorterCodes(num0, maxCodeSize);
    }
    numCodes[i], numCodes[i + 1] := numCodes[i] - 1, numCodes[i + 1] + 2;
    MovePair(num1, numCodes[..], i, maxCodeSize);
    at := i;
    forall k | at < k < maxCodeSize ensures old(numCodes[k]) == 0 {
      assert num0[k] == num1[k] == 0;
    }
  }

  lemma MovePair(num: seq<int>, num': seq<int>, i: nat, l: nat)
    requires 1 <= i < l < |num| && num' == num[i := num[i] - 1][i + 1 := num[i + 1] + 2]
    ensures CodesUpTo(num', l) == CodesUpTo(num, l) + 1
    ensures KraftUpTo(num', l) == KraftUpTo(num, l)
  {
    UpToUpdate(num, i, num[i] - 1, l);
    UpToUpdate(num[i := num[i] - 1], i + 1, num[i + 1] + 2, l);
    assert Pow2(l - i) == 2 * Pow2(l - i - 1);
  }
}
