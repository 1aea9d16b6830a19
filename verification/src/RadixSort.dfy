/** tdefl_radix_sort_syms: a stable two-pass byte-wise sort of the used symbols by frequency. */
module RadixSort {
  import opened MinRedundancy

  /** The byte of the key that a pass looks at. */
  function Digit(r: SymFreq, pass: nat): nat {
    if pass == 0 then r.key % 256 else (r.key / 256) % 256
  }

  /** What the passes before have sorted by. */
  function Low(r: SymFreq, pass: nat): nat {
    if pass == 0 then 0 else if pass == 1 then r.key % 256 else r.key
  }

  /** The records with a digit, in their order. */
  function WithDigit(s: seq<SymFreq>, pass: nat, d: nat): seq<SymFreq> {
    if s == [] then []
    else WithDigit(s[..|s| - 1], pass, d) + if Digit(s[|s| - 1], pass) == d then [s[|s| - 1]] else []
  }

  /** The records with a key, in their order. */
  function WithKey(s: seq<SymFreq>, k: nat): seq<SymFreq> {
    if s == [] then [] else WithKey(s[..|s| - 1], k) + if s[|s| - 1].key == k then [s[|s| - 1]] else []
  }

  /** The records with digits below d, ordered by digit, and in their order for each digit. */
  function Buckets(s: seq<SymFreq>, pass: nat, d: nat): seq<SymFreq> {
    if d == 0 then [] else Buckets(s, pass, d - 1) + WithDigit(s, pass, d - 1)
  }

  predicate LowOrdered(s: seq<SymFreq>, pass: nat, i: int, j: int) {
    0 <= i <= j < |s| ==> Low(s[i], pass) <= Low(s[j], pass)
  }

  ghost predicate LowSorted(s: seq<SymFreq>, pass: nat) {
    forall i, j :: LowOrdered(s, pass, i, j)
  }

  ghost predicate KeySorted(s: seq<SymFreq>) {
    forall i, j :: 0 <= i <= j < |s| ==> s[i].key <= s[j].key
  }

  /** t is s, sorted by key, with the records of each key in their old order. */
  ghost predicate StableSorted(s: seq<SymFreq>, t: seq<SymFreq>) {
    KeySorted(t) && forall k: nat :: WithKey(t, k) == WithKey(s, k)
  }

  // ---- what one pass does ----

  lemma {:induction false} WithKeyConcat(a: seq<SymFreq>, b: seq<SymFreq>, k: nat)
    ensures WithKey(a + b, k) == WithKey(a, k) + WithKey(b, k)
  {
    if b == [] {
      assert a + b == a;
    } else {
      var n := |b| - 1;
      assert (a + b)[..|a + b| - 1] == a + b[..n];
      WithKeyConcat(a, b[..n], k);
    }
  }

  lemma {:induction false} WithKeyAndDigit(s: seq<SymFreq>, pass: nat, d: nat, k: nat)
    ensures WithKey(WithDigit(s, pass, d), k) == if Digit(SymFreq(k, 0), pass) == d then WithKey(s, k) else []
  {
    if s != [] {
      var n := |s| - 1;
      WithKeyAndDigit(s[..n], pass, d, k);
      var last := if Digit(s[n], pass) == d then [s[n]] else [];
      WithKeyConcat(WithDigit(s[..n], pass, d), last, k);
      assert WithKey([s[n]], k) == WithKey([], k) + if s[n].key == k then [s[n]] else [] by {
        assert [s[n]][..0] == [];
      }
    }
  }

  /** A pass keeps the records of each key, in order. */
  lemma {:induction false} BucketsWithKey(s: seq<SymFreq>, pass: nat, d: nat, k: nat)
    ensures WithKey(Buckets(s, pass, d), k) == if Digit(SymFreq(k, 0), pass) < d then WithKey(s, k) else []
  {
    hide Digit, WithDigit;
    if d > 0 {
      var front, last := Buckets(s, pass, d - 1), WithDigit(s, pass, d - 1);
      BucketsWithKey(s, pass, d - 1, k);
      assert WithKey(last, k) == if Digit(SymFreq(k, 0), pass) == d - 1 then WithKey(s, k) else [] by {
        WithKeyAndDigit(s, pass, d - 1, k);
      }
      assert WithKey(front + last, k) == WithKey(front, k) + WithKey(last, k) by {
        WithKeyConcat(front, last, k);
      }
    }
  }

  lemma LowSteps(r: SymFreq, q: SymFreq, pass: nat)
    requires pass <= 1 && r.key < 65536 && q.key < 65536
    ensures Digit(r, pass) < Digit(q, pass) ==> Low(r, pass + 1) <= Low(q, pass + 1)
    ensures Digit(r, pass) == Digit(q, pass) && Low(r, pass) <= Low(q, pass) ==> Low(r, pass + 1) <= Low(q, pass + 1)
  {
    assert (r.key / 256) % 256 == r.key / 256 && (q.key / 256) % 256 == q.key / 256;
  }

  lemma {:induction false} WithDigitSorted(s: seq<SymFreq>, pass: nat, d: nat)
    requires pass <= 1 && LowSorted(s, pass) && forall i :: 0 <= i < |s| ==> s[i].key < 65536
    ensures LowSorted(WithDigit(s, pass, d), pass + 1)
    ensures forall i :: 0 <= i < |WithDigit(s, pass, d)| ==>
      var r := WithDigit(s, pass, d)[i]; r.key < 65536 && Digit(r, pass) == d
    ensures s != [] ==> forall i :: 0 <= i < |WithDigit(s, pass, d)| ==>
      Low(WithDigit(s, pass, d)[i], pass) <= Low(s[|s| - 1], pass)
  {
    if s != [] {
      var n := |s| - 1;
      var init := s[..n];
      forall i, j ensures LowOrdered(init, pass, i, j) {
        assert LowOrdered(s, pass, i, j);
      }
      WithDigitSorted(init, pass, d);
      var front, t := WithDigit(init, pass, d), WithDigit(s, pass, d);
      if n > 0 {
        assert LowOrdered(s, pass, n - 1, n);
      }
      forall i | 0 <= i < |t| ensures Low(t[i], pass) <= Low(s[n], pass) {
        assert i < |front| || t[i] == s[n];
      }
      var next := pass + 1;
      forall i, j ensures LowOrdered(t, next, i, j) {
        assert LowOrdered(front, next, i, j);
        if 0 <= i <= j < |t| && j == |front| {
          LowSteps(t[i], t[j], pass);
        }
      }
    }
  }

  lemma {:induction false} BucketsSorted(s: seq<SymFreq>, pass: nat, d: nat)
    requires pass <= 1 && LowSorted(s, pass) && forall i :: 0 <= i < |s| ==> s[i].key < 65536
    ensures LowSorted(Buckets(s, pass, d), pass + 1)
    ensures forall i :: 0 <= i < |Buckets(s, pass, d)| ==>
      var r := Buckets(s, pass, d)[i]; r.key < 65536 && Digit(r, pass) < d
  {
    if d > 0 {
      BucketsSorted(s, pass, d - 1);
      WithDigitSorted(s, pass, d - 1);
      JoinSorted(Buckets(s, pass, d - 1), WithDigit(s, pass, d - 1), pass, d - 1);
    }
  }

  lemma JoinSorted(front: seq<SymFreq>, last: seq<SymFreq>, pass: nat, d: nat)
    requires pass <= 1 && LowSorted(front, pass + 1) && LowSorted(last, pass + 1)
    requires forall i :: 0 <= i < |front| ==> front[i].key < 65536 && Digit(front[i], pass) < d
    requires forall i :: 0 <= i < |last| ==> last[i].key < 65536 && Digit(last[i], pass) == d
    ensures LowSorted(front + last, pass + 1)
  {
    var t, next := front + last, pass + 1;
    forall i, j ensures LowOrdered(t, next, i, j) {
      if 0 <= i <= j < |t| {
        if j < |front| {
          assert LowOrdered(front, next, i, j);
        } else if i >= |front| {
          assert LowOrdered(last, next, i - |front|, j - |front|);
        } else {
          LowSteps(t[i], t[j], pass);
        }
      }
    }
  }

  // ---- the array algorithm ----

  /** Where the bucket of a digit starts. */
  function Start(s: seq<SymFreq>, pass: nat, d: nat): nat {
    |Buckets(s, pass, d)|
  }

  lemma {:induction false} WithDigitPrefix(s: seq<SymFreq>, pass: nat, d: nat, i: nat)
    requires i <= |s|
    ensures |WithDigit(s[..i], pass, d)| <= |WithDigit(s, pass, d)|
    ensures i < |s| && Digit(s[i], pass) == d ==> |WithDigit(s[..i], pass, d)| < |WithDigit(s, pass, d)|
  {
    if i < |s| {
      var n := |s| - 1;
      if i < n {
        WithDigitPrefix(s[..n], pass, d, i);
        assert s[..n][..i] == s[..i];
      }
    } else {
      assert s[..i] == s;
    }
  }

  lemma {:induction false} StartMonotone(s: seq<SymFreq>, pass: nat, d: nat, e: nat)
    requires d < e
    ensures Start(s, pass, d) + |WithDigit(s, pass, d)| <= Start(s, pass, e)
  {
    if d + 1 < e {
      StartMonotone(s, pass, d, e - 1);
    }
  }

  /** The digits of all records are below 256. */
  lemma {:induction false} AllInBuckets(s: seq<SymFreq>, pass: nat)
    ensures |Buckets(s, pass, 256)| == |s|
  {
    if s == [] {
      NoBuckets(pass, 256);
    } else {
      AllInBuckets(s[..|s| - 1], pass);
      BucketsLast(s, pass, 256);
    }
  }

  lemma {:induction false} NoBuckets(pass: nat, d: nat)
    ensures Buckets([], pass, d) == []
  {
    if d > 0 {
      NoBuckets(pass, d - 1);
    }
  }

  lemma {:induction false} BucketsLast(s: seq<SymFreq>, pass: nat, d: nat)
    requires s != []
    ensures |Buckets(s, pass, d)| == |Buckets(s[..|s| - 1], pass, d)| + if Digit(s[|s| - 1], pass) < d then 1 else 0
  {
    hide Digit;
    if d > 0 {
      BucketsLast(s, pass, d - 1);
    }
  }

  /** The bucket of digit d holds its records from s[..i]. */
  ghost predicate BucketAt(s: seq<SymFreq>, pass: nat, i: nat, d: nat, t: seq<SymFreq>)
    requires i <= |s|
  {
    var b := WithDigit(s[..i], pass, d);
    Start(s, pass, d) + |b| <= |t| && t[Start(s, pass, d)..Start(s, pass, d) + |b|] == b
  }

  ghost predicate BucketsAt(s: seq<SymFreq>, pass: nat, i: nat, t: seq<SymFreq>)
    requires i <= |s|
  {
    forall e: nat :: e < 256 ==> BucketAt(s, pass, i, e, t)
  }

  lemma {:induction false} BucketsFilled(s: seq<SymFreq>, pass: nat, t: seq<SymFreq>, d: nat)
    requires BucketsAt(s, pass, |s|, t)
    requires d <= 256
    ensures Start(s, pass, d) <= |t| && t[..Start(s, pass, d)] == Buckets(s, pass, d)
  {
    if d > 0 {
      BucketsFilled(s, pass, t, d - 1);
      assert BucketAt(s, pass, |s|, d - 1, t);
      assert s[..|s|] == s;
      var m := Start(s, pass, d - 1);
      assert t[..Start(s, pass, d)] == t[..m] + t[m..Start(s, pass, d)];
    }
  }

  lemma PutInBucket(s: seq<SymFreq>, pass: nat, i: nat, t: seq<SymFreq>, pos: nat, e: nat)
    requires i < |s| && pos < |t| && BucketAt(s, pass, i, e, t)
    requires var d := Digit(s[i], pass); pos == Start(s, pass, d) + |WithDigit(s[..i], pass, d)|
    ensures BucketAt(s, pass, i + 1, e, t[pos := s[i]])
  {
    var d := Digit(s[i], pass);
    assert s[..i + 1][..i] == s[..i];
    WithDigitPrefix(s, pass, d, i);
    WithDigitPrefix(s, pass, e, i);
    if d < e {
      StartMonotone(s, pass, d, e);
    } else if e < d {
      StartMonotone(s, pass, e, d);
    }
    var b, m := WithDigit(s[..i], pass, e), Start(s, pass, e);
    var t' := t[pos := s[i]];
    if e != d {
      assert t'[m..m + |b|] == t[m..m + |b|];
    } else {
      assert t'[m..m + |b| + 1] == t[m..m + |b|] + [s[i]];
    }
  }

  method Histogram(num: nat, syms: array<SymFreq>) returns (hist: array<nat>)
    requires num <= syms.Length
    ensures fresh(hist) && hist.Length == 512
    ensures forall d: nat :: d < 256 ==> hist[d] == |WithDigit(syms[..num], 0, d)|
    ensures forall d: nat :: d < 256 ==> hist[256 + d] == |WithDigit(syms[..num], 1, d)|
  {
    hist := new nat[512](_ => 0);
    for i := 0 to num
      invariant forall d: nat :: d < 256 ==> hist[d] == |WithDigit(syms[..i], 0, d)|
      invariant forall d: nat :: d < 256 ==> hist[256 + d] == |WithDigit(syms[..i], 1, d)|
    {
      var freq := syms[i].key;
      assert syms[..i + 1][..i] == syms[..i];
      hist[freq % 256] := hist[freq % 256] + 1;
      hist[256 + (freq / 256) % 256] := hist[256 + (freq / 256) % 256] + 1;
    }
  }

  method Pass(num: nat, pass: nat, hist: array<nat>, cur: array<SymFreq>, new_: array<SymFreq>)
    requires pass <= 1 && num <= cur.Length && num <= new_.Length && cur != new_ && hist.Length == 512
    requires forall d: nat :: d < 256 ==> hist[256 * pass + d] == |WithDigit(cur[..num], pass, d)|
    modifies new_
    ensures new_[..num] == Buckets(cur[..num], pass, 256)
  {
    var offsets := Offsets(pass, hist, cur[..num]);
    ghost var s := cur[..num];
    AllInBuckets(s, pass);
    forall e: nat | e < 256 ensures BucketAt(s, pass, 0, e, new_[..num]) {
      StartMonotone(s, pass, e, 256);
    }
    for i := 0 to num
      invariant forall d: nat :: d < 256 ==> offsets[d] == Start(s, pass, d) + |WithDigit(s[..i], pass, d)|
      invariant BucketsAt(s, pass, i, new_[..num])
    {
      PutOne(num, pass, i, cur[i], new_, offsets, s);
    }
    BucketsFilled(s, pass, new_[..num], 256);
  }

  lemma OneMoreDigit(s: seq<SymFreq>, pass: nat, i: nat, d: nat)
    requires i < |s|
    ensures |WithDigit(s[..i + 1], pass, d)| == |WithDigit(s[..i], pass, d)| + if Digit(s[i], pass) == d then 1 else 0
  {
    hide Digit;
    assert s[..i + 1][..i] == s[..i];
  }

  lemma PutInBuckets(s: seq<SymFreq>, pass: nat, i: nat, t: seq<SymFreq>, pos: nat)
    requires i < |s| && pos < |t| && BucketsAt(s, pass, i, t)
    requires var d := Digit(s[i], pass); pos == Start(s, pass, d) + |WithDigit(s[..i], pass, d)|
    ensures BucketsAt(s, pass, i + 1, t[pos := s[i]])
  {
    hide BucketAt, Digit, WithDigit, Start;
    var after, next := t[pos := s[i]], i + 1;
    forall e: nat | e < 256 ensures BucketAt(s, pass, next, e, after) {
      PutInBucket(s, pass, i, t, pos, e);
    }
  }

  method PutOne(num: nat, pass: nat, i: nat, r: SymFreq, new_: array<SymFreq>, offsets: array<nat>, ghost s: seq<SymFreq>)
    requires pass <= 1 && i < num == |s| <= new_.Length && r == s[i] && offsets.Length == 256 && offsets as object != new_
    requires forall d: nat :: d < 256 ==> offsets[d] == Start(s, pass, d) + |WithDigit(s[..i], pass, d)|
    requires BucketsAt(s, pass, i, new_[..num])
    modifies new_, offsets
    ensures forall d: nat :: d < 256 ==> offsets[d] == Start(s, pass, d) + |WithDigit(s[..i + 1], pass, d)|
    ensures BucketsAt(s, pass, i + 1, new_[..num])
  {
    hide BucketsAt, WithDigit, Buckets;
    var d := Digit(r, pass);
    assert d < 256;
    var pos := offsets[d];
    WithDigitPrefix(s, pass, d, i);
    StartMonotone(s, pass, d, 256);
    AllInBuckets(s, pass);
    PutInBuckets(s, pass, i, new_[..num], pos);
    ghost var before := new_[..num];
    new_[pos] := r;
    assert new_[..num] == before[pos := r];
    offsets[d] := pos + 1;
    forall e: nat | e < 256 ensures offsets[e] == Start(s, pass, e) + |WithDigit(s[..i + 1], pass, e)| {
      OneMoreDigit(s, pass, i, e);
    }
  }

  method Offsets(pass: nat, hist: array<nat>, ghost s: seq<SymFreq>) returns (offsets: array<nat>)
    requires pass <= 1 && hist.Length == 512
    requires forall d: nat :: d < 256 ==> hist[256 * pass + d] == |WithDigit(s, pass, d)|
    ensures fresh(offsets) && offsets.Length == 256
    ensures forall d: nat :: d < 256 ==> offsets[d] == Start(s, pass, d)
  {
    offsets := new nat[256];
    var curOfs := 0;
    for i := 0 to 256
      invariant curOfs == Start(s, pass, i)
      invariant forall d: nat :: d < i ==> offsets[d] == Start(s, pass, d)
    {
      offsets[i] := curOfs;
      curOfs := curOfs + hist[256 * pass + i];
    }
  }

  /** After some passes: the low bytes are sorted, and the records of each key are still in order. */
  ghost predicate SortedUpTo(s: seq<SymFreq>, t: seq<SymFreq>, pass: nat) {
    && LowSorted(t, pass) && (forall i :: 0 <= i < |t| ==> t[i].key < 65536)
    && forall k: nat :: SameWithKey(s, t, k)
  }

  predicate SameWithKey(s: seq<SymFreq>, t: seq<SymFreq>, k: nat) {
    WithKey(t, k) == WithKey(s, k)
  }

  lemma PassSorts(s: seq<SymFreq>, t: seq<SymFreq>, t': seq<SymFreq>, pass: nat)
    requires pass <= 1 && SortedUpTo(s, t, pass) && t' == Buckets(t, pass, 256)
    ensures SortedUpTo(s, t', pass + 1)
  {
    BucketsSorted(t, pass, 256);
    forall k: nat ensures SameWithKey(s, t', k) {
      assert SameWithKey(s, t, k);
      BucketsWithKey(t, pass, 256, k);
    }
  }

  /** How many records have a low byte below e and high byte d. */
  function Both(s: seq<SymFreq>, e: nat, d: nat): nat {
    if s == [] then 0
    else Both(s[..|s| - 1], e, d) + if Digit(s[|s| - 1], 0) < e && Digit(s[|s| - 1], 1) == d then 1 else 0
  }

  lemma {:induction false} WithDigitConcat(a: seq<SymFreq>, b: seq<SymFreq>, pass: nat, d: nat)
    ensures WithDigit(a + b, pass, d) == WithDigit(a, pass, d) + WithDigit(b, pass, d)
  {
    if b == [] {
      assert a + b == a;
    } else {
      var n := |b| - 1;
      assert (a + b)[..|a + b| - 1] == a + b[..n];
      WithDigitConcat(a, b[..n], pass, d);
    }
  }

  lemma WithDigitOne(r: SymFreq, pass: nat, d: nat)
    ensures WithDigit([r], pass, d) == if Digit(r, pass) == d then [r] else []
  {
    assert [r][..0] == [];
  }

  lemma {:induction false} WithBothDigits(s: seq<SymFreq>, e: nat, d: nat)
    ensures |WithDigit(WithDigit(s, 0, e), 1, d)| + Both(s, e, d) == Both(s, e + 1, d)
  {
    if s != [] {
      var n := |s| - 1;
      WithBothDigits(s[..n], e, d);
      if Digit(s[n], 0) == e {
        assert WithDigit(s, 0, e) == WithDigit(s[..n], 0, e) + [s[n]];
        WithDigitConcat(WithDigit(s[..n], 0, e), [s[n]], 1, d);
        WithDigitOne(s[n], 1, d);
      } else {
        assert WithDigit(s, 0, e) == WithDigit(s[..n], 0, e);
      }
    }
  }

  lemma {:induction false} BucketsBoth(s: seq<SymFreq>, e: nat, d: nat)
    ensures |WithDigit(Buckets(s, 0, e), 1, d)| == Both(s, e, d)
  {
    if e == 0 {
      NoneBelowZero(s, d);
    } else {
      var front, last := Buckets(s, 0, e - 1), WithDigit(s, 0, e - 1);
      assert Buckets(s, 0, e) == front + last;
      BucketsBoth(s, e - 1, d);
      WithDigitConcat(front, last, 1, d);
      WithBothDigits(s, e - 1, d);
    }
  }

  lemma {:induction false} NoneBelowZero(s: seq<SymFreq>, d: nat)
    ensures Both(s, 0, d) == 0
  {
    if s != [] {
      NoneBelowZero(s[..|s| - 1], d);
    }
  }

  /** The first pass does not change how often each high byte occurs. */
  lemma {:induction false} HighBytesKept(s: seq<SymFreq>, d: nat)
    ensures Both(s, 256, d) == |WithDigit(s, 1, d)|
  {
    if s != [] {
      HighBytesKept(s[..|s| - 1], d);
    }
  }

  /** If all high bytes are zero the low bytes are the keys. */
  lemma {:induction false} HighBytesZero(s: seq<SymFreq>)
    requires |WithDigit(s, 1, 0)| == |s| && forall i :: 0 <= i < |s| ==> s[i].key < 65536
    ensures forall i :: 0 <= i < |s| ==> s[i].key < 256
  {
    if s != [] {
      WithDigitPrefix(s, 1, 0, |s|);
      AtMostAll(s[..|s| - 1], 1, 0);
      HighBytesZero(s[..|s| - 1]);
      assert s == s[..|s| - 1] + [s[|s| - 1]];
    }
  }

  lemma {:induction false} AtMostAll(s: seq<SymFreq>, pass: nat, d: nat)
    ensures |WithDigit(s, pass, d)| <= |s|
  {
    if s != [] {
      AtMostAll(s[..|s| - 1], pass, d);
    }
  }

  lemma FullySorted(s: seq<SymFreq>, t: seq<SymFreq>, passes: nat)
    requires 1 <= passes <= 2 && SortedUpTo(s, t, passes)
    requires passes == 1 ==> forall i :: 0 <= i < |t| ==> t[i].key < 256
    ensures StableSorted(s, t)
  {
    forall i, j | 0 <= i <= j < |t| ensures t[i].key <= t[j].key {
      assert LowOrdered(t, passes, i, j);
    }
    forall k: nat ensures WithKey(t, k) == WithKey(s, k) {
      assert SameWithKey(s, t, k);
    }
  }

  /** The pass over the high byte is skipped when that byte is zero in all keys. */
  method RadixSortSyms(num: nat, syms0: array<SymFreq>, syms1: array<SymFreq>) returns (curSyms: array<SymFreq>)
    requires num <= syms0.Length && num <= syms1.Length && syms0 != syms1
    requires forall i :: 0 <= i < num ==> syms0[i].key < 65536
    modifies syms0, syms1
    ensures curSyms == syms0 || curSyms == syms1
    ensures StableSorted(old(syms0[..num]), curSyms[..num])
  {
    ghost var s := syms0[..num];
    var hist := Histogram(num, syms0);
    var totalPasses := 2;
    while totalPasses > 1 && num == hist[(totalPasses - 1) * 256]
      invariant 1 <= totalPasses <= 2 && (totalPasses == 1 ==> num == hist[256])
    {
      totalPasses := totalPasses - 1;
    }
    curSyms := syms0;
    var newSyms := syms1;
    for pass := 0 to totalPasses
      invariant curSyms != newSyms && {curSyms, newSyms} == {syms0, syms1}
      invariant |curSyms[..num]| == num && SortedUpTo(s, curSyms[..num], pass)
      invariant pass < 2 ==> forall d: nat :: d < 256 ==> hist[256 * pass + d] == |WithDigit(curSyms[..num], pass, d)|
      invariant pass == 1 ==> curSyms[..num] == Buckets(s, 0, 256)
      invariant pass == 0 ==> curSyms[..num] == s
      invariant forall d: nat :: d < 256 ==> hist[256 + d] == |WithDigit(s, 1, d)|
    {
      Pass(num, pass, hist, curSyms, newSyms);
      PassSorts(s, curSyms[..num], newSyms[..num], pass);
      forall d: nat | d < 256 && pass == 0 ensures hist[256 + d] == |WithDigit(newSyms[..num], 1, d)| {
        BucketsBoth(s, 256, d);
        HighBytesKept(s, d);
      }
      curSyms, newSyms := newSyms, curSyms;
    }
    if totalPasses == 1 {
      HighBytesZero(s);
      BucketsKeys(s, 256);
    }
    FullySorted(s, curSyms[..num], totalPasses);
  }

  lemma {:induction false} BucketsKeys(s: seq<SymFreq>, d: nat)
    requires forall i :: 0 <= i < |s| ==> s[i].key < 256
    ensures forall i :: 0 <= i < |Buckets(s, 0, d)| ==> Buckets(s, 0, d)[i].key < 256
  {
    if d > 0 {
      BucketsKeys(s, d - 1);
      WithDigitKeys(s, d - 1);
    }
  }

  lemma {:induction false} WithDigitKeys(s: seq<SymFreq>, d: nat)
    requires forall i :: 0 <= i < |s| ==> s[i].key < 256
    ensures forall i :: 0 <= i < |WithDigit(s, 0, d)| ==> WithDigit(s, 0, d)[i].key < 256
  {
    if s != [] {
      WithDigitKeys(s[..|s| - 1], d);
    }
  }
}
