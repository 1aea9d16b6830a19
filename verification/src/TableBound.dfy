/**
  Prefixes of codes longer than ten bits need inner nodes in the decoder's tree. There are never more of them than the
  tree has room for.
 */
module TableBound {
  import opened Bits
  import opened Canonical

  const FAST_LOOKUP_BITS: nat := 10
  const FAST_LOOKUP_SIZE: nat := 1024
  const TREE_SIZE: nat := 576

  function Bit(b: bool): nat { if b then 1 else 0 }

  /** The code bits of every symbol; empty for a symbol without a code. */
  function CodesOf(lens: seq<nat>): (codes: seq<seq<bool>>)
    ensures |codes| == |lens|
    ensures forall s :: 0 <= s < |lens| ==> codes[s] == if lens[s] > 0 then CodeBits(lens, s) else []
  {
    seq(|lens|, s requires 0 <= s < |lens| => if lens[s] > 0 then CodeBits(lens, s) else [])
  }

  predicate Coded(codes: seq<seq<bool>>, s: nat) {
    s < |codes| && codes[s] != []
  }

  ghost predicate NotPrefix(codes: seq<seq<bool>>, s: nat, t: nat) {
    Coded(codes, s) && Coded(codes, t) && s != t ==> !(codes[s] <= codes[t])
  }

  ghost predicate PrefixFreeCodes(codes: seq<seq<bool>>) {
    forall s: nat, t: nat :: NotPrefix(codes, s, t)
  }

  lemma CanonicalPrefixFree(lens: seq<nat>)
    requires Fits(lens)
    ensures PrefixFreeCodes(CodesOf(lens))
  {
    forall s: nat, t: nat ensures NotPrefix(CodesOf(lens), s, t) {
      if HasCode(lens, s) && HasCode(lens, t) && s != t {
        PrefixFree(lens, s, t);
      }
    }
  }

  /** p is a proper prefix of the code of s. */
  ghost predicate Inner(codes: seq<seq<bool>>, s: nat, p: seq<bool>) {
    Coded(codes, s) && |p| < |codes[s]| && p == codes[s][..|p|]
  }

  ghost predicate Owned(codes: seq<seq<bool>>, up: nat, p: seq<bool>) {
    exists s: nat :: s < up && Inner(codes, s, p)
  }

  function MsbValue(bs: seq<bool>): nat {
    if bs == [] then 0 else 2 * MsbValue(bs[..|bs| - 1]) + Bit(bs[|bs| - 1])
  }

  lemma {:induction false} MsbValueOf(v: nat, n: nat)
    requires v < Pow2(n)
    ensures MsbValue(MsbBits(v, n)) == v
  {
    if n != 0 {
      MsbValueOf(v / 2, n - 1);
      assert MsbBits(v, n)[..n - 1] == MsbBits(v / 2, n - 1);
    }
  }

  lemma {:induction false} MsbValueInjective(a: seq<bool>, b: seq<bool>)
    requires |a| == |b| && MsbValue(a) == MsbValue(b)
    ensures a == b
  {
    if a != [] {
      var n := |a| - 1;
      MsbValueInjective(a[..n], b[..n]);
      assert a == a[..n] + [a[n]] && b == b[..n] + [b[n]];
    }
  }

  /** How many prefixes of lengths 10 up to l - 1 can be inner nodes: those after the codes of their length. */
  function Room(lens: seq<nat>, l: nat): int
    requires l >= 10
  {
    if l == 10 then 0 else Room(lens, l - 1) + Pow2(l - 1) - EndCode(lens, l - 1)
  }

  function Key(lens: seq<nat>, p: seq<bool>): int
    requires |p| >= 10
  {
    Room(lens, |p|) + MsbValue(p) - EndCode(lens, |p|)
  }

  lemma PrefixValue(v: nat, m: nat, l: nat)
    requires l <= m && v < Pow2(m)
    ensures MsbValue(MsbBits(v, m)[..l]) == Shr(v, m - l) < Pow2(l)
  {
    ShrBound(v, m - l, l);
    MsbPrefix(v, m, l);
    MsbValueOf(Shr(v, m - l), l);
  }

  lemma InnerPrefix(lens: seq<nat>, s: nat, p: seq<bool>) returns (code: nat, m: nat)
    requires Inner(CodesOf(lens), s, p)
    ensures HasCode(lens, s) && code == Code(lens, s) && m == lens[s] && |p| < m
    ensures p == MsbBits(code, m)[..|p|]
  {
    code, m := Code(lens, s), lens[s];
    assert CodesOf(lens)[s] == CodeBits(lens, s);
  }

  lemma InnerRange(lens: seq<nat>, s: nat, p: seq<bool>)
    requires Fits(lens) && Inner(CodesOf(lens), s, p) && |p| >= 10
    ensures 10 <= |p| <= 14 && EndCode(lens, |p|) <= MsbValue(p) < Pow2(|p|)
  {
    var code, m := InnerPrefix(lens, s, p);
    CodeBound(lens, s);
    CodeBelowEnd(lens, s);
    PrefixRange(lens, code, m, p);
  }

  lemma PrefixRange(lens: seq<nat>, code: nat, m: nat, p: seq<bool>)
    requires NextCode(lens, m) <= code < Pow2(m) && 1 <= |p| < m && p == MsbBits(code, m)[..|p|]
    ensures EndCode(lens, |p|) <= MsbValue(p) < Pow2(|p|)
  {
    ShrAbove(lens, code, m, |p|);
    PrefixValue(code, m, |p|);
  }

  lemma {:induction false} RoomMonotone(lens: seq<nat>, l: nat, m: nat)
    requires Fits(lens) && 10 <= l <= m <= 15
    ensures Room(lens, l) <= Room(lens, m)
  {
    if l < m {
      RoomMonotone(lens, l, m - 1);
      EndCodeBound(lens, m - 1);
    }
  }

  lemma KeyRange(lens: seq<nat>, s: nat, p: seq<bool>)
    requires Fits(lens) && Inner(CodesOf(lens), s, p) && |p| >= 10
    ensures |p| <= 14 && 0 <= Room(lens, |p|) <= Key(lens, p) < Room(lens, |p| + 1) <= Room(lens, 15)
  {
    InnerRange(lens, s, p);
    RoomMonotone(lens, 10, |p|);
    RoomMonotone(lens, |p| + 1, 15);
  }

  lemma KeysApart(lens: seq<nat>, p: seq<bool>, q: seq<bool>)
    requires Fits(lens) && 10 <= |p| < |q| <= 14
    requires Key(lens, p) < Room(lens, |p| + 1) && Room(lens, |q|) <= Key(lens, q)
    ensures Key(lens, p) < Key(lens, q)
  {
    RoomMonotone(lens, |p| + 1, |q|);
  }

  lemma KeysDiffer(lens: seq<nat>, s: nat, p: seq<bool>, t: nat, q: seq<bool>)
    requires Fits(lens) && Inner(CodesOf(lens), s, p) && Inner(CodesOf(lens), t, q) && |p| >= 10 && |q| >= 10 && p != q
    ensures Key(lens, p) != Key(lens, q)
  {
    KeyRange(lens, s, p);
    KeyRange(lens, t, q);
    if |p| < |q| {
      KeysApart(lens, p, q);
    } else if |q| < |p| {
      KeysApart(lens, q, p);
    } else if MsbValue(p) == MsbValue(q) {
      MsbValueInjective(p, q);
    }
  }

  /** In a complete code there are fewer inner nodes below depth 10 than symbols with longer codes. */
  lemma CompleteRoom(lens: seq<nat>)
    requires Fits(lens) && NextCode(lens, 16) == 65536
    ensures Room(lens, 15) <= |lens|
  {
    Pow2Values();
    assert Pow2(11) == 2048 && Pow2(12) == 4096 && Pow2(14) == 16384;
    UsedIsUsedUpTo(lens, 15);
    UsedAtMostAll(lens);
    CountsFrom11(lens);
    assert Room(lens, 11) == 1024 - EndCode(lens, 10);
    assert Room(lens, 12) == Room(lens, 11) + 2048 - EndCode(lens, 11);
    assert Room(lens, 13) == Room(lens, 12) + 4096 - EndCode(lens, 12);
    assert Room(lens, 14) == Room(lens, 13) + 8192 - EndCode(lens, 13);
    assert EndCode(lens, 11) == 2 * EndCode(lens, 10) + Count(lens, 11);
    assert EndCode(lens, 12) == 2 * EndCode(lens, 11) + Count(lens, 12);
    assert EndCode(lens, 13) == 2 * EndCode(lens, 12) + Count(lens, 13);
    assert EndCode(lens, 14) == 2 * EndCode(lens, 13) + Count(lens, 14);
    assert EndCode(lens, 15) == 2 * EndCode(lens, 14) + Count(lens, 15);
    EndCodeBound(lens, 10);
  }

  lemma CountsFrom11(lens: seq<nat>)
    ensures UsedUpTo(lens, 15) >= Count(lens, 11) + Count(lens, 12) + Count(lens, 13) + Count(lens, 14) + Count(lens, 15)
  {
    assert UsedUpTo(lens, 11) >= Count(lens, 11);
    assert UsedUpTo(lens, 13) == UsedUpTo(lens, 12) + Count(lens, 13);
  }

  lemma {:induction false} UsedAtMostAll(lens: seq<nat>)
    ensures Used(lens) <= |lens|
  {
    if lens != [] {
      UsedAtMostAll(lens[..|lens| - 1]);
    }
  }

  /** A number for every inner prefix, different for different prefixes and below the size of the tree. */
  ghost function PathKey(lens: seq<nat>, p: seq<bool>): int {
    if |p| < 10 then 0 else if Used(lens) <= 1 then |p| - 10 else Key(lens, p)
  }

  lemma PathKeyRange(lens: seq<nat>, p: seq<bool>)
    requires AcceptedLens(lens) && |p| >= 10 && Owned(CodesOf(lens), |lens|, p)
    ensures 0 <= PathKey(lens, p) < TREE_SIZE / 2
  {
    DecodableFits(lens);
    var s: nat :| s < |lens| && Inner(CodesOf(lens), s, p);
    KeyRange(lens, s, p);
    if Used(lens) > 1 {
      CompleteRoom(lens);
    }
  }

  lemma PathKeysDiffer(lens: seq<nat>, p: seq<bool>, q: seq<bool>)
    requires AcceptedLens(lens) && |p| >= 10 && Owned(CodesOf(lens), |lens|, p)
    requires |q| >= 10 && Owned(CodesOf(lens), |lens|, q) && p != q
    ensures PathKey(lens, p) != PathKey(lens, q)
  {
    DecodableFits(lens);
    var s: nat :| s < |lens| && Inner(CodesOf(lens), s, p);
    var t: nat :| t < |lens| && Inner(CodesOf(lens), t, q);
    if Used(lens) <= 1 {
      AtMostOneUsed(lens, s, t);
    } else {
      KeysDiffer(lens, s, p, t, q);
    }
  }

  lemma {:induction false} KeySet(lens: seq<nat>, paths: set<seq<bool>>) returns (keys: set<int>)
    requires AcceptedLens(lens)
    requires forall p :: p in paths ==> |p| >= 10 && Owned(CodesOf(lens), |lens|, p)
    ensures |keys| == |paths|
    ensures forall k :: k in keys ==> exists p :: p in paths && k == PathKey(lens, p)
    decreases |paths|
  {
    if paths == {} {
      keys := {};
    } else {
      var p :| p in paths;
      var rest := KeySet(lens, paths - {p});
      var k := PathKey(lens, p);
      if k in rest {
        var q :| q in paths - {p} && k == PathKey(lens, q);
        PathKeysDiffer(lens, p, q);
      }
      keys := rest + {k};
    }
  }

  lemma {:induction false} BelowSize(keys: set<int>, n: nat)
    requires forall k :: k in keys ==> 0 <= k < n
    ensures |keys| <= n
  {
    if n == 0 {
      forall k ensures k !in keys {
      }
      assert keys == {};
    } else {
      BelowSize(keys - {n - 1}, n - 1);
    }
  }

  ghost predicate AcceptedLens(lens: seq<nat>) {
    Decodable(lens) && |lens| <= 288
  }

  ghost predicate AcceptedCodes(codes: seq<seq<bool>>) {
    exists lens :: AcceptedLens(lens) && codes == CodesOf(lens)
  }

  /** The inner prefixes of an accepted code fit in the tree. */
  lemma NodeBound(codes: seq<seq<bool>>, paths: set<seq<bool>>)
    requires AcceptedCodes(codes)
    requires forall p :: p in paths ==> |p| >= 10 && Owned(codes, |codes|, p)
    ensures 2 * |paths| <= TREE_SIZE
  {
    var lens :| AcceptedLens(lens) && codes == CodesOf(lens);
    var keys := KeySet(lens, paths);
    forall k | k in keys ensures 0 <= k < TREE_SIZE / 2 {
      var p :| p in paths && k == PathKey(lens, p);
      PathKeyRange(lens, p);
    }
    BelowSize(keys, TREE_SIZE / 2);
  }
}
