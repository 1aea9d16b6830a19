/** Canonical Huffman codes (section 3.2.2 of RFC 1951): the code of every symbol follows from the code lengths alone. */
module Canonical {
  import opened Bits

  const MAX_CODE_SIZE: nat := 15

  /** How many of the lengths equal l: total_syms[l] in the decoder, num_codes[l] in the encoder. */
  function Count(lens: seq<nat>, l: nat): nat {
    if lens == [] then 0
    else Count(lens[..|lens| - 1], l) + if lens[|lens| - 1] == l then 1 else 0
  }

  lemma {:induction false} NotCounted(lens: seq<nat>, d: nat)
    requires forall i :: 0 <= i < |lens| ==> lens[i] != d
    ensures Count(lens, d) == 0
  {
    if lens != [] {
      NotCounted(lens[..|lens| - 1], d);
    }
  }

  /** The first code of length l. */
  function NextCode(lens: seq<nat>, l: nat): nat {
    if l <= 1 then 0 else 2 * (NextCode(lens, l - 1) + Count(lens, l - 1))
  }

  /** One past the last code of length l. */
  function EndCode(lens: seq<nat>, l: nat): nat
    requires l >= 1
  {
    NextCode(lens, l) + Count(lens, l)
  }

  /** No length is above 15 and the lengths do not ask for more codes than there are. */
  predicate Fits(lens: seq<nat>) {
    && (forall i :: 0 <= i < |lens| ==> lens[i] <= MAX_CODE_SIZE)
    && EndCode(lens, MAX_CODE_SIZE) <= 32768
  }

  predicate HasCode(lens: seq<nat>, s: nat) {
    s < |lens| && lens[s] > 0
  }

  function Code(lens: seq<nat>, s: nat): nat
    requires HasCode(lens, s)
  {
    NextCode(lens, lens[s]) + Count(lens[..s], lens[s])
  }

  /** The code of s in the order its bits are sent. */
  function CodeBits(lens: seq<nat>, s: nat): (bs: seq<bool>)
    requires HasCode(lens, s)
    ensures |bs| == lens[s]
  {
    MsbBits(Code(lens, s), lens[s])
  }

  lemma {:induction false} CountPrefix(lens: seq<nat>, s: nat, l: nat)
    requires s <= |lens|
    ensures Count(lens[..s], l) <= Count(lens, l)
    ensures s < |lens| && lens[s] == l ==> Count(lens[..s], l) < Count(lens, l)
  {
    if s < |lens| {
      var n := |lens| - 1;
      if s == n {
      } else {
        CountPrefix(lens[..n], s, l);
        assert lens[..n][..s] == lens[..s];
      }
    } else {
      assert lens[..s] == lens;
    }
  }

  lemma {:induction false} CodeBelowEnd(lens: seq<nat>, s: nat)
    requires HasCode(lens, s)
    ensures NextCode(lens, lens[s]) <= Code(lens, s) < EndCode(lens, lens[s])
  {
    CountPrefix(lens, s, lens[s]);
  }

  /** Codes of a length, cut down to a shorter length l, come after every code of length l. */
  lemma {:induction false} ShrAbove(lens: seq<nat>, x: nat, m: nat, l: nat)
    requires 1 <= l < m
    requires x >= NextCode(lens, m)
    ensures Shr(x, m - l) >= EndCode(lens, l)
  {
    assert x / 2 >= EndCode(lens, m - 1);
    if l < m - 1 {
      ShrAbove(lens, x / 2, m - 1, l);
    }
  }

  lemma {:induction false} EndCodeBound(lens: seq<nat>, l: nat)
    requires Fits(lens) && 1 <= l <= MAX_CODE_SIZE
    ensures EndCode(lens, l) <= Pow2(l)
    decreases MAX_CODE_SIZE - l
  {
    if l == MAX_CODE_SIZE {
      Pow2Values();
    } else {
      EndCodeBound(lens, l + 1);
    }
  }

  lemma {:induction false} CodeBound(lens: seq<nat>, s: nat)
    requires Fits(lens) && HasCode(lens, s)
    ensures Code(lens, s) < Pow2(lens[s])
  {
    CodeBelowEnd(lens, s);
    EndCodeBound(lens, lens[s]);
  }

  /** Two symbols of one length have different codes. */
  lemma SameLengthDiffers(lens: seq<nat>, s: nat, t: nat)
    requires HasCode(lens, s) && HasCode(lens, t) && s < t && lens[s] == lens[t]
    ensures Code(lens, s) < Code(lens, t)
  {
    assert lens[..t][..s] == lens[..s];
    CountPrefix(lens[..t], s, lens[s]);
  }

  /** No code is a prefix of another symbol's code. */
  lemma PrefixFree(lens: seq<nat>, s: nat, t: nat)
    requires Fits(lens) && HasCode(lens, s) && HasCode(lens, t) && s != t
    ensures !(CodeBits(lens, s) <= CodeBits(lens, t))
  {
    var l, m := lens[s], lens[t];
    CodeBound(lens, s);
    CodeBound(lens, t);
    if l == m {
      SameLengthDiffers(lens, if s < t then s else t, if s < t then t else s);
      if CodeBits(lens, s) <= CodeBits(lens, t) {
        assert CodeBits(lens, s) == CodeBits(lens, t);
        MsbInjective(Code(lens, s), Code(lens, t), l);
      }
    } else if l < m {
      CodeBelowEnd(lens, s);
      CodeBelowEnd(lens, t);
      ShrAbove(lens, Code(lens, t), m, l);
      ShrBound(Code(lens, t), m - l, l);
      if CodeBits(lens, s) <= CodeBits(lens, t) {
        MsbPrefix(Code(lens, t), m, l);
        MsbInjective(Code(lens, s), Shr(Code(lens, t), m - l), l);
      }
    }
  }

  lemma {:induction false} ShrBound(v: nat, k: nat, n: nat)
    requires v < Pow2(n + k)
    ensures Shr(v, k) < Pow2(n)
  {
    if k != 0 {
      ShrBound(v / 2, k - 1, n);
    }
  }

  /** How many symbols have a code: used_syms. */
  function Used(lens: seq<nat>): nat {
    if lens == [] then 0 else Used(lens[..|lens| - 1]) + if lens[|lens| - 1] > 0 then 1 else 0
  }

  function UsedUpTo(lens: seq<nat>, l: nat): nat {
    if l == 0 then 0 else UsedUpTo(lens, l - 1) + Count(lens, l)
  }

  /** The lengths the decoder accepts: a complete code, or at most one symbol. */
  predicate Decodable(lens: seq<nat>) {
    && (forall i :: 0 <= i < |lens| ==> lens[i] <= MAX_CODE_SIZE)
    && (NextCode(lens, MAX_CODE_SIZE + 1) == 65536 || Used(lens) <= 1)
  }

  lemma {:induction false} UsedIsUsedUpTo(lens: seq<nat>, l: nat)
    requires forall i :: 0 <= i < |lens| ==> lens[i] <= l
    ensures Used(lens) == UsedUpTo(lens, l)
  {
    if lens != [] {
      var init := lens[..|lens| - 1];
      UsedIsUsedUpTo(init, l);
      UsedUpToLast(lens, l);
    } else {
      UsedUpToNone(l);
    }
  }

  lemma {:induction false} UsedUpToNone(l: nat)
    ensures UsedUpTo([], l) == 0
  {
    if l > 0 {
      UsedUpToNone(l - 1);
    }
  }

  lemma {:induction false} UsedUpToLast(lens: seq<nat>, l: nat)
    requires lens != []
    ensures UsedUpTo(lens, l)
         == UsedUpTo(lens[..|lens| - 1], l) + if 0 < lens[|lens| - 1] <= l then 1 else 0
  {
    if l > 0 {
      UsedUpToLast(lens, l - 1);
    }
  }

  lemma {:induction false} UsedPrefix(lens: seq<nat>, s: nat)
    requires s <= |lens|
    ensures Used(lens[..s]) <= Used(lens) <= Used(lens[..s]) + |lens| - s
    ensures HasCode(lens, s) ==> Used(lens[..s]) < Used(lens)
  {
    if s < |lens| {
      var n := |lens| - 1;
      if s < n {
        UsedPrefix(lens[..n], s);
        assert lens[..n][..s] == lens[..s];
      }
    } else {
      assert lens[..s] == lens;
    }
  }

  lemma AtMostOneUsed(lens: seq<nat>, s: nat, t: nat)
    requires Used(lens) <= 1 && HasCode(lens, s) && HasCode(lens, t)
    ensures s == t
  {
    if s != t {
      var a, b := if s < t then s else t, if s < t then t else s;
      UsedPrefix(lens, b);
      UsedPrefix(lens[..b], a);
    }
  }

  /** The Kraft sum, in units of 2^-l: each symbol of length at most l adds 2^(l - length). */
  lemma {:induction false} KraftLast(lens: seq<nat>, l: nat)
    requires lens != [] && l >= 1
    ensures EndCode(lens, l) == EndCode(lens[..|lens| - 1], l)
         + if 0 < lens[|lens| - 1] <= l then Pow2(l - lens[|lens| - 1]) else 0
  {
    if l > 1 {
      KraftLast(lens, l - 1);
    }
  }

  lemma {:induction false} FewFit(lens: seq<nat>)
    ensures EndCode(lens, MAX_CODE_SIZE) <= Used(lens) * 16384
  {
    if lens == [] {
      assert Count([], 1) == 0;
      NoneFit(MAX_CODE_SIZE);
    } else {
      var last := lens[|lens| - 1];
      FewFit(lens[..|lens| - 1]);
      KraftLast(lens, MAX_CODE_SIZE);
      if 0 < last <= MAX_CODE_SIZE {
        Pow2Monotone(MAX_CODE_SIZE - last, 14);
        Pow2Values();
      }
    }
  }

  lemma {:induction false} NoneFit(l: nat)
    requires l >= 1
    ensures EndCode([], l) == 0
  {
    if l > 1 {
      NoneFit(l - 1);
    }
  }

  lemma DecodableFits(lens: seq<nat>)
    requires Decodable(lens)
    ensures Fits(lens)
  {
    FewFit(lens);
  }

  /** The most significant bit of the low k + 1 bits comes first. */
  lemma {:induction false} MsbCons(v: nat, k: nat)
    ensures MsbBits(v, k + 1) == [Shr(v, k) % 2 == 1] + MsbBits(v, k)
  {
    if k != 0 {
      MsbCons(v / 2, k - 1);
    } else {
      assert MsbBits(v, 1) == MsbBits(v / 2, 0) + [v % 2 == 1];
    }
  }

  lemma {:induction false} ShrStep(v: nat, k: nat)
    ensures Shr(v, k + 1) == Shr(v, k) / 2
  {
    if k != 0 {
      ShrStep(v / 2, k - 1);
    }
  }

  /** The bit reversal loop of both table builders: codes are sent most significant bit first. */
  method ReverseCode(code: nat, codeSize: nat) returns (revCode: nat)
    ensures revCode == FromBits(MsbBits(code, codeSize))
  {
    revCode := 0;
    var curCode := code;
    var l := codeSize;
    while l > 0
      invariant 0 <= l <= codeSize
      invariant curCode == Shr(code, codeSize - l)
      invariant revCode == FromBits(MsbBits(code, codeSize - l))
    {
      MsbCons(code, codeSize - l);
      ShrStep(code, codeSize - l);
      revCode := 2 * revCode + curCode % 2;
      l, curCode := l - 1, curCode / 2;
    }
  }

  /** next_code while the symbols below s have taken their codes. */
  ghost predicate CodesBefore(lens: seq<nat>, s: nat, nextCode: seq<nat>, maxSize: nat)
    requires s <= |lens|
  {
    && |nextCode| > maxSize
    && forall l :: 1 <= l <= maxSize ==> nextCode[l] == NextCode(lens, l) + Count(lens[..s], l)
  }

  lemma NoneBefore(lens: seq<nat>, nextCode: seq<nat>, maxSize: nat)
    requires |nextCode| > maxSize && forall l :: 1 <= l <= maxSize ==> nextCode[l] == NextCode(lens, l)
    ensures CodesBefore(lens, 0, nextCode, maxSize)
  {
    assert lens[..0] == [];
  }

  /** How the next code and the number of symbols used go from one length to the next. */
  lemma LengthStep(lens: seq<nat>, l: nat)
    ensures NextCode(lens, 1) == 0 && UsedUpTo(lens, 0) == 0
    ensures l >= 1 ==> NextCode(lens, l + 1) == 2 * (NextCode(lens, l) + Count(lens, l))
    ensures l >= 1 ==> UsedUpTo(lens, l) == UsedUpTo(lens, l - 1) + Count(lens, l)
  {
  }

  lemma NoCodeTaken(lens: seq<nat>, s: nat, nextCode: seq<nat>, maxSize: nat)
    requires s < |lens| && lens[s] == 0 && CodesBefore(lens, s, nextCode, maxSize)
    ensures CodesBefore(lens, s + 1, nextCode, maxSize)
  {
    assert lens[..s + 1][..s] == lens[..s];
  }

  /** The reversed code of the symbol; the next symbol of the same length gets the code after it. */
  method TakeCode(ghost lens: seq<nat>, ghost symIndex: nat, size: nat, nextCode: array<nat>, ghost maxSize: nat)
    returns (revCode: nat)
    requires symIndex < |lens| && 0 < size == lens[symIndex] <= maxSize
    requires CodesBefore(lens, symIndex, nextCode[..], maxSize)
    modifies nextCode
    ensures revCode == FromBits(CodeBits(lens, symIndex)) && CodesBefore(lens, symIndex + 1, nextCode[..], maxSize)
  {
    revCode := ReverseCode(nextCode[size], size);
    ghost var before := nextCode[..];
    nextCode[size] := nextCode[size] + 1;
    assert nextCode[..] == before[size := before[size] + 1];
    assert lens[..symIndex + 1][..symIndex] == lens[..symIndex];
  }
}
