/** A block with the fixed codes is never much longer than the packed tokens: 31 bits for 25, so that it fits the output buffer. */
module StaticBounds {
  import opened Bits
  import opened TableBound
  import opened LenDist
  import opened Lz
  import opened Deflate
  import opened TokenBuffers
  import opened TokenItems

  /** The bits a token takes in the packed form, with its flag. */
  function PackedBits(t: Token): nat {
    if t.Match? then 25 else 9
  }

  function TotalPackedBits(ts: seq<Token>): nat {
    if ts == [] then 0 else PackedBits(ts[0]) + TotalPackedBits(ts[1..])
  }

  lemma {:induction false} DataBits(ts: seq<Token>)
    requires AllRecordable(ts)
    ensures 8 * |Data(ts)| + |ts| == TotalPackedBits(ts)
  {
    if ts != [] {
      DataBits(ts[1..]);
    }
  }

  lemma {:induction false} TotalConcat(a: seq<Token>, b: seq<Token>)
    ensures TotalPackedBits(a + b) == TotalPackedBits(a) + TotalPackedBits(b)
  {
    if a == [] {
      assert a + b == b;
    } else {
      TotalConcat(a[1..], b);
      assert (a + b)[1..] == a[1..] + b;
    }
  }

  lemma {:induction false} PackBits(ts: seq<Token>)
    requires AllRecordable(ts)
    ensures 8 * |Pack(ts)| >= TotalPackedBits(ts)
  {
    if ts != [] {
      hide FlagByte, Data;
      var n := if |ts| < 8 then |ts| else 8;
      PackBits(ts[n..]);
      DataBits(ts[..n]);
      assert ts[..n] + ts[n..] == ts;
      TotalConcat(ts[..n], ts[n..]);
    }
  }

  lemma FixedLength(s: nat)
    requires s < 288
    ensures |CodeOf(FixedCodes().lit, s)| == FixedLitLens()[s] <= 9 && (256 <= s ==> FixedLitLens()[s] <= 8)
    ensures Coded(FixedCodes().lit, s)
  {
  }

  lemma FixedDistance(s: nat)
    requires s < 30
    ensures |CodeOf(FixedCodes().dist, s)| == 5 && Coded(FixedCodes().dist, s)
  {
  }

  /** A literal takes at most 9 bits, a match at most 8 + 5 + 5 + 13. */
  lemma FixedItemBits(t: Token)
    requires Recordable(t)
    ensures 25 * |ItemBits(FixedCodes(), ItemOf(t))| <= 31 * PackedBits(t) && TokenCoded(FixedCodes(), t)
  {
    hide FixedCodes, Coded, CodeOf, ItemOf, LitSymOf, DistSymOf, LengthExtra, DistanceExtra, LenExtra, DistExtra, ToBits;
    SymbolRange(t);
    ItemShape(t);
    FixedLength(LitSymOf(t));
    if t.Match? {
      ItemMeaning(t);
      MatchRange(t);
      SmallExtra(t.len - 3, t.dist - 1);
      FixedDistance(DistSymOf(t));
    }
  }

  lemma {:induction false} FixedItemsBits(ts: seq<Token>)
    requires AllRecordable(ts)
    ensures 25 * |ItemsBits(FixedCodes(), Items(ts))| <= 31 * TotalPackedBits(ts) + 25 * 8
    ensures AllCoded(FixedCodes(), ts)
  {
    hide FixedCodes, ItemOf, ItemBits, Recordable, TokenCoded, CodeOf;
    if ts == [] {
      FixedLength(256);
    } else {
      FixedItemBits(ts[0]);
      FixedItemsBits(ts[1..]);
      assert Items(ts)[0] == ItemOf(ts[0]) && Items(ts)[1..] == Items(ts[1..]);
      forall i | 0 <= i < |ts| ensures TokenCoded(FixedCodes(), ts[i]) {
        if i > 0 {
          assert TokenCoded(FixedCodes(), ts[1..][i - 1]);
        }
      }
    }
  }

  lemma {:induction false} PackedPerByte(ts: seq<Token>)
    requires AllRecordable(ts)
    ensures TotalPackedBits(ts) <= 9 * TokensLen(ts)
  {
    if ts != [] {
      PackedPerByte(ts[1..]);
    }
  }

  /** In terms of what the tokens stand for, a block with the fixed codes takes at most 12 bits for a byte. */
  lemma StaticSize(ts: seq<Token>)
    requires AllRecordable(ts)
    ensures |ItemsBits(FixedCodes(), Items(ts))| <= 12 * TokensLen(ts) + 8
  {
    hide FixedCodes, Items, ItemsBits;
    FixedItemsBits(ts);
    PackedPerByte(ts);
  }

  /** The block fits in TDEFL_OUT_BUF_SIZE - 16 bytes, with room to spare for what comes before and after it. */
  lemma StaticFits(ts: seq<Token>)
    requires AllRecordable(ts) && |Pack(ts)| <= LZ_CODE_BUF_SIZE
    ensures |ItemsBits(FixedCodes(), Items(ts))| <= 650126 < 8 * 85180 - 1000
    ensures AllCoded(FixedCodes(), ts)
  {
    hide FixedCodes, Items, ItemsBits, Pack;
    FixedItemsBits(ts);
    PackBits(ts);
  }
}
