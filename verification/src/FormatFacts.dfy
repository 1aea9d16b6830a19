/** The constants of the format in other words, so that the encoder and the decoder do not just agree with each other. */
module FormatFacts {
  import opened Bits
  import opened Canonical
  import opened TableBound
  import opened LenDist
  import opened Lz
  import opened Deflate
  import opened Adler32
  import Rle = CodeLengthRle

  // ---- lengths and distances (section 3.2.5 of RFC 1951) ----

  lemma Powers()
    ensures Pow2(0) == 1 && Pow2(1) == 2 && Pow2(2) == 4 && Pow2(3) == 8 && Pow2(4) == 16 && Pow2(5) == 32 && Pow2(6) == 64
    ensures Pow2(7) == 128 && Pow2(8) == 256 && Pow2(9) == 512 && Pow2(10) == 1024 && Pow2(11) == 2048 && Pow2(12) == 4096
    ensures Pow2(13) == 8192
  {
    Pow2Values();
  }

  /** The lengths that the symbols 257 to 284 stand for follow one another from 3 on, and 285 stands for 258. */
  lemma LengthTable(i: nat)
    requires i <= 28
    ensures LENGTH_BASE[0] == 3 && LENGTH_BASE[28] == 258
    ensures i < 27 ==> LENGTH_BASE[i + 1] == LENGTH_BASE[i] + Pow2(LENGTH_EXTRA[i])
    ensures LENGTH_EXTRA[i] == if i < 8 || i == 28 then 0 else (i - 4) / 4
  {
    hide Pow2;
    Powers();
  }

  /** The distances follow one another from 1 on. */
  lemma DistanceTable(i: nat)
    requires i < 30
    ensures DIST_BASE[0] == 1
    ensures i < 29 ==> DIST_BASE[i + 1] == DIST_BASE[i] + Pow2(DIST_EXTRA[i])
    ensures DIST_EXTRA[i] == if i < 4 then 0 else (i - 2) / 2
  {
    hide Pow2;
    Powers();
  }

  /** The symbol of a length is the one whose lengths it is among; 258 has one of its own. */
  lemma LengthSymbol(l: nat, i: nat)
    requires l < 256 && i <= 28
    ensures LenSym(l) == 257 + i <==>
      if i == 28 then l == 255 else l < 255 && LENGTH_BASE[i] <= l + 3 < LENGTH_BASE[i] + Pow2(LENGTH_EXTRA[i])
  {
    hide Pow2, LenExtra, LenSym;
    LengthsAgree(l);
    Remainder(l, Pow2(LenExtra(l)));
    var s := LenSym(l) - 257;
    LastLength(l);
    if s < i {
      LengthGrows(s, i);
    } else if i < s {
      LengthGrows(i, s);
    }
  }

  lemma LastLength(l: nat)
    requires l < 256
    ensures LenSym(l) == 285 <==> l == 255
  {
  }

  lemma {:induction false} LengthGrows(i: nat, j: nat)
    requires i < j <= 28
    ensures LENGTH_BASE[i] + Pow2(LENGTH_EXTRA[i]) <= LENGTH_BASE[j] + (if j == 28 then 1 else 0)
    decreases j - i
  {
    hide Pow2;
    LengthTable(i);
    if i + 1 < j {
      LengthGrows(i + 1, j);
    } else if i == 27 {
      Powers();
    }
  }

  /** And so is the symbol of a distance. */
  lemma DistanceSymbol(d: nat, i: nat)
    requires d < 32768 && i < 30
    ensures DistSym(d) == i <==> DIST_BASE[i] <= d + 1 < DIST_BASE[i] + Pow2(DIST_EXTRA[i])
  {
    hide Pow2, DistSym, DistExtra;
    DistancesAgree(d);
    var s := DistSym(d);
    Remainder(d, Pow2(DIST_EXTRA[s]));
    if s < i {
      BaseGrows(s, i);
    } else if i < s {
      BaseGrows(i, s);
    }
  }

  lemma Remainder(d: nat, p: nat)
    requires p >= 1
    ensures d % p < p
  {
  }

  lemma {:induction false} BaseGrows(i: nat, j: nat)
    requires i < j < 30
    ensures DIST_BASE[i] + Pow2(DIST_EXTRA[i]) <= DIST_BASE[j]
    decreases j - i
  {
    hide Pow2;
    DistanceTable(i);
    if i + 1 < j {
      BaseGrows(i + 1, j);
    }
  }

  // ---- codes ----

  /** After the three symbols that repeat, and 0, the code length symbols alternate above and below 8 (section 3.2.7 of RFC 1951). */
  lemma ZigzagOrder(i: nat)
    requires i < 19
    ensures ZIGZAG[i] == if i < 3 then 16 + i else if i == 3 then 0 else if i % 2 == 0 then 8 + (i - 4) / 2 else 8 - (i - 3) / 2
  {
  }

  /** The codes of section 3.2.6 of RFC 1951, range by range. */
  lemma FixedLitCode(s: nat)
    requires s < 288
    ensures FixedCodes().lit[s] ==
      if s < 144 then MsbBits(48 + s, 8)
      else if s < 256 then MsbBits(400 + (s - 144), 9)
      else if s < 280 then MsbBits(s - 256, 7)
      else MsbBits(192 + (s - 280), 8)
  {
    hide Count, NextCode, MsbBits;
    var lens := FixedLitLens();
    FixedLitCounts(288);
    assert lens[..288] == lens;
    FixedLitCounts(s);
    FixedNext(lens);
    assert FixedCodes().lit[s] == CodeBits(lens, s);
  }

  lemma {:induction false} FixedLitCounts(s: nat)
    requires s <= 288
    ensures var lens := FixedLitLens()[..s];
      && Count(lens, 8) == (if s <= 144 then s else if s <= 280 then 144 else s - 136)
      && Count(lens, 9) == (if s <= 144 then 0 else if s <= 256 then s - 144 else 112)
      && Count(lens, 7) == (if s <= 256 then 0 else if s <= 280 then s - 256 else 24)
      && forall l: nat :: l < 7 ==> Count(lens, l) == 0
  {
    if s > 0 {
      FixedLitCounts(s - 1);
      assert FixedLitLens()[..s][..s - 1] == FixedLitLens()[..s - 1];
    }
  }

  lemma FixedNext(lens: seq<nat>)
    requires Count(lens, 7) == 24 && Count(lens, 8) == 152 && forall l: nat :: l < 7 ==> Count(lens, l) == 0
    ensures NextCode(lens, 7) == 0 && NextCode(lens, 8) == 48 && NextCode(lens, 9) == 400
  {
    hide Count;
    NoShorter(lens, 7);
  }

  lemma {:induction false} NoShorter(lens: seq<nat>, l: nat)
    requires forall k: nat :: k < l ==> Count(lens, k) == 0
    ensures NextCode(lens, l) == 0
  {
    if l > 1 {
      NoShorter(lens, l - 1);
    }
  }

  lemma FixedDistCode(s: nat)
    requires s < 32
    ensures FixedCodes().dist[s] == MsbBits(s, 5)
  {
    hide Count, NextCode, MsbBits;
    var lens := FixedDistLens();
    FixedDistCounts(32);
    assert lens[..32] == lens;
    FixedDistCounts(s);
    NoShorter(lens, 5);
    assert FixedCodes().dist[s] == CodeBits(lens, s);
  }

  lemma {:induction false} FixedDistCounts(s: nat)
    requires s <= 32
    ensures Count(FixedDistLens()[..s], 5) == s && forall l: nat :: l < 5 ==> Count(FixedDistLens()[..s], l) == 0
  {
    if s > 0 {
      FixedDistCounts(s - 1);
      assert FixedDistLens()[..s][..s - 1] == FixedDistLens()[..s - 1];
    }
  }

  /** The three symbols that repeat stand for 3 to 6 times the last length, and for 3 to 10 and 11 to 138 zeros. */
  lemma RunLengths(lens: seq<nat>, sym: nat, extra: nat)
    requires 16 <= sym <= 18
    ensures var run := Rle.Run(lens, Rle.RleItem(sym, extra));
      && |run| == extra + (if sym == 18 then 11 else 3)
      && (Rle.ItemOk(Rle.RleItem(sym, extra)) <==> |run| <= if sym == 16 then 6 else if sym == 17 then 10 else 138)
      && forall i :: 0 <= i < |run| ==> run[i] == if sym == 16 && lens != [] then lens[|lens| - 1] else 0
  {
    Powers();
  }

  // ---- whole blocks ----

  /** Ten times the letter a with the fixed codes: twice that letter, and a match of eight. */
  function TenLetters(): Block {
    Fixed([Literal(97), Literal(97), Copy(262, 0, 0, 0)])
  }

  lemma TenLettersBits()
    ensures BlockBits(TenLetters(), true) + [false, false] == Bytes([75, 76, 132, 1, 0])
  {
    hide FixedCodes, MsbBits, ToBits, ItemBits, ItemsBits;
    var c := FixedCodes();
    KnownCodes();
    ItemsOfThree(c);
    FiveBytes();
  }

  lemma FixedSizes()
    ensures |FixedCodes().lit| == 288 && |FixedCodes().dist| == 32
  {
  }

  lemma ItemsOfThree(c: Codes)
    requires c == FixedCodes()
    ensures ItemsBits(c, TenLetters().items) == MsbBits(145, 8) + (MsbBits(145, 8) + ((MsbBits(6, 7) + MsbBits(0, 5)) + MsbBits(0, 7)))
  {
    hide FixedCodes, MsbBits, ToBits;
    FixedLitCode(97);
    FixedLitCode(262);
    FixedLitCode(256);
    FixedDistCode(0);
    NextBit(0, 0, false);
    FixedSizes();
    ThreeItems(c, Literal(97), Literal(97), Copy(262, 0, 0, 0));
  }

  lemma KnownCodes()
    ensures MsbBits(145, 8) == [true, false, false, true, false, false, false, true]
    ensures MsbBits(6, 7) == [false, false, false, false, true, true, false] && MsbBits(0, 7) == MsbBits(0, 5) + [false, false]
    ensures MsbBits(0, 5) == [false, false, false, false, false] && ToBits(1, 2) == [true, false] && ToBits(0, 0) == []
  {
    hide MsbBits, ToBits;
    NextBit(0, 0, false);
    NextBit(0, 1, true);
    MsbZeros();
    MsbNext(0, 4, true);
    MsbNext(1, 5, true);
    MsbNext(3, 6, false);
    MsbNext(0, 0, true);
    MsbNext(1, 1, false);
    MsbNext(2, 2, false);
    MsbNext(4, 3, true);
    MsbNext(9, 4, false);
    MsbNext(18, 5, false);
    MsbNext(36, 6, false);
    MsbNext(72, 7, true);
  }

  lemma MsbZeros()
    ensures MsbBits(0, 0) == [] && MsbBits(0, 4) == [false, false, false, false]
    ensures MsbBits(0, 5) == MsbBits(0, 4) + [false] && MsbBits(0, 7) == MsbBits(0, 5) + [false, false]
  {
    hide MsbBits;
    MsbNext(0, 0, false);
    MsbNext(0, 1, false);
    MsbNext(0, 2, false);
    MsbNext(0, 3, false);
    MsbNext(0, 4, false);
    MsbNext(0, 5, false);
    MsbNext(0, 6, false);
  }

  lemma MsbNext(v: nat, n: nat, bit: bool)
    ensures MsbBits(Weight(bit) + 2 * v, n + 1) == MsbBits(v, n) + [bit] && MsbBits(v, 0) == []
  {
  }

  lemma ThreeItems(c: Codes, a: Item, b: Item, d: Item)
    ensures ItemsBits(c, [a, b, d]) == ItemBits(c, a) + (ItemBits(c, b) + (ItemBits(c, d) + CodeOf(c.lit, 256)))
  {
    hide ItemBits, CodeOf;
    assert [a, b, d][1..] == [b, d] && [b, d][1..] == [d] && [d][1..] == [];
    assert ItemsBits(c, [d]) == ItemBits(c, d) + ItemsBits(c, []);
  }

  lemma FiveBytes()
    ensures Bytes([75, 76, 132, 1, 0]) ==
      [true, true, false, true, false, false, true, false] + ([false, false, true, true, false, false, true, false]
      + ([false, false, true, false, false, false, false, true] + ([true, false, false, false, false, false, false, false]
      + [false, false, false, false, false, false, false, false])))
  {
    hide ToBits, Bytes;
    ByteBits(11, 4, true, true, false, true, false, false, true, false);
    ByteBits(12, 4, false, false, true, true, false, false, true, false);
    ByteBits(4, 8, false, false, true, false, false, false, false, true);
    ByteBits(1, 0, true, false, false, false, false, false, false, false);
    ByteBits(0, 0, false, false, false, false, false, false, false, false);
    var tail: seq<Byte> := [0];
    ByteThenBytes(75, [76, 132, 1, 0]);
    ByteThenBytes(76, [132, 1, 0]);
    ByteThenBytes(132, [1, 0]);
    ByteThenBytes(1, tail);
    ByteThenBytes(0, []);
    assert tail + [] == tail && [1] + tail == [1, 0] && [132] + [1, 0] == [132, 1, 0] && [76] + [132, 1, 0] == [76, 132, 1, 0];
    assert [75] + [76, 132, 1, 0] == [75, 76, 132, 1, 0];
  }

  lemma ByteThenBytes(b: Byte, s: seq<Byte>)
    ensures Bytes([b] + s) == ToBits(b, 8) + Bytes(s) && Bytes([]) == []
  {
    hide ToBits;
    assert ([b] + s)[1..] == s;
  }

  function Weight(bit: bool): nat { if bit then 1 else 0 }

  lemma FourBits(v: nat, n: nat, a: bool, b: bool, c: bool, d: bool)
    ensures ToBits(Weight(a) + 2 * (Weight(b) + 2 * (Weight(c) + 2 * (Weight(d) + 2 * v))), n + 4) == [a, b, c, d] + ToBits(v, n)
  {
    hide ToBits, Weight;
    NextBit(v, n, d);
    NextBit(Weight(d) + 2 * v, n + 1, c);
    NextBit(Weight(c) + 2 * (Weight(d) + 2 * v), n + 2, b);
    NextBit(Weight(b) + 2 * (Weight(c) + 2 * (Weight(d) + 2 * v)), n + 3, a);
  }

  lemma ByteBits(low: nat, high: nat, a: bool, b: bool, c: bool, d: bool, e: bool, f: bool, g: bool, h: bool)
    requires low == Weight(a) + 2 * (Weight(b) + 2 * (Weight(c) + 2 * Weight(d)))
    requires high == Weight(e) + 2 * (Weight(f) + 2 * (Weight(g) + 2 * Weight(h)))
    ensures ToBits(low + 16 * high, 8) == [a, b, c, d, e, f, g, h]
  {
    hide ToBits, Weight;
    NextBit(0, 0, false);
    FourBits(0, 0, e, f, g, h);
    FourBits(high, 4, a, b, c, d);
  }

  lemma NextBit(v: nat, n: nat, bit: bool)
    ensures ToBits(Weight(bit) + 2 * v, n + 1) == [bit] + ToBits(v, n) && ToBits(v, 0) == []
  {
  }

  // ---- the checksum ----

  function Sum(data: seq<Byte>): nat {
    if data == [] then 0 else Sum(data[..|data| - 1]) + data[|data| - 1]
  }

  /** Each byte as often as there are bytes from it to the end. */
  function WeightedSum(data: seq<Byte>): nat {
    if data == [] then 0 else WeightedSum(data[..|data| - 1]) + Sum(data)
  }

  lemma AddIs(a: nat, w: nat, b: Byte)
    ensures Add(Sums(a % 65521, w % 65521), b) == Sums((a + b) % 65521, (w + (a + b)) % 65521)
  {
    ModAdd(a % 65521, a, b);
    ModAdd(w % 65521, w, (a + b) % 65521);
    ModAdd((a + b) % 65521, a + b, w);
  }

  /** The two halves of the checksum are sums modulo the largest prime below 2^16. */
  lemma {:induction false} ChecksumIs(data: seq<Byte>)
    ensures Checksum(INIT, data) == Sums((1 + Sum(data)) % 65521, (|data| + WeightedSum(data)) % 65521)
  {
    hide Add;
    if data != [] {
      var before := data[..|data| - 1];
      ChecksumIs(before);
      AddIs(1 + Sum(before), |before| + WeightedSum(before), data[|data| - 1]);
    }
  }
}
