/** How match lengths and distances are split into a symbol and extra bits, by the encoder's tables and by the decoder's. */
module LenDist {
  import opened Bits

  // ---- the decoder's tables: s_length_base, s_length_extra, s_dist_base, s_dist_extra ----

  const LENGTH_BASE: seq<nat> := [3, 4, 5, 6, 7, 8, 9, 10, 11, 13, 15, 17, 19, 23, 27, 31, 35, 43, 51, 59, 67, 83, 99, 115,
                                  131, 163, 195, 227, 258, 0, 0]
  const LENGTH_EXTRA: seq<nat> := [0, 0, 0, 0, 0, 0, 0, 0, 1, 1, 1, 1, 2, 2, 2, 2, 3, 3, 3, 3, 4, 4, 4, 4, 5, 5, 5, 5, 0, 0, 0]
  const DIST_BASE: seq<nat> := [1, 2, 3, 4, 5, 7, 9, 13, 17, 25, 33, 49, 65, 97, 129, 193, 257, 385, 513, 769, 1025, 1537,
                                2049, 3073, 4097, 6145, 8193, 12289, 16385, 24577, 0, 0]
  const DIST_EXTRA: seq<nat> := [0, 0, 0, 0, 1, 1, 2, 2, 3, 3, 4, 4, 5, 5, 6, 6, 7, 7, 8, 8, 9, 9, 10, 10, 11, 11, 12, 12, 13,
                                 13, 0, 0]

  /** s_tdefl_len_sym: the symbol of a match of l + 3 bytes. */
  function LenSym(l: nat): nat {
    if l < 8 then 257 + l
    else if l < 16 then 265 + (l - 8) / 2
    else if l < 32 then 269 + (l - 16) / 4
    else if l < 64 then 273 + (l - 32) / 8
    else if l < 128 then 277 + (l - 64) / 16
    else if l < 255 then 281 + (l - 128) / 32
    else 285
  }

  /** s_tdefl_len_extra */
  function LenExtra(l: nat): nat {
    if l < 8 then 0 else if l < 16 then 1 else if l < 32 then 2 else if l < 64 then 3 else if l < 128 then 4
    else if l < 255 then 5 else 0
  }

  /** s_tdefl_small_dist_sym: the symbol of distance d + 1, for d below 512. */
  function SmallDistSym(d: nat): nat {
    if d < 4 then d
    else if d < 8 then 4 + (d - 4) / 2
    else if d < 16 then 6 + (d - 8) / 4
    else if d < 32 then 8 + (d - 16) / 8
    else if d < 64 then 10 + (d - 32) / 16
    else if d < 128 then 12 + (d - 64) / 32
    else if d < 256 then 14 + (d - 128) / 64
    else 16 + (d - 256) / 128
  }

  /** s_tdefl_small_dist_extra */
  function SmallDistExtra(d: nat): nat {
    if d < 4 then 0 else if d < 8 then 1 else if d < 16 then 2 else if d < 32 then 3 else if d < 64 then 4
    else if d < 128 then 5 else if d < 256 then 6 else 7
  }

  /** s_tdefl_large_dist_sym, indexed by the high byte of the distance less one. */
  function LargeDistSym(h: nat): nat {
    if h < 2 then 0
    else if h < 4 then 18 + (h - 2)
    else if h < 8 then 20 + (h - 4) / 2
    else if h < 16 then 22 + (h - 8) / 4
    else if h < 32 then 24 + (h - 16) / 8
    else if h < 64 then 26 + (h - 32) / 16
    else 28 + (h - 64) / 32
  }

  /** s_tdefl_large_dist_extra */
  function LargeDistExtra(h: nat): nat {
    if h < 2 then 0 else if h < 4 then 8 else if h < 8 then 9 else if h < 16 then 10 else if h < 32 then 11
    else if h < 64 then 12 else 13
  }

  function DistSym(d: nat): nat {
    if d < 512 then SmallDistSym(d) else LargeDistSym(d / 256)
  }

  function DistExtra(d: nat): nat {
    if d < 512 then SmallDistExtra(d) else LargeDistExtra(d / 256)
  }

  // ---- both sides agree ----

  /** The decoder's base plus the extra bits sent, the low bits of the length less three, is the length. */
  lemma LengthsAgree(l: nat)
    requires l < 256
    ensures 257 <= LenSym(l) <= 285 && LENGTH_EXTRA[LenSym(l) - 257] == LenExtra(l) <= 5
    ensures LENGTH_BASE[LenSym(l) - 257] + l % Pow2(LenExtra(l)) == l + 3
  {
    Pow2Values();
    if l < 32 {
      ShortLength(l);
    } else if l < 64 {
      var k := (l - 32) / 8;
      assert k == 0 || k == 1 || k == 2 || k == 3;
      DivModUnique(l, 8, 4 + k, (l - 32) % 8);
    } else if l < 128 {
      var k := (l - 64) / 16;
      assert k == 0 || k == 1 || k == 2 || k == 3;
      DivModUnique(l, 16, 4 + k, (l - 64) % 16);
    } else if l < 255 {
      var k := (l - 128) / 32;
      assert k == 0 || k == 1 || k == 2 || k == 3;
      DivModUnique(l, 32, 4 + k, (l - 128) % 32);
    }
  }

  lemma ShortLength(l: nat)
    requires l < 32
    ensures 257 <= LenSym(l) <= 285 && LENGTH_EXTRA[LenSym(l) - 257] == LenExtra(l) <= 5
    ensures LENGTH_BASE[LenSym(l) - 257] + l % Pow2(LenExtra(l)) == l + 3
  {
    Pow2Values();
    if l < 8 {
      assert Pow2(0) == 1;
    } else if l < 16 {
      var k := (l - 8) / 2;
      assert k == 0 || k == 1 || k == 2 || k == 3;
    } else {
      var k := (l - 16) / 4;
      assert k == 0 || k == 1 || k == 2 || k == 3;
    }
  }

  /** A distance d with 2k or 2k + 1 high parts of 2^n. */
  predicate DistAgrees(d: nat, sym: nat, n: nat) {
    && sym < 30 && DIST_EXTRA[sym] == n <= 13
    && DIST_BASE[sym] + d % Pow2(n) == d + 1
  }

  /** The distances less one from 2^(n + 1) to 2^(n + 2) - 1 fall into two halves of 2^n, each with its symbol. */
  lemma Segment(d: nat, p: nat, q: nat)
    requires p >= 1 && 2 * p <= d < 4 * p && q == (if d < 3 * p then 0 else 1)
    ensures (d - 2 * p) / p == q && (2 + q) * p + d % p == d
  {
    DivModUnique(d, p, 2 + q, d - 2 * p - q * p);
    DivModUnique(d - 2 * p, p, q, d - 2 * p - q * p);
  }

  /** The decoder's base plus the extra bits sent, the low bits of the distance less one, is the distance. */
  lemma DistancesAgree(d: nat)
    requires d < 32768
    ensures DistAgrees(d, DistSym(d), DistExtra(d))
  {
    Pow2Values();
    assert Pow2(0) == 1;
    if d < 4 {
    } else if d < 32 {
      DistancesTo32(d);
    } else if d < 512 {
      DistancesTo512(d);
    } else {
      assert 2 <= d / 256 < 128;
      if d < 4096 {
        DistancesTo4096(d);
      } else {
        LongDistances(d);
      }
    }
  }

  lemma DistancesTo32(d: nat)
    requires 4 <= d < 32
    ensures DistAgrees(d, DistSym(d), DistExtra(d))
  {
    Pow2Values();
    var p := if d < 8 then 2 else if d < 16 then 4 else 8;
    Segment(d, p, if d < 3 * p then 0 else 1);
  }

  lemma DistancesTo512(d: nat)
    requires 32 <= d < 512
    ensures DistAgrees(d, DistSym(d), DistExtra(d))
  {
    Pow2Values();
    assert Pow2(6) == 64;
    var p := if d < 64 then 16 else if d < 128 then 32 else if d < 256 then 64 else 128;
    Segment(d, p, if d < 3 * p then 0 else 1);
  }

  /** The high byte alone decides which half it is. */
  lemma HighByte(d: nat, m: nat, q: nat)
    requires m >= 1 && 2 * m <= d / 256 < 4 * m && q == (if d < 3 * (256 * m) then 0 else 1)
    ensures (d / 256 - 2 * m) / m == q && (2 + q) * (256 * m) + d % (256 * m) == d
  {
    Segment(d, 256 * m, q);
    DivModUnique(d / 256 - 2 * m, m, q, d / 256 - 2 * m - q * m);
  }

  lemma DistancesTo4096(d: nat)
    requires 512 <= d < 4096
    ensures DistAgrees(d, LargeDistSym(d / 256), LargeDistExtra(d / 256))
  {
    Pow2Values();
    var h := d / 256;
    var m := if h < 4 then 1 else if h < 8 then 2 else 4;
    HighByte(d, m, if d < 3 * (256 * m) then 0 else 1);
  }

  lemma LongDistances(d: nat)
    requires 4096 <= d < 32768
    ensures DistAgrees(d, LargeDistSym(d / 256), LargeDistExtra(d / 256))
  {
    Pow2Values();
    assert Pow2(11) == 2048 && Pow2(12) == 4096;
    var h := d / 256;
    var m := if h < 32 then 8 else if h < 64 then 16 else 32;
    HighByte(d, m, if d < 3 * (256 * m) then 0 else 1);
  }

  lemma SmallExtra(l: nat, d: nat)
    ensures LenExtra(l) <= 5 && DistExtra(d) <= 13
  {
  }
}
