/** Powers of two, and bit strings in the order DEFLATE packs them: the least significant bit first. */
module Bits {

  type Byte = b: nat | b < 256

  function Pow2(n: nat): (p: nat)
    ensures p >= 1
  {
    if n == 0 then 1 else 2 * Pow2(n - 1)
  }

  lemma {:induction false} Pow2Add(a: nat, b: nat)
    ensures Pow2(a + b) == Pow2(a) * Pow2(b)
  {
    if a != 0 {
      Pow2Add(a - 1, b);
    }
  }

  lemma {:induction false} Pow2Monotone(a: nat, b: nat)
    requires a <= b
    ensures Pow2(a) <= Pow2(b)
  {
    if a < b {
      Pow2Monotone(a, b - 1);
    }
  }

  lemma Pow2Values()
    ensures Pow2(1) == 2 && Pow2(2) == 4 && Pow2(3) == 8 && Pow2(4) == 16 && Pow2(5) == 32
    ensures Pow2(7) == 128 && Pow2(8) == 256 && Pow2(9) == 512 && Pow2(10) == 1024
    ensures Pow2(13) == 8192 && Pow2(15) == 32768 && Pow2(16) == 65536
  {
    assert Pow2(3) == 8;
    assert Pow2(6) == 64;
    assert Pow2(9) == 512;
    assert Pow2(12) == 4096;
    assert Pow2(15) == 32768;
  }

  /** The low n bits of v, least significant first. */
  function ToBits(v: nat, n: nat): (bs: seq<bool>)
    ensures |bs| == n
  {
    if n == 0 then [] else [v % 2 == 1] + ToBits(v / 2, n - 1)
  }

  function FromBits(bs: seq<bool>): nat {
    if bs == [] then 0 else (if bs[0] then 1 else 0) + 2 * FromBits(bs[1..])
  }

  /** The low n bits of v, most significant first: the order in which a Huffman code is sent. */
  function MsbBits(v: nat, n: nat): (bs: seq<bool>)
    ensures |bs| == n
  {
    if n == 0 then [] else MsbBits(v / 2, n - 1) + [v % 2 == 1]
  }

  function Bytes(bytes: seq<Byte>): (bs: seq<bool>)
    ensures |bs| == 8 * |bytes|
  {
    if bytes == [] then [] else ToBits(bytes[0], 8) + Bytes(bytes[1..])
  }

  lemma {:induction false} FromToBits(v: nat, n: nat)
    ensures FromBits(ToBits(v, n)) == v % Pow2(n)
  {
    if n != 0 {
      FromToBits(v / 2, n - 1);
      ModHalf(v, Pow2(n - 1));
    }
  }

  lemma ModHalf(v: nat, p: nat)
    requires p >= 1
    ensures v % (2 * p) == v % 2 + 2 * ((v / 2) % p)
  {
    var h := v / 2;
    var q, r := h / p, h % p;
    assert v == v % 2 + 2 * (q * p + r);
    assert v == q * (2 * p) + (v % 2 + 2 * r) by {
      assert 2 * (q * p + r) == q * (2 * p) + 2 * r;
    }
    DivModUnique(v, 2 * p, q, v % 2 + 2 * r);
  }

  lemma MulAtLeast(k: int, d: nat)
    requires k >= 1
    ensures k * d >= d
  {
  }

  lemma DivModUnique(v: int, d: nat, q: int, r: nat)
    requires r < d && v == q * d + r
    ensures v / d == q && v % d == r
  {
    var q', r' := v / d, v % d;
    assert v == q' * d + r';
    var k := q - q';
    assert k * d == r' - r;
    if k >= 1 {
      MulAtLeast(k, d);
    } else if k <= -1 {
      MulAtLeast(-k, d);
    }
  }

  lemma {:induction false} FromBitsBound(bs: seq<bool>)
    ensures FromBits(bs) < Pow2(|bs|)
  {
    if bs != [] {
      FromBitsBound(bs[1..]);
    }
  }

  lemma {:induction false} ToFromBits(bs: seq<bool>)
    ensures ToBits(FromBits(bs), |bs|) == bs
  {
    if bs != [] {
      ToFromBits(bs[1..]);
      var v := FromBits(bs);
      assert v / 2 == FromBits(bs[1..]);
    }
  }

  lemma MulDouble(p: nat, v: nat)
    ensures (2 * p) * v == 2 * (p * v)
  {
  }

  lemma {:induction false} FromBitsConcat(a: seq<bool>, b: seq<bool>)
    ensures FromBits(a + b) == FromBits(a) + Pow2(|a|) * FromBits(b)
  {
    if a == [] {
      assert a + b == b;
    } else {
      assert (a + b)[1..] == a[1..] + b;
      FromBitsConcat(a[1..], b);
      MulDouble(Pow2(|a| - 1), FromBits(b));
    }
  }

  /** v >> k */
  function Shr(v: nat, k: nat): nat {
    if k == 0 then v else Shr(v / 2, k - 1)
  }

  lemma {:induction false} ShrDiv(v: nat, k: nat)
    ensures Shr(v, k) == v / Pow2(k)
  {
    if k != 0 {
      ShrDiv(v / 2, k - 1);
      DivDiv(v, Pow2(k - 1));
    }
  }

  /** Splitting a bit field: the first k bits are the low bits of v, the rest is v >> k. */
  lemma {:induction false} ToBitsSplit(v: nat, k: nat, n: nat)
    requires k <= n
    ensures ToBits(v, n) == ToBits(v, k) + ToBits(Shr(v, k), n - k)
  {
    if k != 0 {
      ToBitsSplit(v / 2, k - 1, n - 1);
    }
  }

  lemma DivDiv(v: nat, p: nat)
    requires p >= 1
    ensures (v / 2) / p == v / (2 * p)
  {
    ModHalf(v, p);
    var h := v / 2;
    assert v == (h / p) * (2 * p) + (v % 2 + 2 * (h % p)) by {
      assert h == (h / p) * p + h % p;
      assert 2 * ((h / p) * p + h % p) == (h / p) * (2 * p) + 2 * (h % p);
    }
    DivModUnique(v, 2 * p, h / p, v % 2 + 2 * (h % p));
  }

  /** The low bits of v do not depend on a multiple of 2^n added to it. */
  lemma {:induction false} ToBitsMod(v: nat, n: nat)
    ensures ToBits(v % Pow2(n), n) == ToBits(v, n)
  {
    FromToBits(v, n);
    ToFromBits(ToBits(v, n));
  }

  /** Appending a field above n bits: what "buffer |= value << bits" does when the buffer has only n bits. */
  lemma {:induction false} ToBitsAppend(v: nat, n: nat, w: nat, m: nat)
    requires v < Pow2(n)
    ensures ToBits(v + w * Pow2(n), n + m) == ToBits(v, n) + ToBits(w, m)
  {
    var u := v + w * Pow2(n);
    DivModUnique(u, Pow2(n), w, v);
    ShrDiv(u, n);
    ToBitsSplit(u, n, n + m);
    ToBitsMod(u, n);
  }

  /** Bit k of a field is (v >> k) & 1. */
  lemma {:induction false} ToBitsAt(v: nat, n: nat, k: nat)
    requires k < n
    ensures ToBits(v, n)[k] == (Shr(v, k) % 2 == 1)
  {
    ToBitsSplit(v, k, n);
  }

  lemma {:induction false} BytesConcat(a: seq<Byte>, b: seq<Byte>)
    ensures Bytes(a + b) == Bytes(a) + Bytes(b)
  {
    if a == [] {
      assert a + b == b;
    } else {
      assert (a + b)[1..] == a[1..] + b;
      BytesConcat(a[1..], b);
    }
  }

  lemma {:induction false} BytesLen(s: seq<Byte>)
    ensures |Bytes(s)| == 8 * |s|
  {
    if s != [] {
      BytesLen(s[1..]);
    }
  }

  /** The first k of n most-significant-first bits are those of v shifted right. */
  lemma {:induction false} MsbPrefix(v: nat, n: nat, k: nat)
    requires k <= n
    ensures MsbBits(v, n)[..k] == MsbBits(Shr(v, n - k), k)
  {
    if k < n {
      MsbPrefix(v / 2, n - 1, k);
      assert MsbBits(v, n)[..k] == MsbBits(v / 2, n - 1)[..k];
    }
  }

  lemma {:induction false} MsbInjective(v: nat, w: nat, n: nat)
    requires v < Pow2(n) && w < Pow2(n)
    requires MsbBits(v, n) == MsbBits(w, n)
    ensures v == w
  {
    if n != 0 {
      assert MsbBits(v, n)[n - 1] == (v % 2 == 1) && MsbBits(w, n)[n - 1] == (w % 2 == 1);
      assert MsbBits(v, n)[..n - 1] == MsbBits(v / 2, n - 1) && MsbBits(w, n)[..n - 1] == MsbBits(w / 2, n - 1);
      MsbInjective(v / 2, w / 2, n - 1);
    }
  }

  lemma Associate(a: seq<bool>, b: seq<bool>, c: seq<bool>)
    ensures (a + b) + c == a + (b + c)
  {
  }

  lemma OneUnit()
    ensures Pow2(0) == 1
  {
  }

  lemma MulMonotone(c: nat, x: nat, y: nat)
    requires x <= y
    ensures c * x <= c * y
  {
  }

  lemma MulDist(a: nat, p: nat)
    ensures (a + 1) * p == a * p + p && p * (a + 1) == (a + 1) * p
  {
  }

  lemma MulSub(a: int, b: int, c: int)
    ensures (a - b) * c == a * c - b * c
  {
  }
}
