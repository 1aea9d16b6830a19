/** The Adler-32 checksum (section 8.2 of RFC 1950). */
module Adler32 {
  import opened Bits

  const ADLER_BASE: nat := 65521
  const WORD: nat := 0x1_0000_0000

  /** The two sums, reduced after every byte. */
  datatype Sums = Sums(s1: nat, s2: nat)

  function Add(s: Sums, b: Byte): Sums {
    var s1 := (s.s1 + b) % ADLER_BASE;
    Sums(s1, (s.s2 + s1) % ADLER_BASE)
  }

  function Checksum(s: Sums, data: seq<Byte>): Sums {
    if data == [] then s else Add(Checksum(s, data[..|data| - 1]), data[|data| - 1])
  }

  const INIT: Sums := Sums(1, 0)

  function Value(s: Sums): nat { s.s2 * 65536 + s.s1 }

  predicate Reduced(s: Sums) { s.s1 < ADLER_BASE && s.s2 < ADLER_BASE }

  /** The checksum of a whole can be taken part by part. */
  lemma {:induction false} ChecksumConcat(s: Sums, a: seq<Byte>, b: seq<Byte>)
    ensures Checksum(s, a + b) == Checksum(Checksum(s, a), b)
  {
    if b == [] {
      assert a + b == a;
    } else {
      ChecksumConcat(s, a, b[..|b| - 1]);
      assert (a + b)[..|a + b| - 1] == a + b[..|b| - 1];
    }
  }

  lemma {:induction false} ChecksumReduced(s: Sums, data: seq<Byte>)
    requires Reduced(s)
    ensures Reduced(Checksum(s, data))
  {
    if data != [] {
      ChecksumReduced(s, data[..|data| - 1]);
    }
  }

  /** Sums that are equal modulo the base. */
  predicate Same(s: Sums, t: Sums) {
    s.s1 % ADLER_BASE == t.s1 % ADLER_BASE && s.s2 % ADLER_BASE == t.s2 % ADLER_BASE
  }

  /** How large the unreduced sums can be after n bytes. */
  predicate Bounded(s: Sums, n: nat) {
    s.s1 <= 65535 + 255 * n && 2 * s.s2 <= 2 * 65535 * (n + 1) + 255 * (n * (n + 1))
  }

  lemma NeverWraps(s: Sums, n: nat)
    requires Bounded(s, n) && n <= 5552
    ensures s.s1 < WORD && s.s2 < WORD
  {
    Product(n, 5552);
  }

  lemma Product(n: nat, m: nat)
    requires n <= m
    ensures n * (n + 1) <= m * (m + 1)
  {
    if n < m {
      Product(n, m - 1);
    }
  }

  lemma BoundedStep(s: Sums, n: nat, b: Byte)
    requires Bounded(s, n)
    ensures Bounded(Sums(s.s1 + b, s.s2 + s.s1 + b), n + 1)
  {
    assert (n + 1) * (n + 2) == n * (n + 1) + 2 * (n + 1);
  }

  lemma ModAdd(a: nat, b: nat, c: nat)
    requires a % ADLER_BASE == b % ADLER_BASE
    ensures (a + c) % ADLER_BASE == (b + c) % ADLER_BASE
  {
    var d := a / ADLER_BASE - b / ADLER_BASE;
    var q, r := (b + c) / ADLER_BASE, (b + c) % ADLER_BASE;
    assert a + c == (q + d) * ADLER_BASE + r;
    DivModUnique(a + c, ADLER_BASE, q + d, r);
  }

  lemma SameStep(s: Sums, t: Sums, b: Byte)
    requires Same(s, t)
    ensures Same(Sums(s.s1 + b, s.s2 + s.s1 + b), Add(t, b))
  {
    var t1 := (t.s1 + b) % ADLER_BASE;
    ModAdd(s.s1, t.s1, b);
    ModAdd(s.s1 + b, t1, s.s2);
    ModAdd(s.s2, t.s2, t1);
  }

  lemma SameReduced(s: Sums, t: Sums)
    requires Same(s, t) && Reduced(t)
    ensures Sums(s.s1 % ADLER_BASE, s.s2 % ADLER_BASE) == t
  {
  }

  lemma StartBounded(s: Sums)
    requires Reduced(s)
    ensures Bounded(s, 0)
  {
  }

  lemma WholeBlocks(left: nat, blockLen: nat)
    requires blockLen <= left && left % 5552 == blockLen % 5552
    ensures (left - blockLen) % 5552 == 0
  {
  }

  /** mz_adler32, also at the end of tinfl_decompress: sums in 32 bits, reduced every 5552 bytes. */
  method Update(adler: nat, data: seq<Byte>, ghost s: Sums) returns (adler': nat)
    requires adler == Value(s) && Reduced(s)
    ensures adler' == Value(Checksum(s, data)) && adler' < WORD
  {
    var s1: nat, s2: nat := adler % 65536, adler / 65536;
    DivModUnique(adler, 65536, s.s2, s.s1);
    var left: nat, blockLen: nat := |data|, |data| % 5552;
    var done: nat := 0;
    assert data[..0] == [];
    while left != 0
      invariant done + left == |data| && Sums(s1, s2) == Checksum(s, data[..done]) && Reduced(Sums(s1, s2))
      invariant left % 5552 == blockLen % 5552 && blockLen <= 5552 && (left > 0 ==> blockLen <= left)
      decreases left, if blockLen == 0 then 1 else 0
    {
      s1, s2 := SumBlock(s1, s2, data[done..done + blockLen]);
      ChecksumConcat(s, data[..done], data[done..done + blockLen]);
      assert data[..done] + data[done..done + blockLen] == data[..done + blockLen];
      s1, s2 := s1 % ADLER_BASE, s2 % ADLER_BASE;
      WholeBlocks(left, blockLen);
      left, done, blockLen := left - blockLen, done + blockLen, 5552;
    }
    ChecksumReduced(s, data);
    assert data[..|data|] == data;
    adler' := s2 * 65536 + s1;
  }

  /** One block: the additions of up to 5552 bytes stay below 2^32. */
  method SumBlock(s1: nat, s2: nat, block: seq<Byte>) returns (s1': nat, s2': nat)
    requires Reduced(Sums(s1, s2)) && |block| <= 5552
    ensures s1' < WORD && s2' < WORD && Sums(s1' % ADLER_BASE, s2' % ADLER_BASE) == Checksum(Sums(s1, s2), block)
  {
    s1', s2' := s1, s2;
    ghost var s := Sums(s1, s2);
    StartBounded(s);
    assert block[..0] == [];
    var i := 0;
    while i + 7 < |block|
      invariant i <= |block| && Same(Sums(s1', s2'), Checksum(s, block[..i])) && Bounded(Sums(s1', s2'), i)
      decreases |block| - i
    {
      s1', s2' := SumBytes(s1', s2', block, i, i + 8, s);
      i := i + 8;
    }
    s1', s2' := SumBytes(s1', s2', block, i, |block|, s);
    assert block[..|block|] == block;
    ChecksumReduced(s, block);
    SameReduced(Sums(s1', s2'), Checksum(s, block));
    NeverWraps(Sums(s1', s2'), |block|);
  }

  method SumBytes(s1: nat, s2: nat, block: seq<Byte>, start: nat, end: nat, ghost s: Sums) returns (s1': nat, s2': nat)
    requires start <= end <= |block| && Same(Sums(s1, s2), Checksum(s, block[..start])) && Bounded(Sums(s1, s2), start)
    ensures Same(Sums(s1', s2'), Checksum(s, block[..end])) && Bounded(Sums(s1', s2'), end)
  {
    s1', s2' := s1, s2;
    for i := start to end
      invariant Same(Sums(s1', s2'), Checksum(s, block[..i])) && Bounded(Sums(s1', s2'), i)
    {
      SameStep(Sums(s1', s2'), Checksum(s, block[..i]), block[i]);
      BoundedStep(Sums(s1', s2'), i, block[i]);
      assert block[..i + 1][..i] == block[..i];
      s1' := s1' + block[i];
      s2' := s2' + s1';
    }
  }
}
