/** m_hash and m_next: for each hash of three bytes, the chain of the positions that have it, from the last one back. */
module HashChains {
  import opened Bits
  import opened Lz

  const HASH_SIZE: nat := 32768

  function Xor(a: nat, b: nat): nat {
    if a == 0 && b == 0 then 0 else (a + b) % 2 + 2 * Xor(a / 2, b / 2)
  }

  // ---- the hash ----

  /** The hash of the three bytes at p. */
  function Hash3(s: seq<Byte>, p: nat): (h: nat)
    requires p + 2 < |s|
    ensures h < HASH_SIZE
  {
    Mix(s[p], s[p + 1], s[p + 2]) % HASH_SIZE
  }

  function Mix(a: nat, b: nat, c: nat): nat {
    Xor(Xor(a * 1024, b * 32), c)
  }

  lemma XorStep(a: nat, b: nat)
    ensures Xor(a, b) == (a + b) % 2 + 2 * Xor(a / 2, b / 2)
  {
  }

  lemma XorHalf(a: nat, b: nat)
    ensures Xor(a, b) / 2 == Xor(a / 2, b / 2) && Xor(a, b) % 2 == (a % 2 + b % 2) % 2
  {
    hide Xor;
    XorStep(a, b);
  }

  lemma XorDouble(a: nat, b: nat)
    ensures Xor(2 * a, 2 * b) == 2 * Xor(a, b)
  {
    hide Xor;
    XorStep(2 * a, 2 * b);
  }

  lemma XorShift(a: nat, b: nat)
    ensures Xor(a * 32, b * 32) == Xor(a, b) * 32
  {
    hide Xor;
    XorDouble(a, b);
    XorDouble(2 * a, 2 * b);
    XorDouble(4 * a, 4 * b);
    XorDouble(8 * a, 8 * b);
    XorDouble(16 * a, 16 * b);
  }

  /** The low bits of a result come from the low bits of the operands. */
  lemma {:induction false} XorLow(a: nat, b: nat, k: nat)
    ensures Xor(a, b) % Pow2(k) == Xor(a % Pow2(k), b % Pow2(k)) % Pow2(k)
  {
    hide Xor;
    if k > 0 {
      var p := Pow2(k - 1);
      XorLow(a / 2, b / 2, k - 1);
      LowHalf(a, p);
      LowHalf(b, p);
      XorHalf(a, b);
      XorHalf(a % (2 * p), b % (2 * p));
      ModHalf(Xor(a, b), p);
      ModHalf(Xor(a % (2 * p), b % (2 * p)), p);
    }
  }

  lemma LowHalf(a: nat, p: nat)
    requires p >= 1
    ensures a % (2 * p) / 2 == a / 2 % p && a % (2 * p) % 2 == a % 2
  {
    ModHalf(a, p);
  }

  /** What is above the low 15 bits of an operand makes no difference. */
  lemma XorSame(a: nat, a': nat, b: nat)
    requires a % HASH_SIZE == a' % HASH_SIZE
    ensures Xor(a, b) % HASH_SIZE == Xor(a', b) % HASH_SIZE
  {
    hide Xor, Pow2;
    Pow2Values();
    XorLow(a, b, 15);
    XorLow(a', b, 15);
  }

  lemma ShiftMod(v: nat)
    ensures v % HASH_SIZE * 32 % HASH_SIZE == v * 32 % HASH_SIZE
  {
    var q, r := v / HASH_SIZE, v % HASH_SIZE;
    var q', r' := r * 32 / HASH_SIZE, r * 32 % HASH_SIZE;
    DivModUnique(v * 32, HASH_SIZE, q * 32 + q', r');
  }

  /** The byte before the last two is shifted out of the hash. */
  lemma ShiftedOut(a: nat, b: nat, c: nat)
    ensures Mix(a, b, c) * 32 % HASH_SIZE == Xor(b * 1024, c * 32) % HASH_SIZE
  {
    hide Xor;
    XorShift(Xor(a * 1024, b * 32), c);
    XorShift(a * 1024, b * 32);
    XorSame(a * 32768, 0, b * 1024);
    ZeroMod(a);
    NoHigh(b * 1024);
    XorSame(Xor(a * 32768, b * 1024), b * 1024, c * 32);
  }

  lemma ZeroMod(a: nat)
    ensures a * 32768 % HASH_SIZE == 0 % HASH_SIZE
  {
    DivModUnique(a * 32768, HASH_SIZE, a, 0);
  }

  /** How a hash is updated with the next byte. */
  lemma NextHash(a: nat, b: nat, c: nat, d: nat, h: nat)
    requires h == Xor(b * 32, c) || h == Mix(a, b, c) % HASH_SIZE
    ensures Xor(h * 32, d) % HASH_SIZE == Mix(b, c, d) % HASH_SIZE
  {
    hide Xor;
    if h == Xor(b * 32, c) {
      XorShift(b * 32, c);
    } else {
      ShiftMod(Mix(a, b, c));
      ShiftedOut(a, b, c);
      XorSame(h * 32, Xor(b * 1024, c * 32), d);
    }
  }

  lemma {:induction false} NoHigh(b: nat)
    ensures Xor(0, b) == b
    decreases b
  {
    if b > 0 {
      NoHigh(b / 2);
    }
  }

  /** The hash of the fast parser. */
  function FastHash(s: seq<Byte>, p: nat): (h: nat)
    requires p + 2 < |s|
    ensures h < 4096
  {
    var trigram := s[p] as nat + 256 * s[p + 1] as nat + 65536 * s[p + 2] as nat;
    Xor(trigram, trigram / 131072) % 4096
  }

  // ---- the chains ----

  /** The last position before end, from reset on, that has this hash; -1 if there is none. */
  function Earlier(s: seq<Byte>, reset: nat, h: nat, end: nat): (p: int)
    requires end <= reset || end + 2 <= |s|
    ensures p == -1 || (reset <= p < end && Hash3(s, p) == h)
    ensures forall q: nat :: reset <= q < end && q > p && q + 2 < |s| ==> Hash3(s, q) != h
  {
    if end <= reset then -1 else if Hash3(s, end - 1) == h then end - 1 else Earlier(s, reset, h, end - 1)
  }

  lemma {:induction false} EarlierStays(s: seq<Byte>, c: Byte, reset: nat, h: nat, end: nat)
    requires end <= reset || end + 2 <= |s|
    ensures Earlier(s + [c], reset, h, end) == Earlier(s, reset, h, end)
  {
    hide Mix;
    if end > reset {
      EarlierStays(s, c, reset, h, end - 1);
    }
  }

  /** A position as it is stored: 16 bits of it, and 0 also if there is none. */
  function Entry(p: int): nat {
    if p < 0 then 0 else p % 65536
  }

  /** The positions from reset on that are followed by two more bytes are in the chains. */
  function HashedEnd(s: seq<Byte>, reset: nat): (end: nat)
    ensures end <= reset || end + 2 <= |s|
  {
    if |s| < reset + 2 then reset else |s| - 2
  }

  ghost predicate HashOk(s: seq<Byte>, reset: nat, hash: seq<nat>, h: nat)
    requires h < |hash|
  {
    hash[h] == Entry(Earlier(s, reset, h, HashedEnd(s, reset)))
  }

  ghost predicate NextOk(s: seq<Byte>, reset: nat, next: seq<nat>, p: nat)
    requires |next| == LZ_DICT_SIZE
  {
    p + 2 < |s| ==> next[p % LZ_DICT_SIZE] == Entry(Earlier(s, reset, Hash3(s, p), p))
  }

  /** m_hash has the last position of each hash, and m_next, for each position in the window, the one before of its hash. */
  ghost predicate ChainsOk(s: seq<Byte>, reset: nat, hash: seq<nat>, next: seq<nat>) {
    && |hash| == HASH_SIZE && |next| == LZ_DICT_SIZE && reset <= |s|
    && (forall h: nat :: h < HASH_SIZE ==> HashOk(s, reset, hash, h))
    && forall p: nat :: reset <= p && |s| - LZ_DICT_SIZE <= p < |s| ==> NextOk(s, reset, next, p)
  }

  lemma NoChains(s: seq<Byte>, hash: seq<nat>, next: seq<nat>)
    requires |hash| == HASH_SIZE && |next| == LZ_DICT_SIZE && forall h :: 0 <= h < |hash| ==> hash[h] == 0
    ensures ChainsOk(s, |s|, hash, next)
  {
  }

  /** A byte before which there are not two since the reset. */
  lemma NotHashed(s: seq<Byte>, c: Byte, reset: nat, hash: seq<nat>, next: seq<nat>)
    requires ChainsOk(s, reset, hash, next) && |s| + 1 < reset + 3
    ensures ChainsOk(s + [c], reset, hash, next)
  {
    forall h: nat | h < HASH_SIZE ensures HashOk(s + [c], reset, hash, h) {
      assert HashOk(s, reset, hash, h);
    }
  }

  /** The position two bytes back is put at the head of the chain of its hash. */
  lemma Hashed(s: seq<Byte>, c: Byte, reset: nat, hash: seq<nat>, next: seq<nat>, h: nat, p: nat)
    requires ChainsOk(s, reset, hash, next) && p == |s| - 2 >= reset && h == Hash3(s + [c], p)
    ensures ChainsOk(s + [c], reset, hash[h := p % 65536], next[p % LZ_DICT_SIZE := hash[h]])
  {
    hide Mix;
    var s', hash', next' := s + [c], hash[h := p % 65536], next[p % LZ_DICT_SIZE := hash[h]];
    forall g: nat | g < HASH_SIZE ensures HashOk(s', reset, hash', g) {
      assert HashOk(s, reset, hash, g);
      EarlierStays(s, c, reset, g, p);
    }
    forall q: nat | reset <= q && |s'| - LZ_DICT_SIZE <= q < |s'| ensures NextOk(s', reset, next', q) {
      if q < p {
        assert NextOk(s, reset, next, q);
        EarlierStays(s, c, reset, Hash3(s, q), q);
        OtherSlotOf(q, p);
      } else if q == p {
        assert HashOk(s, reset, hash, h);
        EarlierStays(s, c, reset, h, p);
      }
    }
  }

  lemma OtherSlotOf(q: nat, p: nat)
    requires p + 3 - LZ_DICT_SIZE <= q < p
    ensures q % LZ_DICT_SIZE != p % LZ_DICT_SIZE
  {
  }

  // ---- following a chain ----

  /** The distance of a probed position, as a 16-bit number. */
  function Dist16(pos: nat, probe: nat): nat {
    (pos - probe) % 65536
  }

  /** What a search sees: the stream up to the end of the lookahead, and how far back from pos the dictionary reaches. */
  datatype View = View(stream: seq<Byte>, reset: nat, pos: nat, window: nat) {
    predicate Ok() { reset + window <= pos <= |stream| }
  }

  /** A match that a search may report: the bytes at pos are those dist bytes before, within the window. */
  ghost predicate IsMatch(stream: seq<Byte>, pos: nat, dist: nat, len: nat) {
    1 <= dist <= pos && pos + len <= |stream| && forall i :: pos <= i < pos + len ==> Repeats(stream, i, dist)
  }

  /** The k-th position before pos on the chain of its hash, as long as the chain does not end or leave the dictionary. */
  ghost function Reach(v: View, k: nat): (p: int)
    requires v.Ok() && v.pos + 2 < |v.stream|
    ensures p == -1 || v.pos - v.window <= p <= v.pos
    ensures k > 0 ==> p < v.pos
  {
    if k == 0 then v.pos
    else
      var q := Reach(v, k - 1);
      if q < 0 then -1
      else
        var e := Entry(Earlier(v.stream, v.reset, Hash3(v.stream, q), q));
        if e == 0 || Dist16(v.pos, e) == 0 || Dist16(v.pos, e) > v.window then -1 else v.pos - Dist16(v.pos, e)
  }

  /** None of the first n positions on the chain has a match longer than len. */
  ghost predicate NoneBetter(v: View, n: nat, len: nat)
    requires v.Ok() && v.pos + 2 < |v.stream|
  {
    forall k: nat :: 1 <= k <= n ==> !LongerAt(v, k, len)
  }

  ghost predicate LongerAt(v: View, k: nat, len: nat)
    requires v.Ok() && v.pos + 2 < |v.stream|
  {
    Reach(v, k) >= 0 && IsMatch(v.stream, v.pos, v.pos - Reach(v, k), len + 1)
  }

  /** Once a chain has ended, nothing more is on it. */
  lemma {:induction false} Ended(v: View, k: nat, n: nat)
    requires v.Ok() && v.pos + 2 < |v.stream| && k <= n && Reach(v, k) < 0
    ensures Reach(v, n) < 0
  {
    hide Earlier, Mix;
    if k < n {
      Ended(v, k, n - 1);
    }
  }

  lemma ShorterMatch(s: seq<Byte>, pos: nat, dist: nat, n: nat, m: nat)
    requires IsMatch(s, pos, dist, n) && m <= n
    ensures IsMatch(s, pos, dist, m)
  {
  }

  lemma NoneLonger(v: View, n: nat, len: nat, len': nat)
    requires v.Ok() && v.pos + 2 < |v.stream| && NoneBetter(v, n, len) && len <= len'
    ensures NoneBetter(v, n, len')
  {
    hide IsMatch, Reach;
    forall k: nat | 1 <= k <= n ensures !LongerAt(v, k, len') {
      assert !LongerAt(v, k, len);
      if LongerAt(v, k, len') {
        ShorterMatch(v.stream, v.pos, v.pos - Reach(v, k), len' + 1, len + 1);
      }
    }
  }

  lemma NoneAfter(v: View, k: nat, n: nat, len: nat)
    requires v.Ok() && v.pos + 2 < |v.stream| && NoneBetter(v, k, len) && Reach(v, k + 1) < 0
    ensures NoneBetter(v, n, len)
  {
    hide IsMatch, Reach;
    forall j: nat | 1 <= j <= n ensures !LongerAt(v, j, len) {
      if j <= k {
        assert !LongerAt(v, j, len);
      } else {
        Ended(v, k + 1, j);
      }
    }
  }

  lemma NoneMore(v: View, k: nat, len: nat)
    requires v.Ok() && v.pos + 2 < |v.stream| && NoneBetter(v, k, len) && !LongerAt(v, k + 1, len)
    ensures NoneBetter(v, k + 1, len)
  {
    hide LongerAt;
  }

  /** A match up to the end of the lookahead. */
  lemma FullLength(v: View, n: nat, len: nat)
    requires v.Ok() && v.pos + 2 < |v.stream| && v.pos + len >= |v.stream|
    ensures NoneBetter(v, n, len)
  {
  }

  /**
    If the last position with the hash of the current one is in the dictionary, it is the first on the chain. Only the
    positions that are multiples of 65536 are never found.
   */
  lemma FirstOnChain(v: View, q: nat)
    requires v.Ok() && v.pos + 2 < |v.stream| && q == Earlier(v.stream, v.reset, Hash3(v.stream, v.pos), v.pos)
    requires q % 65536 != 0 && v.pos - q <= v.window <= LZ_DICT_SIZE
    ensures Reach(v, 1) == q
  {
    hide Earlier, Mix;
    assert Reach(v, 0) == v.pos;
    Distance(v.pos, q);
  }

  lemma Distance(pos: nat, q: nat)
    requires q < pos && pos - q <= LZ_DICT_SIZE
    ensures Dist16(pos, q % 65536) == pos - q
  {
    var d := pos - q;
    assert pos - q % 65536 == (q / 65536) * 65536 + d;
    DivModUnique(pos - q % 65536, 65536, q / 65536, d);
  }

  /** So a search that looks at the first position on the chain finds a match at least as long as the one there. */
  lemma FoundAtFirst(v: View, n: nat, len: nat, q: nat, m: nat)
    requires v.Ok() && v.pos + 2 < |v.stream| && NoneBetter(v, n, len) && n >= 1
    requires q == Earlier(v.stream, v.reset, Hash3(v.stream, v.pos), v.pos) && q % 65536 != 0
    requires v.pos - q <= v.window <= LZ_DICT_SIZE && IsMatch(v.stream, v.pos, v.pos - q, m)
    ensures len >= m
  {
    hide Earlier, Mix, NoneBetter;
    FirstOnChain(v, q);
    if len < m {
      ShorterMatch(v.stream, v.pos, v.pos - q, m, len + 1);
      NotLonger(v, n, len, 1);
    }
  }

  lemma NotLonger(v: View, n: nat, len: nat, k: nat)
    requires v.Ok() && v.pos + 2 < |v.stream| && NoneBetter(v, n, len) && 1 <= k <= n
    ensures !LongerAt(v, k, len)
  {
  }
}
