/**
  The input side of tinfl_decompress: the bit buffer, the input of the current call, and the macros that take bits, bytes
  and Huffman codes from them, leaving off wherever the input ends.
 */
module BitReaders {
  import opened Bits
  import Canonical
  import opened TableBound
  import opened TableTrie
  import opened HuffTables

  lemma PrefixOfWhole(a: seq<bool>, b: seq<bool>, whole: seq<bool>)
    requires a <= whole && b <= whole
    ensures a <= b || b <= a
    ensures |a| <= |b| ==> a <= b
  {
  }

  lemma PushBound(bitBuf: nat, p: nat, c: Byte)
    requires bitBuf < p
    ensures bitBuf + c * p < 256 * p
  {
    MulMonotone(p, c + 1, 256);
    MulDist(c, p);
  }

  /** Appending a byte above the bits of the buffer. */
  lemma PushByte(bitBuf: nat, numBits: nat, c: Byte, rest: seq<Byte>)
    requires bitBuf < Pow2(numBits)
    ensures Push(bitBuf, numBits, c) < Pow2(numBits + 8)
    ensures ToBits(Push(bitBuf, numBits, c), numBits + 8) + Bytes(rest) == ToBits(bitBuf, numBits) + Bytes([c] + rest)
  {
    ToBitsAppend(bitBuf, numBits, c, 8);
    assert ([c] + rest)[1..] == rest;
    PushBound(bitBuf, Pow2(numBits), c);
    EightMore(numBits);
  }

  lemma EightMore(n: nat)
    ensures Pow2(n + 8) == 256 * Pow2(n)
  {
    Pow2Add(n, 8);
    Pow2Values();
  }

  /** The bits in the buffer and the input that follows begin with the bits of the stream not taken yet. */
  ghost predicate Holds(bitBuf: nat, numBits: nat, inBuf: seq<Byte>, inPos: nat, later: seq<Byte>, rem: seq<bool>) {
    && inPos <= |inBuf| && bitBuf < Pow2(numBits)
    && rem <= ToBits(bitBuf, numBits) + Bytes(inBuf[inPos..] + later)
  }

  lemma NeedsInput(bitBuf: nat, numBits: nat, inBuf: seq<Byte>, inPos: nat, later: seq<Byte>, rem: seq<bool>)
    requires Holds(bitBuf, numBits, inBuf, inPos, later, rem) && |rem| > numBits
    ensures inPos < |inBuf| || later != []
  {
  }

  lemma InputBound(bitBuf: nat, numBits: nat, inBuf: seq<Byte>, inPos: nat, later: seq<Byte>, rem: seq<bool>)
    requires Holds(bitBuf, numBits, inBuf, inPos, later, rem)
    ensures inPos <= |inBuf|
  {
  }

  /** buffer | byte << numBits */
  function Push(bitBuf: nat, numBits: nat, c: Byte): nat {
    bitBuf + c * Pow2(numBits)
  }

  /** The same byte, taken from the input buffer. */
  lemma PushInput(bitBuf: nat, numBits: nat, inBuf: seq<Byte>, inPos: nat, later: seq<Byte>, rem: seq<bool>)
    requires Holds(bitBuf, numBits, inBuf, inPos, later, rem) && inPos < |inBuf|
    ensures Holds(Push(bitBuf, numBits, inBuf[inPos]), numBits + 8, inBuf, inPos + 1, later, rem)
  {
    var rest := inBuf[inPos + 1..] + later;
    assert inBuf[inPos..] + later == [inBuf[inPos]] + rest;
    PushByte(bitBuf, numBits, inBuf[inPos], rest);
  }

  /** Taking n bits off the low end of the buffer. */
  lemma PullInput(bitBuf: nat, numBits: nat, n: nat, inBuf: seq<Byte>, inPos: nat, later: seq<Byte>, rem: seq<bool>)
    requires Holds(bitBuf, numBits, inBuf, inPos, later, rem) && n <= numBits && n <= |rem|
    ensures Holds(Shr(bitBuf, n), numBits - n, inBuf, inPos, later, rem[n..])
    ensures bitBuf % Pow2(n) == FromBits(rem[..n])
  {
    hide Bytes, ToBits, FromBits, Pow2, Shr;
    ToBitsSplit(bitBuf, n, numBits);
    FromToBits(bitBuf, n);
    Canonical.ShrBound(bitBuf, n, numBits - n);
    HeadsAgree(rem, ToBits(bitBuf, n), ToBits(Shr(bitBuf, n), numBits - n), Bytes(inBuf[inPos..] + later));
  }

  lemma HeadsAgree(rem: seq<bool>, a: seq<bool>, b: seq<bool>, c: seq<bool>)
    requires |a| <= |rem| && rem <= (a + b) + c
    ensures rem[..|a|] == a && rem[|a|..] <= b + c
  {
  }

  class BitReader {
    var bitBuf: nat
    var numBits: nat
    var inBuf: seq<Byte>
    var inPos: nat
    var hasMore: bool
    /** Left off inside TINFL_HUFF_BITBUF_FILL. */
    var filling: bool
    /** The bits of the stream not taken yet, the input of later calls, how many bits have been taken, and how many bytes read. */
    ghost var rem: seq<bool>
    ghost var later: seq<Byte>
    ghost var taken: nat
    ghost var fed: nat
    /** How many of these were read in earlier calls. */
    ghost var start: nat

    /** The bit buffer never needs more than 61 of its 64 bits. */
    ghost predicate Valid()
      reads this
    {
      && Holds(bitBuf, numBits, inBuf, inPos, later, rem) && numBits <= 61
      && (hasMore || later == []) && taken + numBits == 8 * fed && fed == start + inPos
    }

    /** All input of this call has been read, and there is more to come. */
    ghost predicate Exhausted()
      reads this
    {
      inPos == |inBuf| && hasMore && later != []
    }

    twostate predicate SameCall()
      reads this
    {
      inBuf == old(inBuf) && later == old(later) && hasMore == old(hasMore) && old(inPos) <= inPos && start == old(start)
    }

    constructor (ghost rem: seq<bool>, ghost later: seq<Byte>)
      requires rem <= Bytes(later)
      ensures Valid() && this.rem == rem && this.later == later && inBuf == [] && taken == 0 && numBits == 0 && !filling && fed == 0
    {
      bitBuf, numBits, inBuf, inPos, hasMore, filling := 0, 0, [], 0, true, false;
      this.rem, this.later, this.taken, this.fed, this.start := rem, later, 0, 0, 0;
      new;
      assert inBuf[inPos..] + later == later;
      assert Pow2(0) == 1;
    }

    /** The input of the next call: what the last call left over and more of what is to come. */
    method Supply(input: seq<Byte>, more: bool, ghost later': seq<Byte>)
      requires Valid() && input + later' == inBuf[inPos..] + later && (more || later' == [])
      modifies this
      ensures Valid() && inBuf == input && inPos == 0 && hasMore == more && later == later'
      ensures rem == old(rem) && taken == old(taken) && numBits == old(numBits) && filling == old(filling)
      ensures fed == old(fed) == start
    {
      assert input[0..] == input;
      inBuf, inPos, hasMore, later, start := input, 0, more, later', fed;
    }

    /**
      TINFL_GET_BYTE. When the caller says that there is no more input it would make up a zero; as long as the stream still
      has bits that are not in the buffer, it does not come to that.
     */
    method GetByte() returns (ok: bool, c: Byte)
      requires Valid() && |rem| > numBits
      modifies this`inPos
      ensures SameCall() && inPos <= |inBuf|
      ensures if ok then inPos == old(inPos) + 1 && c == inBuf[old(inPos)] else Exhausted() && inPos == old(inPos)
    {
      NeedsInput(bitBuf, numBits, inBuf, inPos, later, rem);
      ok, c := true, 0;
      if inPos < |inBuf| {
        c := inBuf[inPos];
        inPos := inPos + 1;
      } else if hasMore {
        ok := false;
      }
    }

    /** One byte is appended to the bit buffer. */
    method AddByte() returns (ok: bool)
      requires Valid() && |rem| > numBits && numBits <= 53
      modifies this`inPos, this`bitBuf, this`numBits, this`fed
      ensures Valid() && SameCall()
      ensures ok ==> numBits == old(numBits) + 8
      ensures !ok ==> Exhausted() && numBits == old(numBits)
    {
      var c;
      ok, c := GetByte();
      if ok {
        PushInput(bitBuf, numBits, inBuf, old(inPos), later, rem);
        bitBuf, numBits, fed := Push(bitBuf, numBits, c), numBits + 8, fed + 1;
      }
    }

    /** MZ_READ_LE32 and the like: k bytes at once. */
    method AddBytes(k: nat)
      requires Valid() && inPos + k <= |inBuf| && numBits + 8 * k <= 61
      modifies this`inPos, this`bitBuf, this`numBits, this`fed
      ensures Valid() && SameCall() && numBits == old(numBits) + 8 * k && inPos == old(inPos) + k
    {
      hide Holds, Push;
      for i := 0 to k
        invariant Valid() && SameCall() && numBits == old(numBits) + 8 * i && inPos == old(inPos) + i
      {
        PushInput(bitBuf, numBits, inBuf, inPos, later, rem);
        inPos, bitBuf, numBits, fed := inPos + 1, Push(bitBuf, numBits, inBuf[inPos]), numBits + 8, fed + 1;
      }
    }

    /** The low n bits are taken out of the bit buffer. */
    method Take(n: nat) returns (b: nat)
      requires Valid() && n <= numBits && n <= |rem|
      modifies this`bitBuf, this`numBits, this`rem, this`taken
      ensures Valid() && numBits == old(numBits) - n && taken == old(taken) + n
      ensures b == FromBits(old(rem)[..n]) && rem == old(rem)[n..]
    {
      PullInput(bitBuf, numBits, n, inBuf, inPos, later, rem);
      b := bitBuf % Pow2(n);
      bitBuf, numBits, rem, taken := Shr(bitBuf, n), numBits - n, rem[n..], taken + n;
    }

    /** TINFL_GET_BITS */
    method GetBits(n: nat) returns (ok: bool, b: nat)
      requires Valid() && n <= |rem| && n <= 16
      modifies this`inPos, this`bitBuf, this`numBits, this`rem, this`taken, this`fed
      ensures Valid() && SameCall()
      ensures ok ==> b == FromBits(old(rem)[..n]) && rem == old(rem)[n..] && taken == old(taken) + n
      ensures !ok ==> Exhausted() && rem == old(rem) && taken == old(taken) && numBits < n
    {
      b := 0;
      while numBits < n
        invariant Valid() && SameCall() && rem == old(rem) && taken == old(taken)
        decreases n - numBits
      {
        ok := AddByte();
        if !ok {
          return;
        }
      }
      ok := true;
      b := Take(n);
    }

    /** TINFL_SKIP_BITS of the bits before the next byte boundary. */
    method SkipToByte()
      requires Valid() && (8 - taken % 8) % 8 <= |rem|
      modifies this`bitBuf, this`numBits, this`rem, this`taken
      ensures Valid() && numBits % 8 == 0 && taken % 8 == 0 && taken == old(taken) + (8 - old(taken) % 8) % 8
      ensures rem == old(rem)[(8 - old(taken) % 8) % 8..]
    {
      ToBoundary(taken, numBits, fed);
      var _ := Take(numBits % 8);
    }

    /** A byte at a byte boundary, from the bit buffer if that holds any. */
    method GetAlignedByte() returns (ok: bool, c: nat)
      requires Valid() && numBits % 8 == 0 && |rem| >= 8
      modifies this`inPos, this`bitBuf, this`numBits, this`rem, this`taken, this`fed
      ensures Valid() && SameCall() && numBits % 8 == 0
      ensures ok ==> c == FromBits(old(rem)[..8]) && rem == old(rem)[8..] && taken == old(taken) + 8
      ensures !ok ==> Exhausted() && rem == old(rem) && taken == old(taken) && numBits < 8
    {
      if numBits != 0 {
        ok, c := GetBits(8);
        WholeBytes(old(numBits), numBits, fed - old(fed) - (if ok then 1 else 0));
      } else {
        ok, c := GetDirectByte();
      }
    }

    method GetDirectByte() returns (ok: bool, c: nat)
      requires Valid() && numBits == 0 && |rem| >= 8
      modifies this`inPos, this`rem, this`taken, this`fed
      ensures Valid() && SameCall()
      ensures ok ==> c == FromBits(old(rem)[..8]) && rem == old(rem)[8..] && taken == old(taken) + 8
      ensures !ok ==> Exhausted() && rem == old(rem) && taken == old(taken) && numBits == 0
    {
      ok, c := GetByte();
      if ok {
        DirectByte(bitBuf, inBuf, old(inPos), later, rem);
        rem, taken, fed := rem[8..], taken + 8, fed + 1;
      }
    }

    /** Bytes that are copied from the input buffer as they are. */
    method GetRun(n: nat) returns (data: seq<Byte>)
      requires Valid() && numBits == 0 && inPos + n <= |inBuf| && 8 * n <= |rem|
      modifies this`inPos, this`rem, this`taken, this`fed
      ensures Valid() && SameCall() && |data| == n && numBits == 0 && inPos == old(inPos) + n
      ensures Bytes(data) == old(rem)[..8 * n] && rem == old(rem)[8 * n..] && taken == old(taken) + 8 * n
    {
      data := inBuf[inPos..inPos + n];
      DirectBytes(bitBuf, inBuf, inPos, n, later, rem);
      inPos, rem, taken, fed := inPos + n, rem[8 * n..], taken + 8 * n, fed + n;
    }

    /** The next symbol when its whole code is in the bit buffer. */
    method DecodeBuffered(table: HuffTable, ghost codes: seq<seq<bool>>, ghost s: nat) returns (sym: nat)
      requires Valid() && table.Valid() && table.Decodes(codes) && Coded(codes, s)
      requires codes[s] <= rem && |codes[s]| <= numBits
      modifies this`bitBuf, this`numBits, this`rem, this`taken
      ensures Valid() && sym == s && numBits == old(numBits) - |codes[s]|
      ensures rem == old(rem)[|codes[s]|..] && taken == old(taken) + |codes[s]|
    {
      CodeInBuffer(codes[s]);
      var codeLen;
      sym, codeLen := table.Decode(bitBuf, codes, s);
      var _ := Take(codeLen);
    }

    lemma CodeInBuffer(code: seq<bool>)
      requires Valid() && code <= rem
      ensures code <= ToBits(bitBuf, numBits) || ToBits(bitBuf, numBits) <= code
      ensures |code| <= numBits ==> Starts(bitBuf, code)
    {
      PrefixOfWhole(code, ToBits(bitBuf, numBits), ToBits(bitBuf, numBits) + Bytes(inBuf[inPos..] + later));
      if |code| <= numBits {
        ToBitsSplit(bitBuf, |code|, numBits);
      }
    }

    /** TINFL_HUFF_DECODE */
    method HuffDecode(table: HuffTable, ghost codes: seq<seq<bool>>, ghost s: nat) returns (ok: bool, sym: nat)
      requires Valid() && table.Valid() && table.Decodes(codes) && Coded(codes, s) && |codes[s]| <= 15
      requires codes[s] <= rem && (filling ==> numBits < |codes[s]|)
      modifies this`inPos, this`bitBuf, this`numBits, this`filling, this`rem, this`taken, this`fed
      ensures Valid() && SameCall()
      ensures ok ==> sym == s && !filling && rem == old(rem)[|codes[s]|..] && taken == old(taken) + |codes[s]|
      ensures !ok ==> Exhausted() && filling && numBits < |codes[s]| && rem == old(rem) && taken == old(taken)
    {
      hide Holds, ToBits, Starts, HuffTable.Decodes, HuffTable.Valid;
      sym := 0;
      if filling || numBits < 15 {
        if !filling && |inBuf| - inPos >= 2 {
          AddBytes(2);
        } else {
          ok := Fill(table, codes, s);
          if !ok {
            return;
          }
        }
      }
      ok := true;
      sym := DecodeBuffered(table, codes, s);
    }

    /** TINFL_HUFF_BITBUF_FILL: no byte is read that the next symbol does not need. */
    method Fill(table: HuffTable, ghost codes: seq<seq<bool>>, ghost s: nat) returns (ok: bool)
      requires Valid() && table.Valid() && table.Decodes(codes) && Coded(codes, s) && |codes[s]| <= 15
      requires codes[s] <= rem && numBits < 15 && (filling ==> numBits < |codes[s]|)
      modifies this`inPos, this`bitBuf, this`numBits, this`filling, this`fed
      ensures Valid() && SameCall()
      ensures ok ==> !filling && numBits >= |codes[s]| && (inPos > old(inPos) ==> numBits < |codes[s]| + 8)
      ensures !ok ==> Exhausted() && filling && numBits < |codes[s]|
    {
      hide Holds, ToBits, Starts, HuffTable.Decodes, HuffTable.Valid;
      while filling || numBits < 15
        invariant Valid() && SameCall() && (filling ==> numBits < |codes[s]|)
        invariant inPos > old(inPos) ==> numBits < |codes[s]| + 8
        decreases 15 - numBits
      {
        if !filling {
          CodeInBuffer(codes[s]);
          var found := table.HasSymbol(bitBuf, numBits, codes, s);
          if found {
            break;
          }
        }
        ok := AddByte();
        filling := !ok;
        if !ok {
          return;
        }
      }
      ok := true;
    }
  }

  lemma ToBoundary(taken: nat, numBits: nat, fed: nat)
    requires taken + numBits == 8 * fed
    ensures var n := numBits % 8;
      n == (8 - taken % 8) % 8 && (numBits - n) % 8 == 0 && (taken + n) % 8 == 0
  {
    var k, n := numBits / 8, numBits % 8;
    assert numBits == 8 * k + n;
    if n == 0 {
      assert taken == 8 * (fed - k);
    } else {
      assert taken == 8 * (fed - k - 1) + (8 - n);
    }
  }

  lemma WholeBytes(a: nat, b: nat, k: int)
    requires a % 8 == 0 && b == a + 8 * k
    ensures b % 8 == 0
  {
  }

  lemma ByteOfBits(c: Byte)
    ensures Bytes([c]) == ToBits(c, 8) && FromBits(ToBits(c, 8)) == c
  {
    assert [c][1..] == [];
    FromToBits(c, 8);
    Pow2Values();
    DivModUnique(c, 256, 0, c);
  }

  /** With an empty bit buffer the stream goes on with the bytes of the input. */
  lemma DirectBytes(bitBuf: nat, inBuf: seq<Byte>, inPos: nat, n: nat, later: seq<Byte>, rem: seq<bool>)
    requires Holds(bitBuf, 0, inBuf, inPos, later, rem) && inPos + n <= |inBuf| && 8 * n <= |rem|
    ensures Bytes(inBuf[inPos..inPos + n]) == rem[..8 * n] && Holds(bitBuf, 0, inBuf, inPos + n, later, rem[8 * n..])
  {
    hide Bytes;
    assert ToBits(bitBuf, 0) + Bytes(inBuf[inPos..] + later) == Bytes(inBuf[inPos..] + later);
    var a, b := inBuf[inPos..inPos + n], inBuf[inPos + n..] + later;
    assert inBuf[inPos..] + later == a + b;
    BytesConcat(a, b);
    BytesLen(a);
    Drop(rem, Bytes(a), Bytes(b));
  }

  lemma Drop(rem: seq<bool>, a: seq<bool>, b: seq<bool>)
    requires rem <= a + b && |a| <= |rem|
    ensures rem[..|a|] == a && rem[|a|..] <= b
  {
  }

  lemma DirectByte(bitBuf: nat, inBuf: seq<Byte>, inPos: nat, later: seq<Byte>, rem: seq<bool>)
    requires Holds(bitBuf, 0, inBuf, inPos, later, rem) && inPos < |inBuf| && 8 <= |rem|
    ensures FromBits(rem[..8]) == inBuf[inPos] && Holds(bitBuf, 0, inBuf, inPos + 1, later, rem[8..])
  {
    DirectBytes(bitBuf, inBuf, inPos, 1, later, rem);
    assert inBuf[inPos..inPos + 1] == [inBuf[inPos]];
    ByteOfBits(inBuf[inPos]);
  }
}
