/** TDEFL_PUT_BITS and the 64-bit accumulator of the fast block writer, over an output buffer that may run full. */
module BitWriters {
  import opened Bits
  import Canonical

  const OUT_BUF_SIZE: nat := 85196

  /** The bytes written and the bits in the buffer are the bits sent. */
  ghost predicate Holding(written: seq<Byte>, bitBuffer: nat, bitsIn: nat, sent: seq<bool>) {
    bitBuffer < Pow2(bitsIn) && sent == Bytes(written) + ToBits(bitBuffer, bitsIn)
  }

  /** buffer | bits << bitsIn */
  function Insert(bitBuffer: nat, bitsIn: nat, bits: nat): nat {
    bitBuffer + bits * Pow2(bitsIn)
  }

  lemma InsertHolds(written: seq<Byte>, bitBuffer: nat, bitsIn: nat, sent: seq<bool>, bits: nat, len: nat)
    requires Holding(written, bitBuffer, bitsIn, sent) && bits < Pow2(len)
    ensures Holding(written, Insert(bitBuffer, bitsIn, bits), bitsIn + len, sent + ToBits(bits, len))
  {
    hide Bytes, ToBits, Pow2, Insert;
    InsertBits(bitBuffer, bitsIn, bits, len);
    InsertBound(bitBuffer, bitsIn, bits, len);
    Associate(Bytes(written), ToBits(bitBuffer, bitsIn), ToBits(bits, len));
  }

  lemma InsertBits(bitBuffer: nat, bitsIn: nat, bits: nat, len: nat)
    requires bitBuffer < Pow2(bitsIn)
    ensures ToBits(Insert(bitBuffer, bitsIn, bits), bitsIn + len) == ToBits(bitBuffer, bitsIn) + ToBits(bits, len)
  {
    ToBitsAppend(bitBuffer, bitsIn, bits, len);
  }

  lemma InsertBound(bitBuffer: nat, bitsIn: nat, bits: nat, len: nat)
    requires bitBuffer < Pow2(bitsIn) && bits < Pow2(len)
    ensures Insert(bitBuffer, bitsIn, bits) < Pow2(bitsIn + len)
  {
    Pow2Add(len, bitsIn);
    Below(bits, Pow2(len), Pow2(bitsIn));
  }

  lemma Below(a: nat, b: nat, p: nat)
    requires a < b
    ensures a * p + p <= b * p
  {
    MulMonotone(p, a + 1, b);
    MulDist(a, p);
  }

  /** The low byte of the buffer is written. */
  lemma WriteHolds(written: seq<Byte>, bitBuffer: nat, bitsIn: nat, sent: seq<bool>)
    requires Holding(written, bitBuffer, bitsIn, sent) && bitsIn >= 8
    ensures Holding(written + [bitBuffer % 256], bitBuffer / 256, bitsIn - 8, sent)
  {
    ToBitsSplit(bitBuffer, 8, bitsIn);
    ToBitsMod(bitBuffer, 8);
    Pow2Values();
    ShrDiv(bitBuffer, 8);
    Canonical.ShrBound(bitBuffer, 8, bitsIn - 8);
    var b: Byte := bitBuffer % 256;
    BytesConcat(written, [b]);
    assert [b][1..] == [];
  }

  class BitWriter {
    const buf: array<Byte>
    var pos: nat
    var end: nat
    var bitBuffer: nat
    var bitsIn: nat
    /** The bits sent to this buffer, and how many bytes of them have left the bit buffer: more than end if some were lost. */
    ghost var sent: seq<bool>
    ghost var pushed: nat

    ghost predicate Valid()
      reads this, buf
    {
      && bitsIn < 8 && end + 16 <= buf.Length && |sent| == 8 * pushed + bitsIn
      && pos == (if pushed <= end then pushed else end) && bitBuffer < Pow2(bitsIn)
      && (pushed <= end ==> Holding(buf[..pos], bitBuffer, bitsIn, sent))
    }

    /** Nothing that has been written is changed. */
    twostate predicate Kept()
      reads this, buf
    {
      old(pos) <= pos && forall i :: 0 <= i < old(pos) && i < buf.Length ==> buf[i] == old(buf[i])
    }

    lemma PosBound()
      requires Valid()
      ensures pos <= end <= buf.Length - 16
    {
    }

    /** Fewer than eight bits wait for a whole byte. */
    lemma Waiting()
      requires Valid()
      ensures bitsIn < 8 && bitBuffer < Pow2(bitsIn)
    {
    }

    lemma PosIs()
      requires Valid()
      ensures |sent| == 8 * pushed + bitsIn && bitsIn < 8 && pos == (if pushed <= end then pushed else end) && end + 16 <= buf.Length
    {
    }

    /** There is room left as long as the bits sent take fewer bytes than there are. */
    lemma RoomLeft()
      requires Valid()
      ensures pos < end <==> |sent| < 8 * end
    {
    }

    constructor ()
      ensures Valid() && fresh(buf) && sent == [] && pos == 0 && end == OUT_BUF_SIZE - 16
      ensures bitsIn == 0 && bitBuffer == 0 && buf.Length == OUT_BUF_SIZE
    {
      buf := new Byte[OUT_BUF_SIZE];
      pos, end, bitBuffer, bitsIn, sent, pushed := 0, OUT_BUF_SIZE - 16, 0, 0, [], 0;
      new;
      assert Pow2(0) == 1;
    }

    /** A new block begins at the start of the buffer, with the bits that did not make up a byte. */
    method Restart()
      requires bitsIn < 8 && bitBuffer < Pow2(bitsIn) && buf.Length == OUT_BUF_SIZE
      modifies this`pos, this`end, this`sent, this`pushed
      ensures Valid() && pos == 0 && pushed == 0 && end == OUT_BUF_SIZE - 16 && sent == ToBits(bitBuffer, bitsIn)
    {
      pos, end, sent, pushed := 0, OUT_BUF_SIZE - 16, ToBits(bitBuffer, bitsIn), 0;
      assert buf[..0] == [] && Bytes([]) == [];
    }

    /** TDEFL_PUT_BITS: bytes that no longer fit are dropped. */
    method PutBits(bits: nat, len: nat)
      requires Valid() && bits < Pow2(len) && len <= 16
      modifies this`pos, this`bitBuffer, this`bitsIn, this`sent, this`pushed, buf
      ensures Valid() && sent == old(sent) + ToBits(bits, len) && Kept()
    {
      if pushed <= end {
        InsertHolds(buf[..pos], bitBuffer, bitsIn, sent, bits, len);
      }
      InsertBound(bitBuffer, bitsIn, bits, len);
      bitBuffer, bitsIn, sent := Insert(bitBuffer, bitsIn, bits), bitsIn + len, sent + ToBits(bits, len);
      Drain();
    }

    /** Whole bytes leave the bit buffer, which never holds more than 23 bits. */
    method Drain()
      requires bitsIn <= 23 && end + 16 <= buf.Length && |sent| == 8 * pushed + bitsIn
      requires pos == (if pushed <= end then pushed else end) && bitBuffer < Pow2(bitsIn)
      requires pushed <= end ==> Holding(buf[..pos], bitBuffer, bitsIn, sent)
      modifies this`pos, this`bitBuffer, this`bitsIn, this`pushed, buf
      ensures Valid() && Kept()
    {
      hide Holding, Pow2;
      while bitsIn >= 8
        invariant bitsIn <= 23 && |sent| == 8 * pushed + bitsIn && Kept()
        invariant pos == (if pushed <= end then pushed else end) && bitBuffer < Pow2(bitsIn)
        invariant pushed <= end ==> Holding(buf[..pos], bitBuffer, bitsIn, sent)
      {
        ByteOut();
      }
    }

    method ByteOut()
      requires 8 <= bitsIn <= 23 && end + 16 <= buf.Length && |sent| == 8 * pushed + bitsIn
      requires pos == (if pushed <= end then pushed else end) && bitBuffer < Pow2(bitsIn)
      requires pushed <= end ==> Holding(buf[..pos], bitBuffer, bitsIn, sent)
      modifies this`pos, this`bitBuffer, this`bitsIn, this`pushed, buf
      ensures bitsIn == old(bitsIn) - 8 && |sent| == 8 * pushed + bitsIn
      ensures pos == (if pushed <= end then pushed else end) && bitBuffer < Pow2(bitsIn)
      ensures pushed <= end ==> Holding(buf[..pos], bitBuffer, bitsIn, sent)
      ensures Kept()
    {
      if pushed <= end {
        WriteHolds(buf[..pos], bitBuffer, bitsIn, sent);
      }
      ShrDiv(bitBuffer, 8);
      Canonical.ShrBound(bitBuffer, 8, bitsIn - 8);
      Pow2Values();
      if pos < end {
        ghost var before := buf[..pos];
        buf[pos] := bitBuffer % 256;
        pos := pos + 1;
        assert buf[..pos] == before + [bitBuffer % 256];
      }
      bitBuffer, bitsIn, pushed := bitBuffer / 256, bitsIn - 8, pushed + 1;
    }

    /** The padding before a byte boundary. */
    method Align() returns (ghost pad: seq<bool>)
      requires Valid()
      modifies this`pos, this`bitBuffer, this`bitsIn, this`sent, this`pushed, buf
      ensures Valid() && sent == old(sent) + pad && |pad| == (8 - |old(sent)| % 8) % 8 && |sent| % 8 == 0 && bitsIn == 0
      ensures Kept()
    {
      pad := [];
      Multiple(sent, pushed, bitsIn);
      if bitsIn != 0 {
        pad := ToBits(0, 8 - bitsIn);
        PutBits(0, 8 - bitsIn);
      }
      Multiple(sent, pushed, bitsIn);
    }

    /** Back to where the block began. */
    method Restore(savedPos: nat, savedBuffer: nat, savedBits: nat, ghost savedSent: seq<bool>, ghost saved: seq<Byte>)
      requires end + 16 <= buf.Length && savedPos <= end && savedBits < 8 && savedSent == Bytes(saved) + ToBits(savedBuffer, savedBits)
      requires savedBuffer < Pow2(savedBits) && savedPos <= buf.Length && buf[..savedPos] == saved
      modifies this`pos, this`bitBuffer, this`bitsIn, this`sent, this`pushed
      ensures Valid() && pos == savedPos && sent == savedSent && bitBuffer == savedBuffer && bitsIn == savedBits
      ensures pushed == savedPos
    {
      pos, bitBuffer, bitsIn, sent, pushed := savedPos, savedBuffer, savedBits, savedSent, savedPos;
    }

    /** What the fast writer does after each step: eight bytes are stored, and those that are complete are kept. */
    method Store64(bits64: nat, bitsIn64: nat) returns (bits64': nat, bitsIn64': nat)
      requires end + 16 <= buf.Length && pos < end && bitsIn64 <= 64 && Holding(buf[..pos], bits64, bitsIn64, sent)
      modifies this`pos, buf
      ensures pos == old(pos) + bitsIn64 / 8 <= buf.Length && bitsIn64' == bitsIn64 % 8
      ensures Holding(buf[..pos], bits64', bitsIn64', sent) && Kept()
    {
      StoreBytes(bits64);
      bits64' := Keep(bits64, bitsIn64, bitsIn64 / 8);
      bitsIn64' := bitsIn64 % 8;
      pos := pos + bitsIn64 / 8;
    }

    /** TDEFL_PUT_BITS_FAST */
    method PutBitsFast(bits64: nat, bitsIn64: nat, bits: nat, len: nat) returns (bits64': nat, bitsIn64': nat)
      requires pos <= buf.Length && Holding(buf[..pos], bits64, bitsIn64, sent) && bits < Pow2(len) && bitsIn64 + len <= 64
      modifies this`sent
      ensures sent == old(sent) + ToBits(bits, len)
      ensures Holding(buf[..pos], bits64', bitsIn64', sent) && bitsIn64' == bitsIn64 + len
    {
      InsertHolds(buf[..pos], bits64, bitsIn64, sent, bits, len);
      bits64', bitsIn64' := Insert(bits64, bitsIn64, bits), bitsIn64 + len;
      sent := sent + ToBits(bits, len);
    }

    /** The bits left in the fast writer's accumulator go back to the bit buffer. */
    method TakeBack(bits64: nat, bitsIn64: nat)
      requires end + 16 <= buf.Length && pos < end && bitsIn64 < 8 && Holding(buf[..pos], bits64, bitsIn64, sent)
      modifies this`pos, this`bitBuffer, this`bitsIn, this`sent, this`pushed, buf
      ensures Valid() && sent == old(sent) && Kept()
    {
      ghost var all := sent;
      assert Pow2(0) == 1 && Bytes(buf[..pos]) + ToBits(0, 0) == Bytes(buf[..pos]);
      bitBuffer, bitsIn, sent, pushed := 0, 0, Bytes(buf[..pos]), pos;
      if bitsIn64 != 0 {
        PutBits(bits64, bitsIn64);
      }
      assert sent == all;
    }

    method StoreBytes(bits64: nat)
      requires pos + 8 <= buf.Length
      modifies buf
      ensures buf[..pos] == old(buf[..pos]) && forall j :: 0 <= j < 8 ==> buf[pos + j] == Shr(bits64, 8 * j) % 256
    {
      var v := bits64;
      for i := 0 to 8
        invariant v == Shr(bits64, 8 * i) && buf[..pos] == old(buf[..pos])
        invariant forall j :: 0 <= j < i ==> buf[pos + j] == Shr(bits64, 8 * j) % 256
      {
        buf[pos + i] := v % 256;
        ShrMore(bits64, 8 * i, 8);
        ShrByte(v);
        v := v / 256;
      }
    }

    /** The buffer is shifted right by its whole bytes. */
    method Keep(bits64: nat, bitsIn64: nat, k: nat) returns (bits64': nat)
      requires pos + 8 <= buf.Length && 8 * k <= bitsIn64 <= 64 && Holding(buf[..pos], bits64, bitsIn64, sent)
      requires forall j :: 0 <= j < 8 ==> buf[pos + j] == Shr(bits64, 8 * j) % 256
      ensures Holding(buf[..pos + k], bits64', bitsIn64 - 8 * k, sent)
    {
      hide Holding;
      bits64' := bits64;
      for i := 0 to k
        invariant bits64' == Shr(bits64, 8 * i) && Holding(buf[..pos + i], bits64', bitsIn64 - 8 * i, sent)
      {
        WriteHolds(buf[..pos + i], bits64', bitsIn64 - 8 * i, sent);
        assert buf[..pos + (i + 1)] == buf[..pos + i] + [buf[pos + i]];
        ShrMore(bits64, 8 * i, 8);
        ShrByte(bits64');
        bits64' := bits64' / 256;
      }
    }
  }

  lemma ShrByte(v: nat)
    ensures Shr(v, 8) == v / 256
  {
    ShrDiv(v, 8);
    Pow2Values();
  }

  lemma {:induction false} ShrMore(v: nat, a: nat, b: nat)
    ensures Shr(v, a + b) == Shr(Shr(v, a), b)
  {
    if a != 0 {
      ShrMore(v / 2, a - 1, b);
    }
  }

  lemma Multiple(sent: seq<bool>, pushed: nat, bitsIn: nat)
    requires |sent| == 8 * pushed + bitsIn && bitsIn < 8
    ensures |sent| % 8 == bitsIn
  {
  }
}
