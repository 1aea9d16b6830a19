/** The first half of tdefl_flush_block: one block, compressed, raw or with the fixed codes, whichever it comes to. */
module BlockSenders {
  import opened Bits
  import opened Canonical
  import opened TableBound
  import opened Lz
  import opened Deflate
  import opened TokenBuffers
  import opened TokenItems
  import opened BitWriters
  import opened BlockWriters
  import opened DynamicBlocks
  import opened StaticBounds
  import opened Dictionaries
  import Rle = CodeLengthRle

  /** The most bits that a block with the fixed codes or with its own takes, by the number of bytes it stands for. */
  function FormBits(fixed: bool, total: nat): nat { 12 * total + if fixed then 10 else 4600 }

  /** The same for the form that is chosen. */
  function MostBits(total: nat): nat { if total == 0 then 41 else 12 * total + 4600 }

  /** A block of no bytes, raw or with the fixed codes. */
  predicate EmptyBlock(b: Block, raw: bool) {
    if raw then b.Stored? && b.data == [] else b == Fixed([])
  }

  /** A block that stands for these tokens behind prefix. */
  ghost predicate BlockFor(b: Block, ts: seq<Token>, prefix: seq<Byte>) {
    && TokensOk(ts, |prefix|) && WellFormed(b) && BlockOk(b, |prefix|) && BlockOut(b, prefix) == Expand(ts, prefix)
  }

  /** What tdefl_compress_block makes of the tokens: a block with the fixed codes, or one with nearly the best codes for them. */
  ghost predicate Compressed(b: Block, ts: seq<Token>, fixed: bool) {
    && AllRecordable(ts) && WellFormed(b) && !b.Stored? && (b.Fixed? <==> fixed) && b.items == Items(ts)
    && (b.Dynamic? ==> CodesChosen(ts, b.header))
  }

  /** Behind n bits the block is no shorter, in whole bytes, than what it stands for. */
  predicate Expanded(b: Block, n: nat, total: nat)
    requires WellFormed(b)
  {
    total > 0 && (n + 2 + |BodyBits(b)|) / 8 - n / 8 + 1 >= total
  }

  /** The compressed block is sent, unless it is expanded and its bytes are still in the dictionary. */
  ghost predicate Settled(b: Block, tried: Block, ts: seq<Token>, total: nat, fixed: bool, inDict: bool, n: nat) {
    Compressed(tried, ts, fixed) && if inDict && Expanded(tried, n, total) then b.Stored? else b == tried
  }

  /**
    The form of a block for total bytes, behind n bits: raw if that is asked for and the bytes are still in the dictionary; and
    otherwise compressed, unless that takes more. A block whose bytes are still there is never longer than its raw form.
   */
  ghost predicate FormOf(b: Block, ts: seq<Token>, total: nat, fixed: bool, forceRaw: bool, inDict: bool, n: nat) {
    && WellFormed(b) && (b.Stored? ==> inDict) && (inDict ==> 2 + |BodyBits(b)| <= 41 + 8 * total)
    && if forceRaw && inDict then b.Stored?
       else exists tried: Block :: Settled(b, tried, ts, total, fixed, inDict, n)
  }

  /** What is asked for is done: no codes of its own if they are to be the fixed ones, and no codes at all with forceRaw. */
  lemma FormAsked(b: Block, ts: seq<Token>, total: nat, fixed: bool, forceRaw: bool, inDict: bool, n: nat)
    requires FormOf(b, ts, total, fixed, forceRaw, inDict, n)
    ensures fixed ==> !b.Dynamic?
    ensures forceRaw && inDict ==> b.Stored?
    ensures b.Stored? || (AllRecordable(ts) && b.items == Items(ts))
  {
    hide BodyBits, WellFormed, Items, CodesChosen, Expanded;
  }

  lemma ExpandedIs(b: Block, n: nat, pos: nat, bitsIn: nat, pos': nat, bitsIn': nat, total: nat)
    requires WellFormed(b) && n == 8 * pos + bitsIn && n + 2 + |BodyBits(b)| == 8 * pos' + bitsIn' && bitsIn < 8 && bitsIn' < 8
    ensures Expanded(b, n, total) <==> total != 0 && pos' - pos + 1 >= total
  {
    hide BodyBits, WellFormed;
    DivModUnique(n, 8, pos, bitsIn);
    DivModUnique(n + 2 + |BodyBits(b)|, 8, pos', bitsIn');
  }

  lemma CompressedShort(before: nat, after: nat, tried: Block, total: nat)
    requires WellFormed(tried) && after == before + 2 + |BodyBits(tried)| && !Expanded(tried, before, total)
    requires total == 0 ==> 2 + |BodyBits(tried)| <= 41
    ensures 2 + |BodyBits(tried)| <= 41 + 8 * total
  {
  }

  lemma FixedFor(ts: seq<Token>, prefix: seq<Byte>)
    requires AllRecordable(ts) && AllCoded(FixedCodes(), ts) && TokensOk(ts, |prefix|)
    ensures BlockFor(Fixed(Items(ts)), ts, prefix) && BodyBits(Fixed(Items(ts))) == ItemsBits(FixedCodes(), Items(ts))
  {
    hide FixedCodes, Items, ItemsBits, ItemsOk, ItemsOut;
    TokensDecode(FixedCodes(), ts, prefix);
  }

  lemma DynamicFor(h: Header, ts: seq<Token>, prefix: seq<Byte>)
    requires HeaderOk(h) && Coded(DynamicCodes(h).lit, 256) && AllRecordable(ts) && AllCoded(DynamicCodes(h), ts)
    requires TokensOk(ts, |prefix|)
    ensures BlockFor(Dynamic(h, Items(ts)), ts, prefix)
    ensures BodyBits(Dynamic(h, Items(ts))) == HeaderBits(h) + ItemsBits(DynamicCodes(h), Items(ts))
  {
    hide HeaderOk, DynamicCodes, Items, ItemsBits, ItemsOk, ItemsOut, HeaderBits;
    TokensDecode(DynamicCodes(h), ts, prefix);
  }

  lemma StoredFor(pad: seq<bool>, data: seq<Byte>, ts: seq<Token>, prefix: seq<Byte>)
    requires |pad| < 8 && |data| < 65536 && TokensOk(ts, |prefix|) && Expand(ts, prefix) == prefix + data
    ensures BlockFor(Stored(pad, data), ts, prefix)
  {
  }

  /** LEN and NLEN as two 16-bit fields. */
  lemma StoredHeaderBits(len: nat)
    requires len < 65536
    ensures Bytes(StoredHeader(len)) == ToBits(len, 16) + ToBits(65535 - len, 16)
  {
    hide ToBits, Bytes;
    WordBits(len);
    WordBits(65535 - len);
    var s := StoredHeader(len);
    assert s == [len % 256, len / 256] + [255 - len % 256, 255 - len / 256];
    BytesConcat([len % 256, len / 256], [255 - len % 256, 255 - len / 256]);
    Complement(len);
  }

  lemma Complement(len: nat)
    requires len < 65536
    ensures (65535 - len) % 256 == 255 - len % 256 && (65535 - len) / 256 == 255 - len / 256
  {
  }

  lemma WordBits(v: nat)
    requires v < 65536
    ensures ToBits(v, 16) == Bytes([v % 256, v / 256])
  {
    ToBitsSplit(v, 8, 16);
    ShrDiv(v, 8);
    Pow2Values();
    ToBitsMod(v, 8);
    var s: seq<Byte> := [v % 256, v / 256];
    assert s[1..] == [v / 256] && s[1..][1..] == [];
  }

  class BlockSender {
    const maker: BlockMaker
    const d: Dictionary
    const out: BitWriter
    const tokens: TokenBuffer
    /** Whether the writer with the 64-bit accumulator is compiled in. */
    const wide: bool

    constructor (maker: BlockMaker, d: Dictionary, wide: bool)
      ensures this.maker == maker && this.d == d && this.wide == wide && out == maker.writer.out && tokens == maker.writer.tokens
    {
      this.maker, this.d, this.wide, out, tokens := maker, d, wide, maker.writer.out, maker.writer.tokens;
    }

    ghost predicate Shape() {
      && maker.Shape() && out == maker.writer.out && tokens == maker.writer.tokens && d.Shape() && d.dict != out.buf
      && d.dict != tokens.codeBuf
    }

    lemma Apart()
      requires Shape()
      ensures tokens.codeBuf != out.buf && tokens.codeBuf.Length == LZ_CODE_BUF_SIZE && d.dict != out.buf && d.dict != tokens.codeBuf
      ensures maker.writer.lit.count == tokens.litCount && maker.writer.dist.count == tokens.distCount
    {
    }

    /** The token buffer is none of the encoder's tables, and neither is the output. */
    lemma Untouched()
      requires Shape()
      ensures var ts := maker.TableArrays(); tokens !in ts && tokens.codeBuf !in ts && out !in ts && out.buf !in ts
    {
    }

    /** The dictionary is none of the encoder's tables. */
    lemma DictionaryApart()
      requires Shape()
      ensures d !in maker.TableArrays() && d.dict !in maker.TableArrays() && d.dict != out.buf
    {
    }

    /** The token buffer is closed and holds these tokens. */
    ghost predicate Closed(ts: seq<Token>)
      reads tokens, tokens.codeBuf
    {
      && AllRecordable(ts) && |ts| < 65535 && tokens.codeBuf.Length == LZ_CODE_BUF_SIZE
      && tokens.codePos <= LZ_CODE_BUF_SIZE && tokens.codeBuf[..tokens.codePos] == Pack(ts)
    }

    /** The bits sent so far are all in the buffer. */
    ghost predicate Intact()
      reads out, out.buf
    {
      out.Valid() && out.pushed < out.end == 85180
    }

    method CompressLzCodes(ghost c: Codes, ghost ts: seq<Token>) returns (ok: bool)
      requires out.Valid() && out.pushed <= out.end && maker.writer.Ready(c, ts) && out == maker.writer.out
      modifies out`pos, out`bitBuffer, out`bitsIn, out`sent, out`pushed, out.buf
      ensures ok ==> out.Valid() && out.sent == old(out.sent) + ItemsBits(c, Items(ts)) && out.pos < out.end
      ensures out.Kept() && (ok <==> |old(out.sent) + ItemsBits(c, Items(ts))| < 8 * out.end)
    {
      hide BitWriter.Valid, BlockWriter.Ready;
      if wide {
        ok := maker.writer.WriteFast(c, ts);
      } else {
        ok := maker.writer.WriteSimple(c, ts);
      }
    }

    /** tdefl_compress_block with the fixed codes. It always fits, unless there is too much in the buffer already. */
    method CompressStatic(ghost ts: seq<Token>, ghost prefix: seq<Byte>) returns (ok: bool, ghost b: Block)
      requires Shape() && Intact() && Closed(ts) && TokensOk(ts, |prefix|) && |out.sent| <= 400
      modifies maker.TableArrays()
      modifies out`pos, out`bitBuffer, out`bitsIn, out`sent, out`pushed, out.buf
      ensures ok && BlockFor(b, ts, prefix) && b == Fixed(Items(ts)) && Compressed(b, ts, true) && Intact() && out.Kept()
      ensures out.sent == old(out.sent) + (ToBits(1, 2) + BodyBits(b)) && |out.sent| < 8 * 85180 - 500
      ensures |out.sent| <= |old(out.sent)| + FormBits(true, TokensLen(ts))
    {
      hide TokensLen, BitWriter.Valid, FixedCodes, Items, ItemsBits, BlockFor, TableHolds, Pack, AllCoded, BodyBits;
      StaticFits(ts);
      StaticSize(ts);
      FixedFor(ts, prefix);
      b := Fixed(Items(ts));
      out.PosIs();
      maker.StartStatic();
      FixedEnd();
      out.PosIs();
      ok := CompressLzCodes(FixedCodes(), ts);
      out.PosIs();
      Associate(old(out.sent), ToBits(1, 2), ItemsBits(FixedCodes(), Items(ts)));
    }

    /** tdefl_compress_block with codes of its own: it fits as well. */
    method CompressDynamic(ghost ts: seq<Token>, ghost prefix: seq<Byte>) returns (ok: bool, ghost b: Block)
      requires Shape() && Intact() && Closed(ts) && TokensOk(ts, |prefix|) && |out.sent| <= 400
      requires TokenCounts(ts, maker.writer.lit.count[..], maker.writer.dist.count[..])
      modifies maker.TableArrays()
      modifies out`pos, out`bitBuffer, out`bitsIn, out`sent, out`pushed, out.buf
      ensures ok && BlockFor(b, ts, prefix) && Compressed(b, ts, false) && Intact() && out.Kept()
      ensures out.sent == old(out.sent) + (ToBits(2, 2) + BodyBits(b)) && |out.sent| < 8 * 85180 - 500
      ensures |out.sent| <= |old(out.sent)| + FormBits(false, TokensLen(ts))
    {
      hide CodesChosen;
      hide TokensLen, BitWriter.Valid, DynamicCodes, Items, ItemsBits, BlockFor, TableHolds, Pack, AllCoded, BodyBits;
      hide HeaderOk, HeaderBits, TokenCounts;
      out.PosIs();
      PackShort(ts);
      ghost var h := maker.StartDynamic(ts);
      DynamicFor(h, ts, prefix);
      b := Dynamic(h, Items(ts));
      HeaderShort(h);
      out.PosIs();
      ok := CompressLzCodes(DynamicCodes(h), ts);
      out.PosIs();
      FourToTwo(old(out.sent), ToBits(2, 2), HeaderBits(h), ItemsBits(DynamicCodes(h), Items(ts)));
    }

    lemma PackShort(ts: seq<Token>)
      requires Closed(ts)
      ensures AllRecordable(ts) && |Pack(ts)| <= LZ_CODE_BUF_SIZE
    {
      hide Pack;
    }

    /** The bytes the tokens stand for, as they are in the dictionary. */
    method PutRaw(dictPos: nat, total: nat) returns (ghost pad: seq<bool>)
      requires Shape() && Intact() && d.Valid() && dictPos + total <= d.lookaheadPos && d.lookaheadPos - dictPos <= d.dictSize
      requires |out.sent| <= 400
      modifies out`pos, out`bitBuffer, out`bitsIn, out`sent, out`pushed, out.buf
      ensures Intact() && out.Kept() && |pad| < 8 && (|old(out.sent)| + 2 + |pad|) % 8 == 0 && total < 65536
      ensures dictPos + total <= |d.stream|
      ensures var b := Stored(pad, d.stream[dictPos..dictPos + total]);
        out.sent == old(out.sent) + (ToBits(0, 2) + BodyBits(b)) && |out.sent| < 8 * 85180 - 500
      ensures |out.sent| <= |old(out.sent)| + 41 + 8 * total
    {
      hide BitWriter.Valid, Holds, ToBits, Bytes, StoredHeader, BlockMaker.Shape;
      ghost var data := d.stream[dictPos..dictPos + total];
      pad := PutRawHeader(total);
      StoredHeaderBits(total);
      PutDictionary(dictPos, total);
      RawSent(old(out.sent), ToBits(0, 2), pad, ToBits(total, 16), ToBits(65535 - total, 16), Bytes(data));
      out.PosIs();
    }

    method PutRawHeader(total: nat) returns (ghost pad: seq<bool>)
      requires Intact() && |out.sent| <= 400 && total < 65536
      modifies out`pos, out`bitBuffer, out`bitsIn, out`sent, out`pushed, out.buf
      ensures out.Valid() && out.Kept() && |pad| < 8 && (|old(out.sent)| + 2 + |pad|) % 8 == 0
      ensures out.sent == ((old(out.sent) + ToBits(0, 2)) + pad) + ToBits(total, 16) + ToBits(65535 - total, 16)
    {
      hide BitWriter.Valid, ToBits, Pow2;
      SmallPow2();
      pad := PutRawType();
      out.PutBits(total % 65536, 16);
      out.PutBits(65535 - total, 16);
    }

    method PutRawType() returns (ghost pad: seq<bool>)
      requires Intact()
      modifies out`pos, out`bitBuffer, out`bitsIn, out`sent, out`pushed, out.buf
      ensures out.Valid() && out.Kept() && |pad| < 8 && (|old(out.sent)| + 2 + |pad|) % 8 == 0
      ensures out.sent == (old(out.sent) + ToBits(0, 2)) + pad
    {
      hide BitWriter.Valid, ToBits, Pow2;
      SmallPow2();
      out.PutBits(0, 2);
      pad := out.Align();
      PadOf(|old(out.sent)| + 2, |pad|);
    }

    method PutDictionary(dictPos: nat, total: nat)
      requires Shape() && out.Valid() && d.Valid() && dictPos + total <= d.lookaheadPos && d.lookaheadPos - dictPos <= d.dictSize
      modifies out`pos, out`bitBuffer, out`bitsIn, out`sent, out`pushed, out.buf
      ensures out.Valid() && out.Kept()
      ensures out.sent == old(out.sent) + Bytes(d.stream[dictPos..dictPos + total])
    {
      hide BitWriter.Valid, Holds, ToBits, Bytes, Pow2, BlockMaker.Shape;
      SmallPow2();
      NoneYet(d.stream, dictPos);
      for i := 0 to total
        invariant out.Valid() && out.Kept() && out.sent == old(out.sent) + Bytes(d.stream[dictPos..dictPos + i]) && d.Valid()
      {
        ReadAhead(d.dict[..], d.stream, dictPos + i, 0);
        OneMoreByte(old(out.sent), d.stream, dictPos, dictPos + i);
        out.PutBits(d.dict[(dictPos + i) % LZ_DICT_SIZE], 8);
      }
    }

    /** The zlib header goes before the first block, and the bit that says whether it is the last before each. */
    method PutStart(final: bool, withHeader: bool)
      requires Intact() && |out.sent| < 8
      modifies out`pos, out`bitBuffer, out`bitsIn, out`sent, out`pushed, out.buf
      ensures Intact() && out.sent == (old(out.sent) + (if withHeader then Bytes([0x78, 0x01]) else [])) + [final]
      ensures |out.sent| <= 24
    {
      hide BitWriter.Valid;
      SmallPow2();
      out.PosIs();
      if withHeader {
        out.PutBits(0x78, 8);
        out.PutBits(0x01, 8);
        TwoBytes(0x78, 0x01);
        Associate(old(out.sent), ToBits(0x78, 8), ToBits(0x01, 8));
      }
      out.PutBits(if final then 1 else 0, 1);
      OneBit(final);
      out.PosIs();
    }

    /** Where the output was when the block began. */
    ghost predicate Saved(pos: nat, bitBuffer: nat, bitsIn: nat, sent: seq<bool>, saved: seq<Byte>)
      reads out, out.buf
    {
      && out.end == 85180 && out.end + 16 <= out.buf.Length && pos < 400 && bitsIn < 8 && bitBuffer < Pow2(bitsIn)
      && |saved| == pos && out.buf[..pos] == saved && sent == Bytes(saved) + ToBits(bitBuffer, bitsIn) && |sent| <= 24
    }

    ghost method Save() returns (saved: seq<Byte>)
      requires Intact() && |out.sent| <= 24
      ensures Saved(out.pos, out.bitBuffer, out.bitsIn, out.sent, saved) && out.pos <= 3
    {
      hide Bytes, ToBits, Pow2;
      saved := out.buf[..out.pos];
    }

    method GoBack(pos: nat, bitBuffer: nat, bitsIn: nat, ghost sent: seq<bool>, ghost saved: seq<Byte>)
      requires Saved(pos, bitBuffer, bitsIn, sent, saved)
      modifies out`pos, out`bitBuffer, out`bitsIn, out`sent, out`pushed
      ensures Intact() && out.sent == sent
    {
      hide Bytes, ToBits, Pow2;
      out.Restore(pos, bitBuffer, bitsIn, sent, saved);
    }

    lemma StillSaved(before: seq<Byte>, pos: nat, bitBuffer: nat, bitsIn: nat, sent: seq<bool>, saved: seq<Byte>)
      requires |saved| == pos <= |before| == out.buf.Length && before[..pos] == saved && out.end == 85180
      requires out.end + 16 <= out.buf.Length && pos < 400 && bitsIn < 8 && bitBuffer < Pow2(bitsIn)
      requires sent == Bytes(saved) + ToBits(bitBuffer, bitsIn) && |sent| <= 24
      requires forall i :: 0 <= i < pos ==> out.buf[i] == before[i]
      ensures Saved(pos, bitBuffer, bitsIn, sent, saved)
    {
      hide Bytes, ToBits, Pow2;
      forall i | 0 <= i < pos ensures out.buf[i] == saved[i] {
        assert before[..pos][i] == saved[i];
      }
    }

    /** The block as tdefl_compress_block writes it. */
    method TryCompress(staticBlock: bool, ghost ts: seq<Token>, ghost prefix: seq<Byte>, ghost saved: seq<Byte>)
      returns (ok: bool, ghost b: Block)
      requires Shape() && Intact() && Closed(ts) && TokensOk(ts, |prefix|) && |out.sent| <= 24
      requires Saved(out.pos, out.bitBuffer, out.bitsIn, out.sent, saved)
      requires !staticBlock ==> TokenCounts(ts, maker.writer.lit.count[..], maker.writer.dist.count[..])
      modifies maker.TableArrays()
      modifies out`pos, out`bitBuffer, out`bitsIn, out`sent, out`pushed, out.buf
      ensures |out.sent| <= |old(out.sent)| + FormBits(staticBlock, TokensLen(ts))
      ensures BlockFor(b, ts, prefix) && out.Kept() && Compressed(b, ts, staticBlock)
      ensures Saved(old(out.pos), old(out.bitBuffer), old(out.bitsIn), old(out.sent), saved)
      ensures ok && Intact() && out.sent == old(out.sent) + (ToBits(BlockType(b), 2) + BodyBits(b))
      ensures |out.sent| < 8 * 85180 - 500
    {
      hide BitWriter.Valid, BlockFor, BodyBits, ToBits, Bytes, Pow2, Closed, TokenCounts, TokensLen, FormBits, Items;
      hide Shape, BlockMaker.TableArrays;
      Apart();
      Untouched();
      ghost var before := out.buf[..];
      ghost var pos, bitBuffer, bitsIn, sent := out.pos, out.bitBuffer, out.bitsIn, out.sent;
      if staticBlock {
        ok, b := CompressStatic(ts, prefix);
      } else {
        ok, b := CompressDynamic(ts, prefix);
      }
      StillSaved(before, pos, bitBuffer, bitsIn, sent, saved);
    }

    /** A block as it is sent, behind what is in the buffer. */
    ghost predicate Sent(b: Block, ts: seq<Token>, prefix: seq<Byte>, before: seq<bool>)
      reads out, out.buf
    {
      && Intact() && BlockFor(b, ts, prefix) && WellFormed(b) && out.sent == before + (ToBits(BlockType(b), 2) + BodyBits(b))
      && (b.Stored? ==> |b.pad| < 8 && (|before| + 2 + |b.pad|) % 8 == 0)
    }

    /**
      The block in the form that is chosen: raw if that is asked for or if the compressed form is no shorter, as long as its
      bytes are still in the dictionary; with the fixed codes if the compressed form does not fit.
     */
    method SendBody(forceStatic: bool, forceRaw: bool, dictPos: nat, total: nat, ghost ts: seq<Token>, ghost prefix: seq<Byte>)
      returns (ghost b: Block)
      requires Shape() && d.Valid() && Intact() && |out.sent| <= 24 && Closed(ts)
      requires TokenCounts(ts, maker.writer.lit.count[..], maker.writer.dist.count[..])
      requires dictPos + total <= d.lookaheadPos && prefix == d.stream[..dictPos]
      requires TokensOk(ts, |prefix|) && Expand(ts, prefix) == d.stream[..dictPos + total]
      modifies maker.TableArrays()
      modifies out`pos, out`bitBuffer, out`bitsIn, out`sent, out`pushed, out.buf
      ensures Sent(b, ts, prefix, old(out.sent)) && |out.sent| < 8 * 85180 - 400
      ensures |out.sent| <= |old(out.sent)| + MostBits(total)
      ensures total == 0 ==> EmptyBlock(b, forceRaw && d.lookaheadPos - dictPos <= d.dictSize)
      ensures FormOf(b, ts, total, forceStatic || total < 48, forceRaw, d.lookaheadPos - dictPos <= d.dictSize, |old(out.sent)|)
    {
      hide BitWriter.Valid, BlockFor, BodyBits, ToBits, Bytes, Pow2, Closed, TokenCounts, Holds, WellFormed, BlockType, Saved;
      hide Expand, TokensOk, Sent, TokensLen, FormBits, MostBits, EmptyBlock, Shape, BlockMaker.TableArrays, Dictionary.Valid;
      hide Compressed, FormOf, Expanded;
      DictionaryApart();
      PackShort(ts);
      TotalIs(dictPos, total, ts, prefix, forceStatic);
      ghost var saved := Save();
      ghost var sent := out.sent;
      var savedPos, savedBitBuf, savedBitsIn := out.pos, out.bitBuffer, out.bitsIn;
      var useRaw, ok := forceRaw && d.lookaheadPos - dictPos <= d.dictSize, false;
      ghost var tried := Fixed([]);
      if !useRaw {
        ok, tried := TryBlock(forceStatic || total < 48, ts, prefix, saved);
      }
      b := Settle(useRaw, ok, tried, savedPos, savedBitBuf, savedBitsIn, dictPos, total, ts, prefix, sent, saved);
      FormMade(b, tried, ts, prefix, total, forceStatic || total < 48, forceRaw, d.lookaheadPos - dictPos <= d.dictSize, sent);
    }

    lemma FormMade(b: Block, tried: Block, ts: seq<Token>, prefix: seq<Byte>, total: nat, fixed: bool, forceRaw: bool,
                   inDict: bool, sent: seq<bool>)
      requires Sent(b, ts, prefix, sent) && (b.Stored? ==> inDict && |out.sent| <= |sent| + 41 + 8 * total)
      requires forceRaw && inDict ==> b.Stored?
      requires !(forceRaw && inDict) ==> Settled(b, tried, ts, total, fixed, inDict, |sent|)
      requires |out.sent| <= |sent| + MostBits(total)
      ensures FormOf(b, ts, total, fixed, forceRaw, inDict, |sent|)
    {
      hide BitWriter.Valid, BlockFor, BodyBits, ToBits, Expanded, WellFormed, Items, CodesChosen;
      if !b.Stored? && inDict {
        CompressedShort(|sent|, |out.sent|, tried, total);
      }
    }

    /** The tokens stand for so many bytes; and a block for none has the fixed codes. */
    lemma TotalIs(dictPos: nat, total: nat, ts: seq<Token>, prefix: seq<Byte>, fixed: bool)
      requires AllRecordable(ts) && d.Valid() && dictPos + total <= d.lookaheadPos && prefix == d.stream[..dictPos]
      requires TokensOk(ts, |prefix|) && Expand(ts, prefix) == d.stream[..dictPos + total]
      ensures TokensLen(ts) == total && (total == 0 ==> ts == []) && FormBits(fixed || total < 48, total) <= MostBits(total)
    {
      hide Holds;
      ExpandLen(ts, prefix);
      DataShort(ts);
    }

    method TryBlock(staticBlock: bool, ghost ts: seq<Token>, ghost prefix: seq<Byte>, ghost saved: seq<Byte>)
      returns (ok: bool, ghost b: Block)
      requires Shape() && Intact() && Closed(ts) && TokensOk(ts, |prefix|) && |out.sent| <= 24
      requires Saved(out.pos, out.bitBuffer, out.bitsIn, out.sent, saved)
      requires !staticBlock ==> TokenCounts(ts, maker.writer.lit.count[..], maker.writer.dist.count[..])
      modifies maker.TableArrays()
      modifies out`pos, out`bitBuffer, out`bitsIn, out`sent, out`pushed, out.buf
      ensures Closed(ts) && old(out.pos) <= out.pos && Saved(old(out.pos), old(out.bitBuffer), old(out.bitsIn), old(out.sent), saved)
      ensures ok && Sent(b, ts, prefix, old(out.sent)) && |out.sent| < 8 * 85180 - 500
      ensures (staticBlock && ts == [] ==> EmptyBlock(b, false)) && Compressed(b, ts, staticBlock)
      ensures WellFormed(b) && !b.Stored?
      ensures |out.sent| <= |old(out.sent)| + FormBits(staticBlock, TokensLen(ts))
    {
      hide BitWriter.Valid, BlockFor, BodyBits, ToBits, Bytes, Pow2, TokenCounts, WellFormed, BlockType, Saved, Pack, TokensOk;
      hide TokensLen, FormBits, Shape, BlockMaker.TableArrays;
      Apart();
      Untouched();
      ok, b := TryCompress(staticBlock, ts, prefix, saved);
      ForIsWellFormed(b, ts, prefix);
    }

    /** What becomes of the attempt. */
    method Settle(useRaw: bool, ok: bool, ghost tried: Block, savedPos: nat, savedBitBuf: nat, savedBitsIn: nat, dictPos: nat,
                  total: nat, ghost ts: seq<Token>, ghost prefix: seq<Byte>, ghost sent: seq<bool>, ghost saved: seq<Byte>)
      returns (ghost b: Block)
      requires Shape() && d.Valid() && Closed(ts) && Saved(savedPos, savedBitBuf, savedBitsIn, sent, saved)
      requires savedPos <= out.pos && savedPos <= 3 && dictPos + total <= d.lookaheadPos && prefix == d.stream[..dictPos]
      requires TokensOk(ts, |prefix|) && Expand(ts, prefix) == d.stream[..dictPos + total]
      requires useRaw ==> d.lookaheadPos - dictPos <= d.dictSize
      requires ok ==> Sent(tried, ts, prefix, sent) && |out.sent| < 8 * 85180 - 500 && |out.sent| <= |sent| + MostBits(total)
      requires TokensLen(ts) == total && (total == 0 ==> ts == [] && (ok ==> EmptyBlock(tried, false))) && (ok ==> !useRaw)
      requires ok ==> WellFormed(tried) && !tried.Stored?
      modifies maker.TableArrays()
      modifies out`pos, out`bitBuffer, out`bitsIn, out`sent, out`pushed, out.buf
      ensures total == 0 ==> EmptyBlock(b, useRaw)
      ensures Sent(b, ts, prefix, sent) && |out.sent| < 8 * 85180 - 400 && |out.sent| <= |sent| + MostBits(total)
      ensures b.Stored? ==> d.lookaheadPos - dictPos <= d.dictSize && |out.sent| <= |sent| + 41 + 8 * total
      ensures useRaw ==> b.Stored?
      ensures ok ==> if d.lookaheadPos - dictPos <= d.dictSize && Expanded(tried, |sent|, total) then b.Stored? else b == tried
    {
      hide BitWriter.Valid, BlockFor, BodyBits, ToBits, Bytes, Pow2, Holds, WellFormed, BlockType, Expand, TokensOk, Pack;
      hide TokensLen;
      b := tried;
      var inDictionary := d.lookaheadPos - dictPos <= d.dictSize;
      var expanded := total != 0 && out.pos - savedPos + 1 >= total;
      if ok {
        out.PosIs();
        ExpandedIs(tried, |sent|, savedPos, savedBitsIn, out.pos, out.bitsIn, total);
      }
      if (useRaw || expanded) && inDictionary {
        GoBack(savedPos, savedBitBuf, savedBitsIn, sent, saved);
        b := SendRaw(dictPos, total, ts, prefix);
      } else if !ok {
        GoBack(savedPos, savedBitBuf, savedBitsIn, sent, saved);
        b := SendStatic(ts, prefix);
      }
    }

    /** The fallback: with the fixed codes the block fits. */
    method SendStatic(ghost ts: seq<Token>, ghost prefix: seq<Byte>) returns (ghost b: Block)
      requires Shape() && Intact() && |out.sent| <= 24 && Closed(ts) && TokensOk(ts, |prefix|)
      modifies maker.TableArrays()
      modifies out`pos, out`bitBuffer, out`bitsIn, out`sent, out`pushed, out.buf
      ensures Sent(b, ts, prefix, old(out.sent)) && b == Fixed(Items(ts)) && |out.sent| < 8 * 85180 - 500
      ensures |out.sent| <= |old(out.sent)| + FormBits(true, TokensLen(ts))
    {
      hide Items, TokensLen, BitWriter.Valid, BlockFor, BodyBits, ToBits, Closed;
      var ok;
      ok, b := CompressStatic(ts, prefix);
      ForIsWellFormed(b, ts, prefix);
    }

    method SendRaw(dictPos: nat, total: nat, ghost ts: seq<Token>, ghost prefix: seq<Byte>) returns (ghost b: Block)
      requires Shape() && d.Valid() && Intact() && |out.sent| <= 24 && d.lookaheadPos - dictPos <= d.dictSize
      requires dictPos + total <= d.lookaheadPos && prefix == d.stream[..dictPos]
      requires TokensOk(ts, |prefix|) && Expand(ts, prefix) == d.stream[..dictPos + total]
      modifies out`pos, out`bitBuffer, out`bitsIn, out`sent, out`pushed, out.buf
      ensures Sent(b, ts, prefix, old(out.sent)) && b.Stored? && b.data == d.stream[dictPos..dictPos + total]
              && |out.sent| < 8 * 85180 - 500
      ensures |out.sent| <= |old(out.sent)| + 41 + 8 * total
    {
      hide BitWriter.Valid, BlockFor, BodyBits, ToBits, Holds;
      ghost var data := d.stream[dictPos..dictPos + total];
      ghost var pad := PutRaw(dictPos, total);
      b := Stored(pad, data);
      assert prefix + data == d.stream[..dictPos + total];
      StoredFor(pad, data, ts, prefix);
    }
  }

  lemma FourToTwo(s: seq<bool>, a: seq<bool>, b: seq<bool>, c: seq<bool>)
    ensures (s + (a + b)) + c == s + (a + (b + c))
  {
  }

  lemma ForIsWellFormed(b: Block, ts: seq<Token>, prefix: seq<Byte>)
    requires BlockFor(b, ts, prefix)
    ensures WellFormed(b)
    ensures b.Fixed? ==> BlockType(b) == 1
    ensures b.Dynamic? ==> BlockType(b) == 2
  {
    hide HeaderOk;
  }

  lemma FixedEnd()
    ensures Coded(FixedCodes().lit, 256)
  {
    FixedLength(256);
  }

  /** A header takes well under a thousand bytes. */
  lemma HeaderShort(h: Header)
    requires HeaderOk(h)
    ensures h.nLit >= 257 && h.nDist >= 1 && |h.clens| >= 4 && |HeaderBits(h)| <= 14 + 57 + 14 * 320
  {
    hide Decodable;
    ClensLen(h.clens);
    assert h.rle[..|h.rle|] == h.rle;
    Rle.ExpandPrefix(h.rle, |h.rle|);
    ShortCodes(h.clens);
    RleLen(ClenCodes(h), h.rle);
  }

  lemma ShortCodes(clens: seq<nat>)
    requires forall i :: 0 <= i < |clens| ==> clens[i] < 8
    ensures forall s :: 0 <= s < 19 ==> |CodesOf(ClenTable(clens))[s]| <= 7
  {
  }

  lemma {:induction false} ClensLen(clens: seq<nat>)
    ensures |ClensBits(clens)| == 3 * |clens|
  {
    if clens != [] {
      ClensLen(clens[1..]);
    }
  }

  lemma {:induction false} RleLen(codes: seq<seq<bool>>, rle: seq<Rle.RleItem>)
    requires forall s :: 0 <= s < |codes| ==> |codes[s]| <= 7
    ensures |RleBits(codes, rle)| <= 14 * |rle|
  {
    if rle != [] {
      RleLen(codes, rle[1..]);
    }
  }

  lemma SmallPow2()
    ensures Pow2(1) == 2 && Pow2(2) == 4 && Pow2(3) == 8 && Pow2(8) == 256 && Pow2(16) == 65536
  {
    Pow2Values();
  }

  lemma OneByte(b: Byte)
    ensures Bytes([b]) == ToBits(b, 8)
  {
    assert [b][1..] == [];
  }

  lemma TwoBytes(a: Byte, b: Byte)
    ensures Bytes([a, b]) == ToBits(a, 8) + ToBits(b, 8)
  {
    assert [a, b][1..] == [b];
    OneByte(b);
  }

  lemma NoneYet(s: seq<Byte>, i: nat)
    requires i <= |s|
    ensures Bytes(s[i..i]) == []
  {
    assert s[i..i] == [];
  }

  lemma OneMoreByte(sent: seq<bool>, s: seq<Byte>, i: nat, j: nat)
    requires i <= j < |s|
    ensures sent + Bytes(s[i..j + 1]) == (sent + Bytes(s[i..j])) + ToBits(s[j], 8)
  {
    hide Bytes, ToBits;
    var b: Byte := s[j];
    assert s[i..j + 1] == s[i..j] + [b];
    BytesConcat(s[i..j], [b]);
    OneByte(b);
  }

  lemma OneBit(b: bool)
    ensures ToBits(if b then 1 else 0, 1) == [b]
  {
  }

  lemma PadOf(n: nat, pad: nat)
    requires pad == (8 - n % 8) % 8
    ensures pad < 8 && (n + pad) % 8 == 0
  {
  }

  lemma RawSent(s: seq<bool>, a: seq<bool>, b: seq<bool>, c: seq<bool>, d: seq<bool>, e: seq<bool>)
    ensures (((s + a) + b) + c + d) + e == s + (a + (b + ((c + d) + e)))
  {
  }
}
