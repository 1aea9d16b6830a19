/** tdefl_flush_block: the recorded tokens become a block, and the output buffer is handed to the caller. */
module Emitters {
  import opened Bits
  import opened Lz
  import opened Deflate
  import opened TokenBuffers
  import opened BitWriters
  import opened DynamicBlocks
  import opened BlockSenders
  import opened Dictionaries
  import opened StreamFacts
  import opened Restarts
  import opened Adler32
  import StaticBounds

  datatype Flush = NoFlush | SyncFlush | FullFlush | Finish

  /** Whether an empty stored block follows the one that the flush makes. */
  predicate Synced(flush: Flush) { flush.SyncFlush? || flush.FullFlush? }

  /** The most significant byte first. */
  function BigEndianBytes(v: nat): (s: seq<Byte>)
    requires v < WORD
    ensures |s| == 4
  {
    [v / 16777216, v / 65536 % 256, v / 256 % 256, v % 256]
  }

  /** The bytes that a flush takes when there is nothing to flush and the stream is at a byte boundary. */
  function EmptyFlush(raw: bool): nat { if raw then 10 else 6 }

  /** The most bits a stream takes that stands for so many bytes, with so many blocks made by flushes, and so many empty ones. */
  function Allowed(size: nat, flushes: nat, empties: nat): nat { 13 * size + 4700 * flushes + 128 * empties }

  function ZlibHeader(): seq<Byte> { [0x78, 0x01] }

  class Emitter {
    const sender: BlockSender
    const d: Dictionary
    const tokens: TokenBuffer
    const out: BitWriter
    /** TDEFL_WRITE_ZLIB_HEADER, TDEFL_FORCE_ALL_STATIC_BLOCKS, TDEFL_FORCE_ALL_RAW_BLOCKS */
    const zlib: bool
    const forceStatic: bool
    const forceRaw: bool

    var lzCodeBufDictPos: nat
    var blockIndex: nat
    /** What of the output buffer the caller has not got yet. */
    var flushOfs: nat
    var flushRemaining: nat
    /** The output of the current call and the room it has. */
    var callOut: seq<Byte>
    var outRoom: nat

    /** The stream so far, its whole bytes, and those the caller has got. */
    ghost var parts: Parts
    ghost var bytes: seq<Byte>
    ghost var delivered: seq<Byte>
    /** How many blocks a flush has made, and how many of no bytes. */
    ghost var flushes: nat
    ghost var empties: nat
    /** How many blocks, and how many bytes, precede the last full flush. */
    ghost var mark: nat
    ghost var markByte: nat
    /** The tokens of all blocks so far. */
    ghost var tokensSent: seq<Token>

    ghost predicate Shape() {
      && sender.Shape() && d == sender.d && tokens == sender.tokens && out == sender.out && out.buf.Length == OUT_BUF_SIZE
      && d.next != tokens.litCount && d.next != tokens.distCount && d.hash != tokens.litCount && d.hash != tokens.distCount
    }

    /** No table is one of the other arrays, except that the counts are shared with the token buffer. */
    lemma TablesApart()
      requires Shape()
      ensures var ts := sender.maker.TableArrays();
        && this !in ts && tokens !in ts && tokens.codeBuf !in ts && out !in ts && out.buf !in ts && d !in ts && d.dict !in ts
        && tokens.distCount !in ts && tokens.litCount in ts
    {
    }

    /** The tokens stand for the bytes behind the last block, and refer to nothing before the last full flush. */
    ghost predicate TokensSoFar()
      reads this`lzCodeBufDictPos, tokens, tokens.codeBuf, tokens.litCount, tokens.distCount, d`stream, d`reset
    {
      && tokens.Valid() && lzCodeBufDictPos + tokens.totalLzBytes <= |d.stream| && d.reset <= lzCodeBufDictPos
      && TokensOk(tokens.Tokens(), lzCodeBufDictPos) && TokensOk(tokens.Tokens(), lzCodeBufDictPos - d.reset)
      && Expand(tokens.Tokens(), d.stream[..lzCodeBufDictPos]) == d.stream[..lzCodeBufDictPos + tokens.totalLzBytes]
    }

    /** None of these bytes is in the lookahead. */
    ghost predicate TokensMatch()
      reads this`lzCodeBufDictPos, tokens, tokens.codeBuf, tokens.litCount, tokens.distCount, d`stream, d`lookaheadPos, d`reset
    {
      TokensSoFar() && lzCodeBufDictPos + tokens.totalLzBytes <= d.lookaheadPos <= |d.stream|
    }

    /**
      The stream grows by 13 bits at most for each byte it stands for, and by what the codes of a block and the block itself
      take for each flush; blocks that are sent because they are long enough need no allowance.
     */
    ghost predicate Sized()
      reads this`parts, this`lzCodeBufDictPos, this`flushes, this`empties
    {
      |Joined(parts)| <= Allowed(lzCodeBufDictPos, flushes, empties)
    }

    /** No flush has made a block. */
    twostate predicate NoFlushes()
      reads this
    {
      && flushes == old(flushes) && empties == old(empties) && old(lzCodeBufDictPos) <= lzCodeBufDictPos
      && mark == old(mark) && markByte == old(markByte)
    }

    twostate predicate Untouched()
      reads this
    {
      && parts == old(parts) && blockIndex == old(blockIndex) && lzCodeBufDictPos == old(lzCodeBufDictPos)
      && flushRemaining == old(flushRemaining) && callOut == old(callOut)
    }

    /** The blocks from the last full flush on can be decoded without those before it. */
    ghost predicate Restartable()
      reads this`parts, this`lzCodeBufDictPos, this`mark, this`markByte, d`stream, d`reset
    {
      && lzCodeBufDictPos <= |d.stream| && Restarted(parts.blocks, mark, d.reset, d.stream[..lzCodeBufDictPos])
      && StartsAt(parts.blocks, parts.hdr, mark, markByte) && (parts.ended ==> mark < |parts.blocks|)
    }

    /** The stream so far decodes to the bytes before those of the tokens. */
    ghost predicate StreamOk()
      reads this`parts, this`blockIndex, this`lzCodeBufDictPos, this`flushes, this`empties, this`mark, this`markByte
      reads d`stream, d`reset
    {
      && Restartable() && AllAsked(parts.blocks, forceStatic, forceRaw)
      && Sized() && lzCodeBufDictPos <= |d.stream| && (blockIndex == 0 ==> parts == NoParts())
      && parts.hdr == (if zlib && blockIndex > 0 then Bytes(ZlibHeader()) else [])
      && PartsOk(parts, d.stream[..lzCodeBufDictPos])
    }

    /** What has been written, and the bits that wait for the next block. */
    ghost predicate BufferOk()
      reads this`parts, this`bytes, this`delivered, this`flushOfs, this`flushRemaining, this`callOut, this`outRoom
      reads out, out.buf
    {
      && out.bitsIn < 8 && out.bitBuffer < Pow2(out.bitsIn) && out.buf.Length == OUT_BUF_SIZE && |Joined(parts)| % 8 == out.bitsIn
      && flushOfs + flushRemaining <= OUT_BUF_SIZE && |callOut| <= outRoom
      && bytes == delivered + out.buf[flushOfs..flushOfs + flushRemaining]
      && Joined(parts) == Bytes(bytes) + ToBits(out.bitBuffer, out.bitsIn)
    }

    ghost predicate Inv()
      reads this, out, out.buf, tokens, tokens.codeBuf, tokens.litCount, tokens.distCount, d, d.dict
    {
      Shape() && d.Valid() && TokensMatch() && StreamOk() && BufferOk()
    }

    constructor (sender: BlockSender, zlib: bool, forceStatic: bool, forceRaw: bool)
      requires sender.Shape() && sender.out.buf.Length == OUT_BUF_SIZE && sender.d.Valid() && sender.d.stream == []
      requires sender.d.reset == 0 && sender.tokens.Valid() && sender.tokens.Tokens() == []
      requires sender.out.bitsIn == 0 && sender.out.bitBuffer == 0
      requires sender.d.next != sender.tokens.litCount && sender.d.next != sender.tokens.distCount
      requires sender.d.hash != sender.tokens.litCount && sender.d.hash != sender.tokens.distCount
      ensures Inv() && this.sender == sender && this.zlib == zlib && this.forceStatic == forceStatic && this.forceRaw == forceRaw
      ensures !parts.ended && delivered == [] && flushRemaining == 0 && lzCodeBufDictPos == 0 && flushes == empties == 0
      ensures tokensSent == [] && mark == markByte == 0
    {
      hide TokenBuffer.Valid, BlockSender.Shape, Dictionary.Valid, SoFar, Joined, Allowed;
      this.sender, d, tokens, out := sender, sender.d, sender.tokens, sender.out;
      this.zlib, this.forceStatic, this.forceRaw := zlib, forceStatic, forceRaw;
      lzCodeBufDictPos, blockIndex, flushOfs, flushRemaining, callOut, outRoom := 0, 0, 0, 0, [], 0;
      parts, bytes, delivered, flushes, empties, mark, markByte, tokensSent := NoParts(), [], [], 0, 0, 0, 0, [];
      new;
      NoPartsOk();
      StartHere();
      StartsEmpty(sender.d, sender.tokens);
    }

    // ---- one block ----

    /** The tokens are ready to become a block behind prefix. */
    ghost predicate ToSend(ts: seq<Token>, prefix: seq<Byte>)
      reads this`lzCodeBufDictPos, tokens, tokens.codeBuf, tokens.litCount, tokens.distCount, d, d.dict
    {
      && d.Valid() && sender.tokens == tokens && sender.Closed(ts) && TokenCounts(ts, tokens.litCount[..], tokens.distCount[..])
      && lzCodeBufDictPos + tokens.totalLzBytes <= d.lookaheadPos <= |d.stream| && prefix == d.stream[..lzCodeBufDictPos]
      && TokensOk(ts, |prefix|) && Expand(ts, prefix) == d.stream[..lzCodeBufDictPos + tokens.totalLzBytes]
    }

    /** Whether the bytes of the next block are still in the dictionary. */
    ghost predicate InDictionary()
      reads this`lzCodeBufDictPos, d`lookaheadPos, d`dictSize
    {
      d.lookaheadPos - lzCodeBufDictPos <= d.dictSize
    }

    /** Whether a block goes out raw because it is asked for. */
    ghost predicate RawNow()
      reads this`lzCodeBufDictPos, d`lookaheadPos, d`dictSize
    {
      forceRaw && InDictionary()
    }

    /** The form that the next block, for these tokens, is to have. */
    ghost predicate FormNow(b: Block, ts: seq<Token>)
      reads this`lzCodeBufDictPos, this`blockIndex, tokens`totalLzBytes, out`bitsIn, d`lookaheadPos, d`dictSize
    {
      FormOf(b, ts, tokens.totalLzBytes, forceStatic || tokens.totalLzBytes < 48, forceRaw, InDictionary(),
             out.bitsIn + |HeaderDue()| + 1)
    }

    /** The zlib header if it is due, and the bit that says whether the block is the last. */
    method PutFirst(final: bool)
      requires Shape() && out.bitsIn < 8 && out.bitBuffer < Pow2(out.bitsIn)
      modifies out`pos, out`end, out`bitBuffer, out`bitsIn, out`sent, out`pushed, out.buf
      ensures sender.Intact() && |out.sent| <= 24
      ensures out.sent == (ToBits(old(out.bitBuffer), old(out.bitsIn)) + HeaderDue()) + [final]
    {
      hide BitWriter.Valid, ToBits, Bytes, BlockSender.Shape;
      out.Restart();
      sender.PutStart(final, zlib && blockIndex == 0);
    }

    method PutBlock(final: bool, ghost ts: seq<Token>, ghost prefix: seq<Byte>) returns (ghost b: Block)
      requires Shape() && out.bitsIn < 8 && out.bitBuffer < Pow2(out.bitsIn) && ToSend(ts, prefix)
      modifies sender.maker.TableArrays()
      modifies out`pos, out`end, out`bitBuffer, out`bitsIn, out`sent, out`pushed, out.buf
      ensures sender.Intact() && WellFormed(b) && BlockFor(b, ts, prefix)
      ensures out.sent == (ToBits(old(out.bitBuffer), old(out.bitsIn)) + HeaderDue()) + BlockBits(b, final)
      ensures b.Stored? ==> (old(out.bitsIn) + |HeaderDue()| + 3 + |b.pad|) % 8 == 0
      ensures |out.sent| < 8 * 85180 - 400 && |out.sent| <= old(out.bitsIn) + 17 + MostBits(tokens.totalLzBytes)
      ensures (old(tokens.totalLzBytes) == 0 ==> EmptyBlock(b, old(RawNow()))) && old(FormNow(b, ts))
    {
      hide FormOf;
      hide BitWriter.Valid, BlockFor, BodyBits, ToBits, Bytes, Holds, WellFormed, TokensOk, Expand, Pack, TokenCounts;
      hide BlockMaker.Shape, BlockType, BlockSender.Sent, Dictionary.Valid, BlockSender.Shape, BlockBits, BlockSender.Closed;
      hide ToSend;
      hide MostBits, EmptyBlock, Shape, BlockMaker.TableArrays;
      SenderParts();
      TablesApart();
      sender.Apart();
      sender.DictionaryApart();
      HeaderShort();
      ghost var before := ToBits(out.bitBuffer, out.bitsIn) + HeaderDue();
      PutFirst(final);
      Sendable(ts, prefix);
      b := sender.SendBody(forceStatic, forceRaw, lzCodeBufDictPos, tokens.totalLzBytes, ts, prefix);
      SentIs(b, ts, prefix, before, final);
    }

    lemma SenderParts()
      requires Shape()
      ensures sender.Shape() && d == sender.d && tokens == sender.tokens && out == sender.out && out.buf.Length == OUT_BUF_SIZE
    {
    }

    lemma Sendable(ts: seq<Token>, prefix: seq<Byte>)
      requires Shape() && ToSend(ts, prefix)
      ensures sender.Shape() && d == sender.d && d.Valid() && sender.Closed(ts)
      ensures TokenCounts(ts, sender.maker.writer.lit.count[..], sender.maker.writer.dist.count[..])
      ensures lzCodeBufDictPos + tokens.totalLzBytes <= d.lookaheadPos <= |d.stream| && prefix == d.stream[..lzCodeBufDictPos]
      ensures TokensOk(ts, |prefix|) && Expand(ts, prefix) == d.stream[..lzCodeBufDictPos + tokens.totalLzBytes]
    {
      hide TokensOk, Expand, TokenCounts, Dictionary.Valid, BlockSender.Closed;
    }

    lemma SentIs(b: Block, ts: seq<Token>, prefix: seq<Byte>, before: seq<bool>, final: bool)
      requires sender.Sent(b, ts, prefix, before + [final]) && out == sender.out
      ensures sender.Intact() && WellFormed(b) && BlockFor(b, ts, prefix) && out.sent == before + BlockBits(b, final)
      ensures b.Stored? ==> (|before| + 3 + |b.pad|) % 8 == 0
    {
      hide BitWriter.Valid, BlockFor, BodyBits, WellFormed, BlockType;
      FinalAndBody(before, b, final);
    }

    ghost function HeaderDue(): seq<bool>
      reads this`blockIndex
    {
      if zlib && blockIndex == 0 then Bytes(ZlibHeader()) else []
    }

    lemma HeaderShort()
      ensures |HeaderDue()| <= 16
    {
    }

    /** The end of the stream: padding to a byte, and the checksum. */
    method PutEnd(adler: nat) returns (ghost pad: seq<bool>)
      requires out.Valid() && adler < WORD
      modifies out`pos, out`bitBuffer, out`bitsIn, out`sent, out`pushed, out.buf
      ensures out.Valid() && |pad| < 8 && out.bitsIn == 0
      ensures out.sent == old(out.sent) + (pad + Bytes(if zlib then BigEndianBytes(adler) else []))
    {
      hide BitWriter.Valid, Bytes, ToBits;
      SmallPow2();
      pad := out.Align();
      ghost var aligned := out.sent;
      if zlib {
        var a := adler;
        ghost var s := BigEndianBytes(adler);
        NoBytes();
        for i := 0 to 4
          invariant out.Valid() && out.sent == aligned + Bytes(s[..i]) && out.bitsIn == 0 && s == BigEndianBytes(adler)
          invariant a < WORD && a == Shifted(adler, i)
        {
          ByteShift(adler, i);
          OneMore(s, i);
          out.PutBits(a / 16777216, 8);
          Associate(aligned, Bytes(s[..i]), ToBits(s[i], 8));
          a := a * 256 % WORD;
          AlignedStill(out, aligned, s, i + 1);
        }
        assert s[..4] == s;
      } else {
        NoBytes();
      }
      Associate(old(out.sent), pad, Bytes(if zlib then BigEndianBytes(adler) else []));
    }

    /** An empty stored block, after which the output ends at a byte boundary. */
    method PutSync() returns (ghost pad: seq<bool>)
      requires out.Valid()
      modifies out`pos, out`bitBuffer, out`bitsIn, out`sent, out`pushed, out.buf
      ensures out.Valid() && |pad| < 8 && out.bitsIn == 0 && (|old(out.sent)| + 3 + |pad|) % 8 == 0
      ensures out.sent == old(out.sent) + BlockBits(Stored(pad, []), false) && |out.sent| <= |old(out.sent)| + 43
    {
      hide BitWriter.Valid, ToBits, Bytes, Pow2, BlockBits;
      SmallPow2();
      out.PutBits(0, 3);
      pad := out.Align();
      PadOf(|old(out.sent)| + 3, |pad|);
      PutNoBytes();
      SyncBits(old(out.sent), pad);
    }

    /** LEN and NLEN of no bytes at all. */
    method PutNoBytes()
      requires out.Valid() && |out.sent| % 8 == 0
      modifies out`pos, out`bitBuffer, out`bitsIn, out`sent, out`pushed, out.buf
      ensures out.Valid() && out.bitsIn == 0 && out.sent == old(out.sent) + ToBits(0, 16) + ToBits(65535, 16)
    {
      hide BitWriter.Valid, ToBits, Pow2;
      SmallPow2();
      out.PutBits(0, 16);
      out.PutBits(65535, 16);
      StillAligned(out);
    }

    // ---- tdefl_flush_block ----

    /** What follows the block: the end of the stream, or an empty stored block that ends at a byte boundary. */
    method PutTrailer(flush: Flush, adler: nat) returns (ghost pad: seq<bool>)
      requires out.Valid() && adler < WORD
      modifies out`pos, out`bitBuffer, out`bitsIn, out`sent, out`pushed, out.buf
      ensures out.Valid() && |pad| < 8 && out.sent == old(out.sent) + Trailer(flush, adler, pad)
      ensures |out.sent| <= |old(out.sent)| + (if flush == NoFlush then 0 else 43) && (flush != NoFlush ==> out.bitsIn == 0)
      ensures Synced(flush) ==> (|old(out.sent)| + 3 + |pad|) % 8 == 0
    {
      hide BitWriter.Valid, BlockBits, Bytes;
      pad := [];
      match flush
      case NoFlush =>
      case Finish => pad := PutEnd(adler);
      case SyncFlush | FullFlush => pad := PutSync();
    }

    ghost function Trailer(flush: Flush, adler: nat, pad: seq<bool>): seq<bool>
      requires adler < WORD && |pad| < 8
    {
      match flush
      case NoFlush => []
      case Finish => pad + Bytes(EndBytes(adler))
      case _ => BlockBits(Stored(pad, []), false)
    }

    ghost function EndBytes(adler: nat): seq<Byte>
      requires adler < WORD
    {
      if zlib then BigEndianBytes(adler) else []
    }

    /** The block and what follows it go to the output buffer, behind the bits that waited. */
    method SendBlock(flush: Flush, adler: nat, ghost ts: seq<Token>, ghost prefix: seq<Byte>)
      returns (ghost b: Block, ghost pad: seq<bool>)
      requires Shape() && out.bitsIn < 8 && out.bitBuffer < Pow2(out.bitsIn) && ToSend(ts, prefix) && adler < WORD
      modifies sender.maker.TableArrays()
      modifies out`pos, out`end, out`bitBuffer, out`bitsIn, out`sent, out`pushed, out.buf
      ensures out.Valid() && out.end == 85180 && WellFormed(b) && BlockFor(b, ts, prefix) && |pad| < 8
      ensures out.sent == (ToBits(old(out.bitBuffer), old(out.bitsIn)) + HeaderDue()) + BlockBits(b, flush == Finish)
                          + Trailer(flush, adler, pad)
      ensures b.Stored? ==> (old(out.bitsIn) + |HeaderDue()| + 3 + |b.pad|) % 8 == 0
      ensures Synced(flush) ==> (|out.sent| - |Trailer(flush, adler, pad)| + 3 + |pad|) % 8 == 0
      ensures flush != NoFlush ==> out.bitsIn == 0
      ensures out.pos < out.end && |out.sent| <= old(out.bitsIn) + 60 + MostBits(tokens.totalLzBytes)
      ensures (old(tokens.totalLzBytes) == 0 ==> EmptyBlock(b, old(RawNow()))) && old(FormNow(b, ts))
    {
      hide FormOf;
      hide EmptyBlock, MostBits, BitWriter.Valid, BlockFor, ToBits, Bytes, WellFormed, TokensOk, Expand, Pack, TokenCounts;
      hide BlockMaker.Shape, BlockSender.Sent, Dictionary.Valid, BlockSender.Shape, BlockBits, ToSend, Trailer;
      b := PutBlock(flush == Finish, ts, prefix);
      out.PosIs();
      pad := PutTrailer(flush, adler);
      out.PosIs();
    }

    /** The stream with a block and what follows it. */
    ghost function Grown(flush: Flush, adler: nat, b: Block, pad: seq<bool>): Parts
      requires WellFormed(b) && adler < WORD && |pad| < 8
      reads this`parts, this`blockIndex
    {
      match flush
      case NoFlush => AddBlock(parts, HeaderDue(), b, false)
      case Finish => AddLast(parts, HeaderDue(), b, pad, EndBytes(adler))
      case _ => AddBlock(AddBlock(parts, HeaderDue(), b, false), [], Stored(pad, []), false)
    }

    lemma GrownOk(flush: Flush, adler: nat, b: Block, pad: seq<bool>, decoded: seq<Byte>)
      requires PartsOk(parts, decoded) && !parts.ended && (blockIndex == 0 ==> parts == NoParts()) && adler < WORD && |pad| < 8
      requires WellFormed(b) && BlockOk(b, |decoded|)
      requires b.Stored? ==> (|Joined(parts)| + |HeaderDue()| + 3 + |b.pad|) % 8 == 0
      requires var n := |((Joined(parts) + HeaderDue()) + BlockBits(b, flush == Finish)) + Trailer(flush, adler, pad)|;
        && (flush == Finish ==> n % 8 == 0)
        && (Synced(flush) ==> (n - |Trailer(flush, adler, pad)| + 3 + |pad|) % 8 == 0)
      ensures var p := Grown(flush, adler, b, pad);
        && PartsOk(p, BlockOut(b, decoded)) && p.hdr == parts.hdr + HeaderDue() && p.ended == (flush == Finish)
        && (p.ended ==> p.endBytes == EndBytes(adler))
        && Joined(p) == ((Joined(parts) + HeaderDue()) + BlockBits(b, flush == Finish)) + Trailer(flush, adler, pad)
    {
      hide BlockOk, WellFormed, BlockBits, BlockOut, PartsOk, Joined;
      if flush == Finish {
        LastAdded(parts, decoded, HeaderDue(), b, pad, EndBytes(adler));
      } else {
        BlockAdded(parts, decoded, HeaderDue(), b);
        if flush != NoFlush {
          SyncAdded(AddBlock(parts, HeaderDue(), b, false), BlockOut(b, decoded), pad);
        }
      }
    }

    /** The bits that are whole bytes join the bytes of the stream. */
    ghost method Gather(had: seq<bool>, before: seq<bool>, added: seq<bool>)
      requires out.Valid() && out.end == 85180 && Joined(parts) == had + added && out.sent == before + added && out.pos < out.end
      requires had == Bytes(bytes) + before
      modifies this`bytes
      ensures bytes == old(bytes) + out.buf[..out.pos]
      ensures Joined(parts) == Bytes(bytes) + ToBits(out.bitBuffer, out.bitsIn)
    {
      hide Bytes, ToBits;
      GatherBits(had, before, added, bytes, out.buf[..out.pos], ToBits(out.bitBuffer, out.bitsIn));
      bytes := bytes + out.buf[..out.pos];
    }

    /** The output goes to the caller as far as there is room. */
    method HandOver()
      requires out.Valid() && out.buf.Length == OUT_BUF_SIZE && |callOut| <= outRoom && flushRemaining == 0
      requires bytes == delivered + out.buf[..out.pos] && |Joined(parts)| % 8 == out.bitsIn
      requires Joined(parts) == Bytes(bytes) + ToBits(out.bitBuffer, out.bitsIn)
      modifies this`flushOfs, this`flushRemaining, this`callOut, this`delivered
      ensures BufferOk() && (flushRemaining > 0 ==> |callOut| == outRoom)
      ensures old(callOut) <= callOut && delivered == old(delivered) + callOut[|old(callOut)|..]
    {
      hide BitWriter.Valid, Joined, Bytes, ToBits, Pow2;
      out.Waiting();
      out.PosBound();
      flushOfs := 0;
      var n := if out.pos < outRoom - |callOut| then out.pos else outRoom - |callOut|;
      callOut := callOut + out.buf[..n];
      delivered := delivered + out.buf[..n];
      assert out.buf[..out.pos] == out.buf[..n] + out.buf[n..out.pos];
      if n < out.pos {
        flushOfs, flushRemaining := n, out.pos - n;
      }
    }

    method CloseTokens()
      requires Shape() && d.Valid() && TokensMatch()
      modifies tokens`codePos, tokens.codeBuf
      ensures ToSend(tokens.Tokens(), d.stream[..lzCodeBufDictPos])
    {
      hide TokensOk, Expand, Pack, TokenCounts, BlockMaker.Shape, Dictionary.Valid, BlockSender.Shape, Data, Flags, ToBits;
      sender.Apart();
      tokens.Close();
      PackLen(tokens.Tokens());
    }

    method SendRecorded(flush: Flush, adler: nat, ghost prefix: seq<Byte>) returns (ghost b: Block, ghost pad: seq<bool>)
      requires Shape() && d.Valid() && TokensMatch() && out.bitsIn < 8 && out.bitBuffer < Pow2(out.bitsIn) && adler < WORD
      requires prefix == d.stream[..lzCodeBufDictPos]
      modifies tokens`codePos, tokens.codeBuf, sender.maker.TableArrays(), out, out.buf
      ensures out.Valid() && out.end == 85180 && WellFormed(b) && BlockOk(b, |prefix|) && |pad| < 8
      ensures BlockOut(b, prefix) == old(d.stream[..lzCodeBufDictPos + tokens.totalLzBytes])
      ensures out.sent == (ToBits(old(out.bitBuffer), old(out.bitsIn)) + HeaderDue()) + BlockBits(b, flush == Finish)
                          + Trailer(flush, adler, pad)
      ensures b.Stored? ==> (old(out.bitsIn) + |HeaderDue()| + 3 + |b.pad|) % 8 == 0
      ensures Synced(flush) ==> (|out.sent| - |Trailer(flush, adler, pad)| + 3 + |pad|) % 8 == 0
      ensures flush != NoFlush ==> out.bitsIn == 0
      ensures out.pos < out.end && |out.sent| <= old(out.bitsIn + 60 + MostBits(tokens.totalLzBytes))
      ensures old(tokens.totalLzBytes) == 0 ==> EmptyBlock(b, old(RawNow()))
      ensures old(FormNow(b, tokens.Tokens())) && d.reset <= |prefix| && BlockOk(b, |prefix| - d.reset)
    {
      hide EmptyBlock, MostBits, BitWriter.Valid, Bytes, ToBits, WellFormed, TokensOk, Expand, BlockBits, Pack, TokenCounts;
      hide BlockOk, BlockOut, FormOf, TokenBuffer.Valid;
      hide BlockMaker.Shape, Dictionary.Valid, BlockMaker.TableArrays, BlockSender.Shape, Trailer, Pow2, ToSend, BlockFor;
      sender.Apart();
      TablesApart();
      ghost var ts := tokens.Tokens();
      CloseTokens();
      b, pad := SendBlock(flush, adler, ts, prefix);
      ForDecodes(b, ts, prefix);
      Nearer(b, ts, prefix, old(tokens.totalLzBytes), old(InDictionary()), old(out.bitsIn + |HeaderDue()| + 1));
    }

    /** The block refers to nothing that the tokens do not refer to. */
    lemma Nearer(b: Block, ts: seq<Token>, prefix: seq<Byte>, total: nat, inDict: bool, n: nat)
      requires FormOf(b, ts, total, forceStatic || total < 48, forceRaw, inDict, n) && BlockOk(b, |prefix|)
      requires d.reset <= |prefix| && TokensOk(ts, |prefix| - d.reset)
      ensures BlockOk(b, |prefix| - d.reset)
    {
      hide BlockOk, TokensOk, FormOf;
      FormAsked(b, ts, total, forceStatic || total < 48, forceRaw, inDict, n);
      BlockNearer(b, ts, |prefix|, |prefix| - d.reset);
    }

    /** What has been sent becomes part of the stream. */
    ghost method Append(flush: Flush, adler: nat, b: Block, pad: seq<bool>, prefix: seq<Byte>, before: seq<bool>)
      requires PartsOk(parts, prefix) && !parts.ended && (blockIndex == 0 ==> parts == NoParts()) && adler < WORD && |pad| < 8
      requires Joined(parts) == Bytes(bytes) + before && |Joined(parts)| % 8 == |before| && WellFormed(b) && BlockOk(b, |prefix|)
      requires out.Valid() && out.end == 85180 && out.pos < out.end
      requires out.sent == (before + HeaderDue()) + BlockBits(b, flush == Finish) + Trailer(flush, adler, pad)
      requires b.Stored? ==> (|before| + |HeaderDue()| + 3 + |b.pad|) % 8 == 0
      requires Synced(flush) ==> (|out.sent| - |Trailer(flush, adler, pad)| + 3 + |pad|) % 8 == 0
      requires flush != NoFlush ==> out.bitsIn == 0
      modifies this`parts, this`bytes
      ensures PartsOk(parts, BlockOut(b, prefix)) && parts.hdr == old(parts.hdr + HeaderDue())
      ensures parts.ended == (flush == Finish) && (parts.ended ==> parts.endBytes == EndBytes(adler))
      ensures bytes == old(bytes) + out.buf[..out.pos] && |Joined(parts)| % 8 == out.bitsIn
      ensures Joined(parts) == Bytes(bytes) + ToBits(out.bitBuffer, out.bitsIn)
      ensures |Joined(parts)| == old(|Joined(parts)|) + |out.sent| - |before|
      ensures Follows(old(parts.blocks), parts.blocks, b, Synced(flush))
    {
      hide BitWriter.Valid, Bytes, ToBits, WellFormed, BlockBits, BlockOk, BlockOut, Trailer, PartsOk, Joined, HeaderDue;
      hide EndBytes;
      ghost var had := Joined(parts);
      Regroup(had, before, HeaderDue(), BlockBits(b, flush == Finish), Trailer(flush, adler, pad));
      out.PosIs();
      Lengths(|had|, |before|, |((had + HeaderDue()) + BlockBits(b, flush == Finish)) + Trailer(flush, adler, pad)|, |out.sent|);
      GrownOk(flush, adler, b, pad, prefix);
      ghost var due := HeaderDue();
      parts := Grown(flush, adler, b, pad);
      Gather(had, before, (due + BlockBits(b, flush == Finish)) + Trailer(flush, adler, pad));
    }

    lemma EmptySent(flush: Flush, adler: nat, b: Block, pad: seq<bool>, raw: bool)
      requires EmptyBlock(b, raw) && WellFormed(b) && |pad| < 8 && adler < WORD && blockIndex > 0
      requires (b.Stored? ==> (|HeaderDue()| + 3 + |b.pad|) % 8 == 0) && Synced(flush)
      requires (|HeaderDue()| + |BlockBits(b, false)| + 3 + |pad|) % 8 == 0
      ensures |HeaderDue()| + |BlockBits(b, false)| + |Trailer(flush, adler, pad)| == 8 * EmptyFlush(raw)
    {
      hide BlockBits, WellFormed, EmptyBlock;
      EmptyFlushBits(b, pad, raw);
    }

    /** The block of the recorded tokens goes to the output buffer, and becomes part of the stream. */
    method SendTokens(flush: Flush, adler: nat, ghost prefix: seq<Byte>) returns (ghost b: Block)
      requires Inv() && flushRemaining == 0 && !parts.ended && adler < WORD && prefix == d.stream[..lzCodeBufDictPos]
      modifies this`parts, this`bytes, tokens`codePos, tokens.codeBuf, sender.maker.TableArrays(), out, out.buf
      ensures PartsOk(parts, old(d.stream[..lzCodeBufDictPos + tokens.totalLzBytes])) && parts.hdr == old(parts.hdr + HeaderDue())
      ensures parts.ended == (flush == Finish) && (parts.ended ==> parts.endBytes == EndBytes(adler))
      ensures out.Valid() && |Joined(parts)| % 8 == out.bitsIn && (flush != NoFlush ==> out.bitsIn == 0)
      ensures bytes == delivered + out.buf[..out.pos] && out.pos < out.end
      ensures Joined(parts) == Bytes(bytes) + ToBits(out.bitBuffer, out.bitsIn)
      ensures |Joined(parts)| <= old(|Joined(parts)| + 60 + MostBits(tokens.totalLzBytes))
      ensures old(tokens.totalLzBytes == 0 && out.bitsIn == 0 && blockIndex > 0) && Synced(flush) ==>
        |Joined(parts)| == old(|Joined(parts)|) + 8 * EmptyFlush(old(RawNow()))
      ensures Follows(old(parts.blocks), parts.blocks, b, Synced(flush)) && old(FormNow(b, tokens.Tokens()))
      ensures d.reset <= |prefix| && BlockOk(b, |prefix| - d.reset) && BlockOk(b, |prefix|)
      ensures BlockOut(b, prefix) == old(d.stream[..lzCodeBufDictPos + tokens.totalLzBytes])
    {
      hide RawNow, EmptyBlock, EmptyFlush, MostBits, BitWriter.Valid, Bytes, ToBits, WellFormed, BlockBits, BlockOk, BlockOut;
      hide TokensMatch, Trailer, FormOf, Restarted, StartsAt, AllAsked, Follows, InDictionary;
      hide BlockMaker.Shape, Dictionary.Valid, PartsOk, Joined, BlockMaker.TableArrays, BlockSender.Shape, Shape;
      SenderParts();
      sender.Apart();
      TablesApart();
      ghost var before := ToBits(out.bitBuffer, out.bitsIn);
      ghost var pad;
      b, pad := SendRecorded(flush, adler, prefix);
      if old(tokens.totalLzBytes == 0 && out.bitsIn == 0 && blockIndex > 0) && Synced(flush) {
        EmptySent(flush, adler, b, pad, old(RawNow()));
      }
      Append(flush, adler, b, pad, prefix, before);
    }

    /** And so are the properties of the stream as a whole. */
    method SendInForm(flush: Flush, adler: nat) returns (ghost b: Block)
      requires Inv() && flushRemaining == 0 && !parts.ended && adler < WORD && (forceRaw ==> InDictionary())
      modifies this`parts, this`bytes, tokens`codePos, tokens.codeBuf, sender.maker.TableArrays(), out, out.buf
      ensures PartsOk(parts, old(d.stream[..lzCodeBufDictPos + tokens.totalLzBytes])) && parts.hdr == old(parts.hdr + HeaderDue())
      ensures parts.ended == (flush == Finish) && (parts.ended ==> parts.endBytes == EndBytes(adler))
      ensures out.Valid() && |Joined(parts)| % 8 == out.bitsIn && (flush != NoFlush ==> out.bitsIn == 0)
      ensures bytes == delivered + out.buf[..out.pos] && out.pos < out.end
      ensures Joined(parts) == Bytes(bytes) + ToBits(out.bitBuffer, out.bitsIn)
      ensures |Joined(parts)| <= old(|Joined(parts)| + 60 + MostBits(tokens.totalLzBytes))
      ensures old(tokens.totalLzBytes == 0 && out.bitsIn == 0 && blockIndex > 0) && Synced(flush) ==>
        |Joined(parts)| == old(|Joined(parts)|) + 8 * EmptyFlush(old(RawNow()))
      ensures Follows(old(parts.blocks), parts.blocks, b, Synced(flush)) && old(FormNow(b, tokens.Tokens()))
      ensures Restarted(parts.blocks, mark, d.reset, old(d.stream[..lzCodeBufDictPos + tokens.totalLzBytes]))
      ensures StartsAt(parts.blocks, parts.hdr, mark, markByte) && AllAsked(parts.blocks, forceStatic, forceRaw)
      ensures mark < |parts.blocks|
    {
      hide RawNow, EmptyBlock, EmptyFlush, MostBits, BitWriter.Valid, Bytes, ToBits, WellFormed, BlockBits, BlockOk, BlockOut;
      hide TokensMatch, FormOf, Restarted, StartsAt, AllAsked, Follows, BufferOk;
      hide BlockMaker.Shape, Dictionary.Valid, PartsOk, Joined, BlockMaker.TableArrays, BlockSender.Shape, Shape;
      SenderParts();
      TablesApart();
      FirstIsDue();
      ghost var blocks0, hdr0, due := parts.blocks, parts.hdr, HeaderDue();
      ghost var prefix := d.stream[..lzCodeBufDictPos];
      b := SendTokens(flush, adler, prefix);
      StillRestartable(blocks0, hdr0, due, b, Synced(flush), prefix);
      StillAsked(blocks0, b, Synced(flush), old(tokens.Tokens()), old(tokens.totalLzBytes), old(InDictionary()),
                 old(out.bitsIn) + |due| + 1);
    }

    lemma FirstIsDue()
      requires blockIndex == 0 ==> parts == NoParts()
      ensures HeaderDue() == [] || parts.blocks == []
    {
    }

    lemma StillRestartable(blocks0: seq<Block>, hdr0: seq<bool>, due: seq<bool>, b: Block, synced: bool, prefix: seq<Byte>)
      requires Restarted(blocks0, mark, d.reset, prefix) && StartsAt(blocks0, hdr0, mark, markByte)
      requires d.reset <= |prefix| && BlockOk(b, |prefix| - d.reset) && BlockOk(b, |prefix|)
      requires Follows(blocks0, parts.blocks, b, synced) && PartsOk(parts, BlockOut(b, prefix)) && parts.hdr == hdr0 + due
      requires due == [] || blocks0 == []
      ensures Restarted(parts.blocks, mark, d.reset, BlockOut(b, prefix)) && StartsAt(parts.blocks, parts.hdr, mark, markByte)
      ensures mark < |parts.blocks|
    {
      hide Restarted, StartsAt, BlockOk, BlockOut, Follows, PartsOk, WellFormed, AllWellFormed;
      BlocksWellFormed(parts, BlockOut(b, prefix));
      MarkBelow(blocks0, parts.blocks, b, synced, mark, hdr0, markByte);
      RestartedFollows(blocks0, parts.blocks, b, synced, mark, d.reset, prefix);
      StartFollows(blocks0, parts.blocks, b, synced, hdr0, due, mark, markByte);
    }

    lemma StillAsked(blocks0: seq<Block>, b: Block, synced: bool, ts: seq<Token>, total: nat, inDict: bool, n: nat)
      requires AllAsked(blocks0, forceStatic, forceRaw) && Follows(blocks0, parts.blocks, b, synced) && (forceRaw ==> inDict)
      requires FormOf(b, ts, total, forceStatic || total < 48, forceRaw, inDict, n)
      ensures AllAsked(parts.blocks, forceStatic, forceRaw)
    {
      hide FormOf;
      FormAsked(b, ts, total, forceStatic || total < 48, forceRaw, inDict, n);
      forall i | 0 <= i < |parts.blocks|
        ensures (forceStatic ==> !parts.blocks[i].Dynamic?) && (forceRaw ==> parts.blocks[i].Stored?)
      {
        if i <= |blocks0| {
          assert parts.blocks[i] == (blocks0 + [b])[i];
        }
      }
    }

    /**
      tdefl_flush_block. The stream grows by a block that stands for the recorded tokens, and no byte of it is lost: at the end
      m_pOutput_buf < m_pOutput_buf_end, which the source asserts there.
     */
    method FlushBlock(flush: Flush, adler: nat) returns (ghost b: Block)
      requires Inv() && flushRemaining == 0 && !parts.ended && adler < WORD && (forceRaw ==> InDictionary())
      requires flush == NoFlush ==> tokens.totalLzBytes > 31 * 1024
      modifies this`parts, this`bytes, this`blockIndex, this`flushes, this`empties, this`tokensSent
      modifies this`lzCodeBufDictPos, this`flushOfs, this`flushRemaining, this`callOut, this`delivered
      modifies tokens, tokens.codeBuf, tokens.distCount, sender.maker.TableArrays(), out, out.buf
      ensures Inv() && tokens.Tokens() == [] && tokens.codePos == 1 && tokens.totalLzBytes == 0 && blockIndex == old(blockIndex) + 1
      ensures lzCodeBufDictPos == old(lzCodeBufDictPos + tokens.totalLzBytes)
      ensures parts.ended == (flush == Finish) && (parts.ended ==> parts.endBytes == EndBytes(adler))
      ensures flush != NoFlush ==> |Joined(parts)| % 8 == 0
      ensures flushRemaining > 0 ==> |callOut| == outRoom
      ensures old(callOut) <= callOut && delivered == old(delivered) + callOut[|old(callOut)|..]
      ensures out.pos < out.end
      ensures empties == old(empties) + (if old(tokens.totalLzBytes) == 0 then 1 else 0)
      ensures flushes == old(flushes) + (if flush != NoFlush && old(tokens.totalLzBytes) > 0 then 1 else 0)
      ensures old(tokens.totalLzBytes == 0 && out.bitsIn == 0 && blockIndex > 0) && Synced(flush) ==>
        |Joined(parts)| == old(|Joined(parts)|) + 8 * EmptyFlush(old(RawNow()))
      ensures Follows(old(parts.blocks), parts.blocks, b, Synced(flush)) && old(FormNow(b, tokens.Tokens()))
      ensures tokensSent == old(tokensSent + tokens.Tokens())
    {
      hide FormOf, Restarted, StartsAt, AllAsked, Follows, Shape, InDictionary, StreamOk, TokensMatch;
      hide EmptyFlush, RawNow, TokensOk, Expand, TokenBuffer.Valid, MostBits, Allowed, BufferOk, BitWriter.Valid;
      hide BlockMaker.Shape, Dictionary.Valid, PartsOk, Joined, BlockMaker.TableArrays, BlockSender.Shape;
      SenderParts();
      sender.Apart();
      TablesApart();
      TokensFit();
      HeaderOnce();
      ghost var ts := tokens.Tokens();
      b := SendAll(flush, adler);
      StartTokens();
      tokensSent := tokensSent + ts;
      StreamMade();
    }

    lemma TokensFit()
      requires TokensMatch()
      ensures tokens.Shape() && lzCodeBufDictPos + tokens.totalLzBytes <= d.lookaheadPos <= |d.stream| && d.reset <= lzCodeBufDictPos
    {
      hide TokensOk, Expand;
      TokenShape(tokens);
    }

    /** The dictionary has been forgotten: the stream can be decoded from here on. */
    ghost method Restart()
      requires lzCodeBufDictPos == |d.stream| == d.reset && blockIndex > 0 && parts.blocks != [] && !parts.ended && Sized()
      requires parts.hdr == (if zlib then Bytes(ZlibHeader()) else []) && PartsOk(parts, d.stream[..lzCodeBufDictPos])
      requires AllAsked(parts.blocks, forceStatic, forceRaw) && |Joined(parts)| % 8 == 0
      modifies this`mark, this`markByte
      ensures StreamOk() && mark == |parts.blocks| && 8 * markByte == |Joined(parts)|
    {
      hide AllAsked, Bytes, Allowed, BlocksOk, BlocksOut, BlocksBits, Aligned, WellFormed, Restarted;
      mark, markByte := |parts.blocks|, |Joined(parts)| / 8;
      NoBytes();
      assert d.stream[..|d.stream|] == d.stream && parts.blocks[..mark] == parts.blocks;
      RestartHere(parts.blocks, d.stream);
    }

    lemma HeaderOnce()
      requires StreamOk()
      ensures parts.hdr + HeaderDue() == if zlib then Bytes(ZlibHeader()) else []
    {
      hide PartsOk, Joined, Restarted, StartsAt, AllAsked, Bytes;
    }

    lemma StreamMade()
      requires lzCodeBufDictPos <= |d.stream| && blockIndex > 0 && parts.hdr == if zlib then Bytes(ZlibHeader()) else []
      requires Sized() && PartsOk(parts, d.stream[..lzCodeBufDictPos]) && AllAsked(parts.blocks, forceStatic, forceRaw)
      requires Restarted(parts.blocks, mark, d.reset, d.stream[..lzCodeBufDictPos])
      requires StartsAt(parts.blocks, parts.hdr, mark, markByte) && mark < |parts.blocks|
      ensures StreamOk()
    {
      hide PartsOk, Joined, Restarted, StartsAt, AllAsked, Bytes, Allowed;
    }

    /** The block is sent and handed over as far as there is room. */
    method SendAll(flush: Flush, adler: nat) returns (ghost b: Block)
      requires Inv() && flushRemaining == 0 && !parts.ended && adler < WORD && (forceRaw ==> InDictionary())
      requires flush == NoFlush ==> tokens.totalLzBytes > 31 * 1024
      modifies this`parts, this`bytes, this`flushes, this`empties
      modifies this`flushOfs, this`flushRemaining, this`callOut, this`delivered
      modifies tokens`codePos, tokens.codeBuf, sender.maker.TableArrays(), out, out.buf
      ensures PartsOk(parts, old(d.stream[..lzCodeBufDictPos + tokens.totalLzBytes])) && parts.hdr == old(parts.hdr + HeaderDue())
      ensures parts.ended == (flush == Finish) && (parts.ended ==> parts.endBytes == EndBytes(adler))
      ensures BufferOk() && |Joined(parts)| <= Allowed(lzCodeBufDictPos + tokens.totalLzBytes, flushes, empties)
      ensures flush != NoFlush ==> |Joined(parts)| % 8 == 0
      ensures flushRemaining > 0 ==> |callOut| == outRoom
      ensures old(callOut) <= callOut && delivered == old(delivered) + callOut[|old(callOut)|..]
      ensures out.pos < out.end
      ensures empties == old(empties) + (if old(tokens.totalLzBytes) == 0 then 1 else 0)
      ensures flushes == old(flushes) + (if flush != NoFlush && old(tokens.totalLzBytes) > 0 then 1 else 0)
      ensures old(tokens.totalLzBytes == 0 && out.bitsIn == 0 && blockIndex > 0) && Synced(flush) ==>
        |Joined(parts)| == old(|Joined(parts)|) + 8 * EmptyFlush(old(RawNow()))
      ensures Follows(old(parts.blocks), parts.blocks, b, Synced(flush)) && old(FormNow(b, tokens.Tokens()))
      ensures Restarted(parts.blocks, mark, d.reset, old(d.stream[..lzCodeBufDictPos + tokens.totalLzBytes]))
      ensures StartsAt(parts.blocks, parts.hdr, mark, markByte) && AllAsked(parts.blocks, forceStatic, forceRaw)
      ensures mark < |parts.blocks|
    {
      hide FormOf, Restarted, StartsAt, AllAsked, Follows, TokensMatch, InDictionary;
      hide EmptyFlush, RawNow, Bytes, ToBits, TokensOk, Expand, Pack, TokenCounts, TokenBuffer.Valid, MostBits, Allowed;
      hide BitWriter.Valid, Pow2;
      hide BlockMaker.Shape, Dictionary.Valid, PartsOk, Joined, BlockMaker.TableArrays, BlockSender.Shape, Shape;
      SenderParts();
      sender.Apart();
      TablesApart();
      b := SendInForm(flush, adler);
      HandOver();
      CountBlock(flush, old(|Joined(parts)|));
    }

    ghost method CountBlock(flush: Flush, before: nat)
      requires before <= Allowed(lzCodeBufDictPos, flushes, empties) && (flush == NoFlush ==> tokens.totalLzBytes > 31 * 1024)
      requires |Joined(parts)| <= before + 60 + MostBits(tokens.totalLzBytes)
      modifies this`flushes, this`empties
      ensures |Joined(parts)| <= Allowed(lzCodeBufDictPos + tokens.totalLzBytes, flushes, empties)
      ensures empties == old(empties) + (if tokens.totalLzBytes == 0 then 1 else 0)
      ensures flushes == old(flushes) + (if flush != NoFlush && tokens.totalLzBytes > 0 then 1 else 0)
    {
      hide Joined;
      if tokens.totalLzBytes == 0 {
        empties := empties + 1;
      } else if flush != NoFlush {
        flushes := flushes + 1;
      }
    }

    /** The next block begins behind the bytes of this one. */
    method StartTokens()
      requires Shape() && tokens.Shape() && lzCodeBufDictPos + tokens.totalLzBytes <= d.lookaheadPos <= |d.stream|
      requires d.reset <= lzCodeBufDictPos
      modifies this`lzCodeBufDictPos, this`blockIndex, tokens, tokens.litCount, tokens.distCount
      ensures TokensMatch() && tokens.Tokens() == [] && tokens.codePos == 1 && tokens.totalLzBytes == 0
              && blockIndex == old(blockIndex) + 1
      ensures lzCodeBufDictPos == old(lzCodeBufDictPos + tokens.totalLzBytes)
    {
      hide TokenBuffer.Valid, BlockSender.Shape, BlockMaker.Shape;
      sender.Apart();
      lzCodeBufDictPos, blockIndex := lzCodeBufDictPos + tokens.totalLzBytes, blockIndex + 1;
      tokens.Reset();
      NoTotal(tokens);
    }

    /** A call of tdefl_compress begins, with this much room for output. */
    method BeginCall(room: nat)
      requires Inv()
      modifies this`callOut, this`outRoom
      ensures Inv() && callOut == [] && outRoom == room
    {
      hide Restarted, StartsAt, AllAsked, BlockMaker.Shape;
      hide TokenBuffer.Valid, BlockSender.Shape, Dictionary.Valid, PartsOk, Joined, TokensOk, Expand, Bytes, ToBits, Pow2;
      callOut, outRoom := [], room;
    }

    /** tdefl_flush_output_buffer: more of what waits in the output buffer. */
    method FlushRest()
      requires BufferOk()
      modifies this`flushOfs, this`flushRemaining, this`callOut, this`delivered
      ensures BufferOk() && old(callOut) <= callOut && delivered == old(delivered) + callOut[|old(callOut)|..]
      ensures (flushRemaining > 0 ==> |callOut| == outRoom) && flushRemaining <= old(flushRemaining)
      ensures |callOut| == |old(callOut)| + old(flushRemaining) - flushRemaining
    {
      hide Joined, Bytes, ToBits, Pow2;
      var n := if outRoom - |callOut| < flushRemaining then outRoom - |callOut| else flushRemaining;
      PartOfRest(delivered, out.buf[..], flushOfs, n, flushRemaining);
      var part := out.buf[flushOfs..flushOfs + n];
      callOut := callOut + part;
      delivered := delivered + part;
      flushOfs, flushRemaining := flushOfs + n, flushRemaining - n;
    }
  }

  lemma BlocksWellFormed(p: Parts, decoded: seq<Byte>)
    requires PartsOk(p, decoded)
    ensures AllWellFormed(p.blocks)
  {
    hide BlocksOk, BlocksOut, BlocksBits, Aligned, Joined, AllWellFormed;
  }

  lemma ForDecodes(b: Block, ts: seq<Token>, prefix: seq<Byte>)
    requires BlockFor(b, ts, prefix)
    ensures TokensOk(ts, |prefix|) && BlockOk(b, |prefix|) && BlockOut(b, prefix) == Expand(ts, prefix)
  {
    hide TokensOk, Expand, BlockOk, BlockOut;
  }

  lemma EmptyFlushBits(b: Block, pad: seq<bool>, raw: bool)
    requires EmptyBlock(b, raw) && WellFormed(b) && |pad| < 8 && (b.Stored? ==> (3 + |b.pad|) % 8 == 0)
    requires (|BlockBits(b, false)| + 3 + |pad|) % 8 == 0
    ensures |BlockBits(b, false)| + |BlockBits(Stored(pad, []), false)| == 8 * EmptyFlush(raw)
  {
    hide ToBits, Bytes, FixedCodes;
    StaticBounds.FixedLength(256);
    StoredHeaderBits(0);
    NoBytes();
  }

  /** No block has codes of its own where the fixed ones are asked for, and all are raw where that is asked for. */
  ghost predicate AllAsked(blocks: seq<Block>, forceStatic: bool, forceRaw: bool) {
    forall i :: 0 <= i < |blocks| ==> (forceStatic ==> !blocks[i].Dynamic?) && (forceRaw ==> blocks[i].Stored?)
  }

  /** The empty block of a flush adds nothing to what is decoded. */
  lemma SyncAdded(p: Parts, decoded: seq<Byte>, pad: seq<bool>)
    requires PartsOk(p, decoded) && !p.ended && |pad| < 8 && (|Joined(p)| + 3 + |pad|) % 8 == 0
    ensures WellFormed(Stored(pad, [])) && PartsOk(AddBlock(p, [], Stored(pad, []), false), decoded)
    ensures Joined(AddBlock(p, [], Stored(pad, []), false)) == Joined(p) + BlockBits(Stored(pad, []), false)
  {
    hide BlockBits, SoFar;
    BlockAdded(p, decoded, [], Stored(pad, []));
    assert decoded + [] == decoded && Joined(p) + [] == Joined(p);
  }

  lemma PartOfRest(delivered: seq<Byte>, buf: seq<Byte>, ofs: nat, n: nat, left: nat)
    requires n <= left && ofs + left <= |buf|
    ensures delivered + buf[ofs..ofs + left] == (delivered + buf[ofs..ofs + n]) + buf[ofs + n..ofs + left]
  {
  }

  lemma GatherBits(had: seq<bool>, before: seq<bool>, added: seq<bool>, bytes: seq<Byte>, written: seq<Byte>, waiting: seq<bool>)
    requires had == Bytes(bytes) + before && before + added == Bytes(written) + waiting
    ensures had + added == Bytes(bytes + written) + waiting
  {
    hide Bytes;
    BytesConcat(bytes, written);
    Associate(Bytes(bytes), before, added);
    Associate(Bytes(bytes), Bytes(written), waiting);
  }

  lemma StartsEmpty(d: Dictionary, tokens: TokenBuffer)
    requires d.Valid() && d.stream == [] && tokens.Valid() && tokens.Tokens() == []
    ensures d.lookaheadPos == 0 && tokens.totalLzBytes == 0 && Pow2(0) == 1
  {
  }

  lemma Lengths(had: nat, before: nat, all: nat, sent: nat)
    requires had % 8 == before && all - had == sent - before
    ensures all % 8 == sent % 8
  {
  }

  lemma TokenShape(tokens: TokenBuffer)
    requires tokens.Valid()
    ensures tokens.Shape()
  {
  }

  lemma NoTotal(tokens: TokenBuffer)
    requires tokens.Valid() && tokens.Tokens() == []
    ensures tokens.totalLzBytes == 0
  {
  }

  lemma Regroup(s: seq<bool>, t: seq<bool>, a: seq<bool>, b: seq<bool>, c: seq<bool>)
    ensures ((s + a) + b) + c == s + ((a + b) + c) && ((t + a) + b) + c == t + ((a + b) + c)
  {
  }

  lemma NoBytes()
    ensures Bytes([]) == []
  {
  }

  lemma FinalAndBody(before: seq<bool>, b: Block, final: bool)
    requires WellFormed(b)
    ensures (before + [final]) + (ToBits(BlockType(b), 2) + BodyBits(b)) == before + BlockBits(b, final)
  {
    hide BodyBits, WellFormed, BlockType;
    Associate(before, [final], ToBits(BlockType(b), 2) + BodyBits(b));
  }

  /** a <<= 8, i times, in 32 bits. */
  function Shifted(a: nat, i: nat): nat {
    if i == 0 then a else Shifted(a, i - 1) * 256 % WORD
  }

  lemma ShiftOnce(v: nat)
    requires v < WORD
    ensures v * 256 % WORD == v % 16777216 * 256
  {
    DivModUnique(v * 256, WORD, v / 16777216, v % 16777216 * 256);
  }

  lemma ShiftTwice(a: nat)
    requires a < WORD
    ensures Shifted(a, 1) == a % 16777216 * 256 && Shifted(a, 2) == a % 65536 * 65536
  {
    ShiftOnce(a);
    assert Shifted(a, 1) == a * 256 % WORD;
    ShiftOnce(a % 16777216 * 256);
    assert a % 16777216 * 256 % 16777216 == a % 65536 * 256;
  }

  lemma ShiftThrice(a: nat)
    requires a < WORD
    ensures Shifted(a, 3) == a % 256 * 16777216
  {
    ShiftTwice(a);
    ShiftOnce(a % 65536 * 65536);
    LowByte(a % 65536);
    ModMod(a);
  }

  lemma ModMod(a: nat)
    ensures a % 65536 % 256 == a % 256
  {
    var h, l := a / 256, a % 256;
    DivModUnique(a, 65536, h / 256, h % 256 * 256 + l);
    DivModUnique(a % 65536, 256, h % 256, l);
  }

  lemma LowByte(v: nat)
    ensures v * 65536 % 16777216 == v % 256 * 65536
  {
    DivModUnique(v * 65536, 16777216, v / 256, v % 256 * 65536);
  }

  lemma TopByte(v: nat)
    ensures v * 256 / 16777216 == v / 65536 && v * 65536 / 16777216 == v / 256
  {
    DivModUnique(v * 256, 16777216, v / 65536, v % 65536 * 256);
    DivModUnique(v * 65536, 16777216, v / 256, v % 256 * 65536);
  }

  lemma MiddleBytes(a: nat)
    ensures a % 16777216 / 65536 == a / 65536 % 256
  {
    var h, l := a / 65536, a % 65536;
    DivModUnique(a, 16777216, h / 256, h % 256 * 65536 + l);
    DivModUnique(h % 256 * 65536 + l, 65536, h % 256, l);
  }

  lemma LowBytes(a: nat)
    ensures a % 65536 / 256 == a / 256 % 256
  {
    var h, l := a / 256, a % 256;
    DivModUnique(a, 65536, h / 256, h % 256 * 256 + l);
    DivModUnique(h % 256 * 256 + l, 256, h % 256, l);
  }

  lemma ByteShift(a: nat, i: nat)
    requires a < WORD && i < 4
    ensures Shifted(a, i) / 16777216 == BigEndianBytes(a)[i] && Shifted(a, i + 1) == Shifted(a, i) * 256 % WORD
  {
    hide WORD;
    if i == 1 {
      ShiftTwice(a);
      TopByte(a % 16777216);
      MiddleBytes(a);
    } else if i == 2 {
      ShiftTwice(a);
      TopByte(a % 65536);
      LowBytes(a);
    } else if i == 3 {
      ShiftThrice(a);
    }
  }

  lemma OneMore(s: seq<Byte>, i: nat)
    requires i < |s|
    ensures Bytes(s[..i + 1]) == Bytes(s[..i]) + ToBits(s[i], 8)
  {
    assert s[..i + 1] == s[..i] + [s[i]];
    BytesConcat(s[..i], [s[i]]);
    OneByte(s[i]);
  }

  lemma AlignedStill(out: BitWriter, aligned: seq<bool>, s: seq<Byte>, i: nat)
    requires out.Valid() && |aligned| % 8 == 0 && i <= |s| && out.sent == aligned + Bytes(s[..i])
    ensures out.bitsIn == 0
  {
    assert |out.sent| % 8 == 0;
  }

  lemma StillAligned(out: BitWriter)
    requires out.Valid() && |out.sent| % 8 == 0
    ensures out.bitsIn == 0
  {
  }

  lemma SyncBits(sent: seq<bool>, pad: seq<bool>)
    requires |pad| < 8
    ensures sent + ToBits(0, 3) + pad + ToBits(0, 16) + ToBits(65535, 16) == sent + BlockBits(Stored(pad, []), false)
    ensures |BlockBits(Stored(pad, []), false)| == 35 + |pad|
  {
    hide ToBits, Bytes;
    StoredHeaderBits(0);
    ThreeZeros();
    NoBytes();
    SyncParts(sent, [false], ToBits(0, 2), pad, ToBits(0, 16), ToBits(65535, 16));
  }

  lemma ThreeZeros()
    ensures ToBits(0, 3) == [false] + ToBits(0, 2)
  {
  }

  lemma SyncParts(s: seq<bool>, f: seq<bool>, t: seq<bool>, p: seq<bool>, w: seq<bool>, v: seq<bool>)
    ensures s + (f + t) + p + w + v == s + (f + (t + (p + ((w + v) + []))))
  {
  }
}
