/** tdefl_compress: calls with any portions of input and any room for output, and the flushes between them. */
module Compressors {
  import opened Bits
  import opened TokenBuffers
  import opened Dictionaries
  import opened DynamicBlocks
  import opened Emitters
  import opened Parsers
  import opened LazyParsing
  import opened StreamFacts
  import opened Adler32

  datatype Status = Okay | Done | BadParam

  class Compressor {
    const parser: Parser
    const emitter: Emitter
    const d: Dictionary
    const tokens: TokenBuffer
    /** TDEFL_WRITE_ZLIB_HEADER or TDEFL_COMPUTE_ADLER32 */
    const sums: bool

    var wantsToFinish: bool
    var finished: bool
    var adler: nat
    var prevStatus: Status

    ghost predicate Shape() {
      parser.emitter == emitter && parser.d == d && parser.tokens == tokens && (emitter.zlib ==> sums)
    }

    ghost predicate Sums()
      reads this`adler, d`stream
    {
      adler < WORD && if sums then adler == Value(Checksum(INIT, d.stream)) else adler == 1
    }

    /** Once the stream has been finished, all of it is in the blocks. */
    ghost predicate Complete()
      reads this, emitter, d
    {
      && finished == emitter.parts.ended && (finished ==> wantsToFinish)
      && (finished ==> emitter.lzCodeBufDictPos == |d.stream| && adler < WORD && emitter.parts.endBytes == emitter.EndBytes(adler))
    }

    ghost predicate Finished()
      reads this, emitter, d
    {
      && Complete() && (prevStatus == Done ==> finished && emitter.flushRemaining == 0)
      && (prevStatus == Okay ==> !(finished && emitter.flushRemaining == 0))
    }

    ghost predicate Inv()
      reads this, parser, emitter, d, d.dict, d.next, d.hash, tokens, tokens.codeBuf, tokens.litCount, tokens.distCount
      reads emitter.out, emitter.out.buf
    {
      Shape() && parser.Inv() && parser.Resting() && Sums() && Finished()
    }

    constructor (parser: Parser, sums: bool)
      requires parser.Inv() && parser.Resting() && parser.d.stream == [] && !parser.emitter.parts.ended
      requires parser.emitter.zlib ==> sums
      ensures Inv() && prevStatus == Okay && this.parser == parser && emitter == parser.emitter && d == parser.d
      ensures tokens == parser.tokens && !wantsToFinish && !finished
    {
      hide Parser.Inv;
      this.parser, this.sums := parser, sums;
      emitter, d, tokens := parser.emitter, parser.d, parser.tokens;
      wantsToFinish, finished, adler, prevStatus := false, false, 1, Okay;
    }

    /** All blocks are raw: TDEFL_FORCE_ALL_RAW_BLOCKS. */
    ghost predicate Raw() { !parser.fast && emitter.forceRaw }

    /** Everything taken in has become blocks, and these end at a byte boundary. */
    ghost predicate Settled()
      reads emitter`lzCodeBufDictPos, emitter`parts, emitter`blockIndex, d`stream
    {
      emitter.lzCodeBufDictPos == |d.stream| && |Joined(emitter.parts)| % 8 == 0 && emitter.blockIndex > 0
    }

    /** The caller has all of them as well. */
    ghost predicate Drained()
      reads emitter`lzCodeBufDictPos, emitter`parts, emitter`blockIndex, emitter`flushRemaining, d`stream
    {
      Settled() && emitter.flushRemaining == 0
    }

    /** What comes from here on can be decoded on its own: nothing of what came before is in the dictionary. */
    ghost predicate AtRestart()
      reads emitter`mark, emitter`markByte, emitter`parts, d`stream, d`reset, d`dictSize
    {
      && d.reset == |d.stream| && d.dictSize == 0
      && emitter.mark == |emitter.parts.blocks| && 8 * emitter.markByte == |Joined(emitter.parts)|
    }

    /** And where that was last. */
    twostate predicate SameRestart()
      reads emitter`mark, emitter`markByte, d`reset
    {
      d.reset == old(d.reset) && emitter.mark == old(emitter.mark) && emitter.markByte == old(emitter.markByte)
    }

    /** A flush has made a block. */
    twostate predicate FlushMade()
      reads emitter`flushes, emitter`empties
    {
      emitter.flushes + emitter.empties > old(emitter.flushes + emitter.empties)
    }

    /** Nothing has been added to the stream. */
    twostate predicate OnlyHandedOut()
      reads emitter`parts, emitter`lzCodeBufDictPos, emitter`blockIndex, emitter`flushes, emitter`empties, d`stream
    {
      && emitter.parts == old(emitter.parts) && emitter.lzCodeBufDictPos == old(emitter.lzCodeBufDictPos)
      && emitter.blockIndex == old(emitter.blockIndex) && d.stream == old(d.stream)
      && emitter.flushes == old(emitter.flushes) && emitter.empties == old(emitter.empties)
    }

    /** At most one block has been made by a flush, and none of any bytes if there were none left to make one of. */
    twostate predicate OneFlush()
      reads emitter`flushes, emitter`empties, emitter`lzCodeBufDictPos, d`stream
    {
      && old(emitter.flushes) <= emitter.flushes && old(emitter.empties) <= emitter.empties
      && emitter.flushes + emitter.empties <= old(emitter.flushes + emitter.empties) + 1
      && old(emitter.lzCodeBufDictPos) <= emitter.lzCodeBufDictPos <= |d.stream|
      && (emitter.flushes > old(emitter.flushes) ==> old(emitter.lzCodeBufDictPos) < |d.stream| == emitter.lzCodeBufDictPos)
    }

    /** The input is parsed, and summed up as far as it has been used. */
    method Take(input: seq<Byte>, flush: Flush) returns (used: nat)
      requires Inv() && !finished && emitter.flushRemaining == 0
      modifies this`adler, parser, emitter, tokens, tokens.codeBuf, tokens.distCount, emitter.sender.maker.TableArrays()
      modifies emitter.out, emitter.out.buf, d`lookaheadPos, d`lookaheadSize, d`dictSize, d`stream, d.dict, d.next, d.hash
      ensures Shape() && parser.Inv() && parser.Resting() && Sums() && !emitter.parts.ended
      ensures used <= |input| && d.stream == old(d.stream) + input[..used]
      ensures emitter.flushRemaining > 0 ==> |emitter.callOut| == emitter.outRoom
      ensures emitter.flushRemaining == 0 ==> used == |input| && (flush != NoFlush ==> d.lookaheadSize == 0)
      ensures old(emitter.callOut) <= emitter.callOut && emitter.outRoom == old(emitter.outRoom)
      ensures emitter.delivered == old(emitter.delivered) + emitter.callOut[|old(emitter.callOut)|..]
      ensures input != [] ==> used > 0
      ensures Raw() && flush == NoFlush && emitter.flushRemaining > 0 ==> emitter.lzCodeBufDictPos < |d.stream|
      ensures emitter.NoFlushes() && emitter.lzCodeBufDictPos <= |d.stream|
      ensures input == [] && (flush == NoFlush || old(Settled())) ==> emitter.Untouched()
      ensures SameRestart() && (d.lookaheadSize > 0 ==> emitter.lzCodeBufDictPos < |d.stream|)
      ensures parser.fast ==>
        FastRuns(old(parser.FastNow(false)), parser.FastNow(false), Goal(old(d.stream) + input, flush != NoFlush), FAST_LOOKAHEAD)
      ensures !parser.fast ==>
        Runs(parser.ParseRules(), old(parser.Now()), parser.Now(), Goal(old(d.stream) + input, flush != NoFlush))
    {
      hide Parser.Inv, Parser.Resting, BlockMaker.TableArrays, Checksum, Value, INIT, Runs, FastRuns, Joined;
      Apart();
      if d.lookaheadSize > 0 {
        NotAllSent();
      }
      used := parser.Compress(input, flush, adler);
      SentBound();
      if d.lookaheadSize > 0 {
        NotAllSent();
      }
      if sums {
        InitReduced();
        ChecksumReduced(INIT, old(d.stream));
        ChecksumConcat(INIT, old(d.stream), input[..used]);
        adler := Update(adler, input[..used], Checksum(INIT, old(d.stream)));
      }
    }

    /** At a byte boundary every bit is in a byte that has been handed out or waits. */
    lemma WholeBytes()
      requires Shape() && parser.Inv()
      ensures |Joined(emitter.parts)| % 8 == 0 ==> 8 * (|emitter.delivered| + emitter.flushRemaining) == |Joined(emitter.parts)|
    {
      hide Emitter.Shape, Emitter.StreamOk, Dictionary.Valid, TokenBuffer.Valid, Joined, Parser.Parsed;
      BytesLen(emitter.bytes);
    }

    lemma SentBound()
      requires Shape() && parser.Inv()
      ensures emitter.lzCodeBufDictPos <= |d.stream|
    {
      hide Emitter.Shape, Emitter.BufferOk, Emitter.Sized, Dictionary.Valid, TokenBuffer.Valid, PartsOk, Joined;
    }

    /** What is in the lookahead is in no block. */
    lemma NotAllSent()
      requires Shape() && parser.Inv() && d.lookaheadSize > 0
      ensures emitter.lzCodeBufDictPos < |d.stream|
    {
      hide Emitter.Shape, Emitter.StreamOk, Emitter.BufferOk, Holds, TokenBuffer.Valid;
    }

    lemma Apart()
      requires Shape()
      ensures this !in emitter.sender.maker.TableArrays() && parser !in emitter.sender.maker.TableArrays()
      ensures d !in emitter.sender.maker.TableArrays()
    {
    }

    /** What the end of tdefl_compress does once everything has been parsed. */
    method EndCall(flush: Flush)
      requires Shape() && parser.Inv() && Sums() && !emitter.parts.ended && emitter.flushRemaining == 0 && d.lookaheadSize == 0
      requires flush != NoFlush && parser.Resting()
      modifies this`finished, emitter, tokens, tokens.codeBuf, tokens.distCount, emitter.sender.maker.TableArrays()
      modifies emitter.out, emitter.out.buf, d`dictSize, d`reset, d.next, d.hash
      ensures Shape() && parser.Inv() && parser.Resting() && Sums() && finished == emitter.parts.ended == (flush == Finish)
      ensures Settled() && FlushMade()
      ensures old(Settled()) && flush != Finish ==>
        |Joined(emitter.parts)| == old(|Joined(emitter.parts)|) + 8 * EmptyFlush(emitter.forceRaw)
      ensures finished ==> emitter.parts.endBytes == emitter.EndBytes(adler)
      ensures emitter.flushRemaining > 0 ==> |emitter.callOut| == emitter.outRoom
      ensures old(emitter.callOut) <= emitter.callOut && emitter.outRoom == old(emitter.outRoom)
      ensures emitter.delivered == old(emitter.delivered) + emitter.callOut[|old(emitter.callOut)|..]
      ensures OneFlush() && if flush == FullFlush then AtRestart() else SameRestart()
    {
      hide Parser.Inv, BlockMaker.TableArrays, Checksum, Value, INIT, Joined;
      Apart();
      SentBound();
      parser.Flush(flush, adler);
      finished := flush == Finish;
      if flush == FullFlush {
        parser.Forget();
      }
    }

    method Work(input: seq<Byte>, flush: Flush) returns (used: nat)
      requires Inv() && !finished && emitter.flushRemaining == 0 && (flush == Finish ==> wantsToFinish)
      modifies this`adler, this`finished, parser, emitter, tokens, tokens.codeBuf, tokens.distCount, emitter.sender.maker.TableArrays()
      modifies emitter.out, emitter.out.buf, d, d.dict, d.next, d.hash
      ensures Shape() && parser.Inv() && parser.Resting() && Sums() && Complete()
      ensures used <= |input| && d.stream == old(d.stream) + input[..used]
      ensures emitter.flushRemaining > 0 ==> |emitter.callOut| == emitter.outRoom
      ensures emitter.flushRemaining == 0 ==>
        used == |input| && (flush != NoFlush ==> Drained()) && finished == (flush == Finish)
      ensures old(emitter.callOut) <= emitter.callOut && emitter.outRoom == old(emitter.outRoom)
      ensures emitter.delivered == old(emitter.delivered) + emitter.callOut[|old(emitter.callOut)|..]
      ensures input != [] ==> used > 0
      ensures Raw() && flush == NoFlush && emitter.flushRemaining > 0 ==> emitter.lzCodeBufDictPos < |d.stream|
      ensures OneFlush() && (FlushMade() ==> Settled() && used == |input| && flush != NoFlush)
      ensures if flush == FullFlush && FlushMade() then AtRestart() else SameRestart()
      ensures finished == (FlushMade() && flush == Finish)
      ensures input == [] && flush == NoFlush ==> emitter.Untouched() && !FlushMade()
      ensures old(Settled()) && input == [] && Synced(flush) ==>
        Settled() && |Joined(emitter.parts)| == old(|Joined(emitter.parts)|) + 8 * EmptyFlush(emitter.forceRaw)
    {
      hide Parser.Inv, Parser.Resting, BlockMaker.TableArrays, Checksum, Value, INIT, Joined, EmptyFlush;
      Apart();
      used := Take(input, flush);
      if flush != NoFlush && d.lookaheadSize == 0 && used == |input| && emitter.flushRemaining == 0 {
        EndCall(flush);
      }
    }

    /** A call begins with room for this much output, and what there is to do is done. */
    method Produce(input: seq<Byte>, room: nat, flush: Flush) returns (used: nat)
      requires Inv() && !finished && (flush == Finish ==> wantsToFinish) && emitter.flushRemaining == 0
      modifies this`adler, this`finished
      modifies parser, emitter, tokens, tokens.codeBuf, tokens.distCount, emitter.sender.maker.TableArrays()
      modifies emitter.out, emitter.out.buf, d, d.dict, d.next, d.hash
      ensures Shape() && parser.Inv() && parser.Resting() && Sums() && Complete() && emitter.outRoom == room
      ensures used <= |input| && d.stream == old(d.stream) + input[..used]
              && emitter.delivered == old(emitter.delivered) + emitter.callOut
      ensures emitter.flushRemaining > 0 ==> |emitter.callOut| == room
      ensures emitter.flushRemaining == 0 ==>
        used == |input| && (flush != NoFlush ==> Drained()) && finished == (flush == Finish)
      ensures input != [] ==> used > 0
      ensures Raw() && flush == NoFlush && emitter.flushRemaining > 0 ==> emitter.lzCodeBufDictPos < |d.stream|
      ensures OneFlush() && (FlushMade() ==> Settled() && used == |input| && flush != NoFlush)
      ensures if flush == FullFlush && FlushMade() then AtRestart() else SameRestart()
      ensures finished == (FlushMade() && flush == Finish)
      ensures input == [] && flush == NoFlush ==> OnlyHandedOut() && emitter.callOut == [] && emitter.flushRemaining == 0
      ensures old(Settled()) && input == [] && Synced(flush) ==>
        Settled() && |Joined(emitter.parts)| == old(|Joined(emitter.parts)|) + 8 * EmptyFlush(emitter.forceRaw)
    {
      hide Parser.Inv, Parser.Resting, BlockMaker.TableArrays, Checksum, Value, INIT, Joined, EmptyFlush;
      Apart();
      parser.BeginCall(room);
      used := Work(input, flush);
    }

    /** Nothing is left of the output of earlier calls: more of it is made. */
    method MakeMore(input: seq<Byte>, room: nat, flush: Flush) returns (status: Status, used: nat, output: seq<Byte>)
      requires Inv() && prevStatus == Okay && (flush == Finish ==> wantsToFinish) && emitter.flushRemaining == 0
      modifies this`adler, this`finished, this`prevStatus
      modifies parser, emitter, tokens, tokens.codeBuf, tokens.distCount, emitter.sender.maker.TableArrays()
      modifies emitter.out, emitter.out.buf, d, d.dict, d.next, d.hash
      ensures Inv() && used <= |input| && d.stream == old(d.stream) + input[..used]
      ensures |output| <= room && emitter.delivered == old(emitter.delivered) + output
      ensures status == prevStatus != BadParam && (status == Done ==> finished && wantsToFinish && emitter.flushRemaining == 0)
      ensures status == Okay ==> !(finished && emitter.flushRemaining == 0)
      ensures |output| < room ==> emitter.flushRemaining == 0
      ensures emitter.flushRemaining == 0 ==>
        used == |input| && (flush != NoFlush ==> Drained()) && (status == Done <==> flush == Finish)
      ensures input != [] ==> used > 0
      ensures Raw() && flush == NoFlush && emitter.flushRemaining > 0 ==> emitter.lzCodeBufDictPos < |d.stream|
      ensures OneFlush() && (FlushMade() ==> Settled() && used == |input| && flush != NoFlush)
      ensures if flush == FullFlush && FlushMade() then AtRestart() else SameRestart()
      ensures finished == (FlushMade() && flush == Finish)
      ensures input == [] && flush == NoFlush ==> OnlyHandedOut() && output == [] && emitter.flushRemaining == 0
      ensures old(Settled()) && input == [] && Synced(flush) ==>
        Settled() && |Joined(emitter.parts)| == old(|Joined(emitter.parts)|) + 8 * EmptyFlush(emitter.forceRaw)
    {
      hide EmptyFlush;
      hide Parser.Inv, Parser.Resting, BlockMaker.TableArrays, Checksum, Value, INIT, Joined;
      Apart();
      used := Produce(input, room, flush);
      parser.FlushRest();
      status := if finished && emitter.flushRemaining == 0 then Done else Okay;
      prevStatus, output := status, emitter.callOut;
    }

    /** What is left of the output of earlier calls comes first, and then nothing more is done. */
    method HandOutRest(room: nat) returns (status: Status, output: seq<Byte>)
      requires Inv() && prevStatus == Okay && emitter.flushRemaining > 0
      modifies this`prevStatus, emitter
      ensures Inv() && |output| <= room && emitter.delivered == old(emitter.delivered) + output && OnlyHandedOut()
      ensures status == prevStatus != BadParam && (status == Done ==> finished && wantsToFinish && emitter.flushRemaining == 0)
      ensures SameRestart()
      ensures status == Okay ==> !(finished && emitter.flushRemaining == 0)
      ensures |output| < room ==> emitter.flushRemaining == 0
      ensures |output| + emitter.flushRemaining == old(emitter.flushRemaining)
    {
      hide Parser.Inv, Parser.Resting, BlockMaker.TableArrays, Checksum, Value, INIT, Joined;
      parser.BeginCall(room);
      parser.FlushRest();
      status := if finished && emitter.flushRemaining == 0 then Done else Okay;
      prevStatus, output := status, emitter.callOut;
    }

    /**
      tdefl_compress. What is handed out is always the next part of the stream; as long as the room for output is not used up,
      all input is taken in, and after a flush all of it has been handed out.
     */
    method Compress(input: seq<Byte>, room: nat, flush: Flush) returns (status: Status, used: nat, output: seq<Byte>)
      requires Inv()
      modifies this, parser, emitter, tokens, tokens.codeBuf, tokens.distCount, emitter.sender.maker.TableArrays()
      modifies emitter.out, emitter.out.buf, d, d.dict, d.next, d.hash
      ensures Inv() && used <= |input| && d.stream == old(d.stream) + input[..used]
      ensures |output| <= room && emitter.delivered == old(emitter.delivered) + output
      ensures status == prevStatus && (status == Done ==> finished && wantsToFinish && emitter.flushRemaining == 0)
      ensures status == BadParam <==> old(prevStatus != Okay || (wantsToFinish && flush != Finish))
      ensures status == BadParam ==> used == 0 && output == []
      ensures wantsToFinish == (old(wantsToFinish) || (flush == Finish && status != BadParam))
      ensures status != BadParam && |output| < room ==> emitter.flushRemaining == 0
      ensures status != BadParam && old(emitter.flushRemaining) > 0 ==>
        used == 0 && OnlyHandedOut() && |output| + emitter.flushRemaining == old(emitter.flushRemaining)
      ensures status != BadParam && old(emitter.flushRemaining) == 0 && input != [] ==> used > 0
      ensures status != BadParam && old(emitter.flushRemaining) == 0 && Raw() && flush == NoFlush && emitter.flushRemaining > 0 ==>
        emitter.lzCodeBufDictPos < |d.stream|
      ensures status != BadParam && old(emitter.flushRemaining) == 0 && emitter.flushRemaining == 0 ==>
        used == |input| && (flush != NoFlush ==> Drained()) && (status == Done <==> flush == Finish)
      ensures OneFlush() && (old(finished) ==> OnlyHandedOut()) && finished == (old(finished) || (FlushMade() && flush == Finish))
      ensures if flush == FullFlush && FlushMade() then AtRestart() else SameRestart()
      ensures FlushMade() ==> Settled() && used == |input| && flush != NoFlush
      ensures status == Okay ==> !(finished && emitter.flushRemaining == 0)
      ensures status != BadParam && old(emitter.flushRemaining) == 0 && input == [] && flush == NoFlush ==>
        OnlyHandedOut() && output == [] && emitter.flushRemaining == 0
      ensures status != BadParam && old(Drained()) && input == [] && Synced(flush) ==>
        Settled() && |output| + emitter.flushRemaining == EmptyFlush(emitter.forceRaw)
    {
      hide Parser.Inv, Parser.Resting, BlockMaker.TableArrays, Checksum, Value, INIT, Joined;
      SentBound();
      WholeBytes();
      if prevStatus != Okay || (wantsToFinish && flush != Finish) {
        status, used, output, prevStatus := BadParam, 0, [], BadParam;
        assert d.stream + input[..0] == d.stream;
      } else {
        Apart();
        wantsToFinish := wantsToFinish || flush == Finish;
        if emitter.flushRemaining > 0 || finished {
          status, output := HandOutRest(room);
          used := 0;
          assert d.stream + input[..0] == d.stream;
        } else {
          status, used, output := MakeMore(input, room, flush);
          WholeBytes();
        }
      }
    }
  }

  lemma InitReduced()
    ensures Reduced(INIT)
  {
  }
}
