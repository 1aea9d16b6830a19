/** mz_deflate: the compressor as a stream that is given input and room for output in whatever portions. */
module DeflateStreams {
  import opened Bits
  import opened StreamFacts
  import opened Emitters
  import opened Compressors
  import DynamicBlocks
  import Parsers
  import Init = CompressorInit

  datatype MzStatus = Ok | StreamEnd | BufError | StreamError

  class DeflateStream {
    const c: Compressor

    constructor (c: Compressor)
      ensures this.c == c
    {
      this.c := c;
    }

    /**
      mz_deflate. If room for output is left, all input has been taken in and a stream that is to be finished is finished. A
      flush has then been made as well, except when the call began with output still waiting and was given no input: then
      nothing but that output is handed out. A flush with nothing to flush takes six bytes, or ten where blocks are raw.
     */
    method Deflate(nextIn: seq<Byte>, availOut: nat, flush: Flush) returns (status: MzStatus, used: nat, produced: seq<Byte>)
      requires c.Inv()
      modifies Init.Parts(c)
      ensures c.Inv() && used <= |nextIn| && c.d.stream == old(c.d.stream) + nextIn[..used]
      ensures |produced| <= availOut && c.emitter.delivered == old(c.emitter.delivered) + produced
      ensures status == StreamEnd ==> c.finished && c.wantsToFinish && c.emitter.flushRemaining == 0
      ensures status == Ok ==> c.prevStatus == Okay && !(c.finished && c.emitter.flushRemaining == 0)
      ensures status == Ok ==> c.wantsToFinish == (old(c.wantsToFinish) || flush == Finish)
      ensures c.wantsToFinish ==> old(c.wantsToFinish) || flush == Finish
      ensures status == Ok && |produced| < availOut ==> used == |nextIn| && flush != Finish && c.emitter.flushRemaining == 0
      ensures status == Ok && |produced| < availOut && flush != NoFlush ==>
        (c.Drained() <==> old(c.emitter.flushRemaining == 0 || c.Settled()) || nextIn != [])
      ensures status == Ok && old(c.emitter.flushRemaining) > 0 && nextIn == [] && flush != Finish ==>
        |produced| + c.emitter.flushRemaining == old(c.emitter.flushRemaining) && c.OnlyHandedOut()
      ensures status == Ok && old(c.emitter.flushRemaining) == 0 && nextIn != [] ==> used > 0
      ensures status == Ok && old(c.emitter.flushRemaining) == 0 && c.Raw() && flush == NoFlush && nextIn != [] ==>
        c.emitter.flushRemaining > 0 ==> c.emitter.lzCodeBufDictPos < |c.d.stream|
      ensures status == Ok && old(c.Drained()) && nextIn == [] && Synced(flush) ==>
        c.Settled() && |produced| + c.emitter.flushRemaining == EmptyFlush(c.emitter.forceRaw)
      ensures status == BufError ==> used == 0 && produced == [] && c.OnlyHandedOut() && c.prevStatus == old(c.prevStatus)
      ensures status == BufError ==> c.wantsToFinish == old(c.wantsToFinish)
                                     && c.emitter.flushRemaining == old(c.emitter.flushRemaining)
      ensures c.OneFlush() && (old(c.finished) ==> c.OnlyHandedOut())
      ensures c.finished == (old(c.finished) || (c.FlushMade() && flush == Finish))
      ensures c.FlushMade() ==> c.Settled() && used == |nextIn| && flush != NoFlush
      ensures if flush == FullFlush && c.FlushMade() then c.AtRestart() else c.SameRestart()
      ensures status == StreamEnd <==> availOut > 0 && flush == Finish && c.prevStatus == Done
      ensures status == StreamError <==> availOut > 0 && old(c.prevStatus) != Done
                                          && old(c.prevStatus != Okay || (c.wantsToFinish && flush != Finish))
      ensures status == BufError <==> availOut == 0 || (if old(c.prevStatus) == Done then flush != Finish else Idle(nextIn, flush))
    {
      hide Compressor.Inv, DynamicBlocks.BlockMaker.TableArrays, Joined;
      used, produced := 0, [];
      assert c.d.stream + nextIn[..0] == c.d.stream;
      SentBound();
      if availOut == 0 {
        return BufError, used, produced;
      }
      if c.prevStatus == Done {
        DoneIs();
        return if flush == Finish then StreamEnd else BufError, used, produced;
      }
      status, used, produced := Rounds(nextIn, availOut, flush);
    }

    /** A call that asks for nothing, when nothing is waiting. */
    twostate predicate Idle(nextIn: seq<Byte>, flush: Flush)
    {
      nextIn == [] && flush == NoFlush && old(c.prevStatus == Okay && !c.wantsToFinish && c.emitter.flushRemaining == 0)
    }

    method Rounds(nextIn: seq<Byte>, availOut: nat, flush: Flush) returns (status: MzStatus, used: nat, produced: seq<Byte>)
      requires c.Inv() && availOut > 0 && c.prevStatus != Done
      modifies Init.Parts(c)
      ensures c.Inv() && used <= |nextIn| && c.d.stream == old(c.d.stream) + nextIn[..used]
      ensures |produced| <= availOut && c.emitter.delivered == old(c.emitter.delivered) + produced
      ensures status == StreamEnd ==> c.finished && c.wantsToFinish && c.emitter.flushRemaining == 0
      ensures status == Ok ==> c.prevStatus == Okay && !(c.finished && c.emitter.flushRemaining == 0)
      ensures status == Ok ==> c.wantsToFinish == (old(c.wantsToFinish) || flush == Finish)
      ensures c.wantsToFinish ==> old(c.wantsToFinish) || flush == Finish
      ensures status == Ok && |produced| < availOut ==> used == |nextIn| && flush != Finish && c.emitter.flushRemaining == 0
      ensures status == Ok && |produced| < availOut && flush != NoFlush ==>
        (c.Drained() <==> old(c.emitter.flushRemaining == 0 || c.Settled()) || nextIn != [])
      ensures status == Ok && old(c.emitter.flushRemaining) > 0 && nextIn == [] && flush != Finish ==>
        |produced| + c.emitter.flushRemaining == old(c.emitter.flushRemaining) && c.OnlyHandedOut()
      ensures status == Ok && old(c.emitter.flushRemaining) == 0 && nextIn != [] ==> used > 0
      ensures status == Ok && old(c.emitter.flushRemaining) == 0 && c.Raw() && flush == NoFlush && nextIn != [] ==>
        c.emitter.flushRemaining > 0 ==> c.emitter.lzCodeBufDictPos < |c.d.stream|
      ensures status == Ok && old(c.Drained()) && nextIn == [] && Synced(flush) ==>
        c.Settled() && |produced| + c.emitter.flushRemaining == EmptyFlush(c.emitter.forceRaw)
      ensures status == BufError ==> used == 0 && produced == [] && c.OnlyHandedOut() && c.prevStatus == old(c.prevStatus)
      ensures status == BufError ==> c.wantsToFinish == old(c.wantsToFinish)
                                     && c.emitter.flushRemaining == old(c.emitter.flushRemaining)
      ensures c.OneFlush() && (old(c.finished) ==> c.OnlyHandedOut())
      ensures c.finished == (old(c.finished) || (c.FlushMade() && flush == Finish))
      ensures c.FlushMade() ==> c.Settled() && used == |nextIn| && flush != NoFlush
      ensures if flush == FullFlush && c.FlushMade() then c.AtRestart() else c.SameRestart()
      ensures status == StreamEnd <==> flush == Finish && c.prevStatus == Done
      ensures status == StreamError <==> old(c.prevStatus != Okay || (c.wantsToFinish && flush != Finish))
      ensures status == BufError <==> Idle(nextIn, flush)
    {
      hide Compressor.Inv, DynamicBlocks.BlockMaker.TableArrays, Joined;
      used, produced := 0, [];
      assert c.d.stream + nextIn[..0] == c.d.stream;
      ghost var stream, delivered := c.d.stream, c.emitter.delivered;
      ghost var first := true;
      while true
        invariant c.Inv() && used <= |nextIn| && c.d.stream == stream + nextIn[..used]
        invariant |produced| < availOut && c.emitter.delivered == delivered + produced
        invariant used == 0 && c.OnlyHandedOut() && c.SameRestart() && c.finished == old(c.finished)
        invariant if first then produced == [] && c.prevStatus == old(c.prevStatus) && c.wantsToFinish == old(c.wantsToFinish)
                                && c.emitter.flushRemaining == old(c.emitter.flushRemaining)
                  else c.prevStatus == Okay && c.wantsToFinish == (old(c.wantsToFinish) || flush == Finish)
                       && c.emitter.flushRemaining == 0 && old(c.prevStatus) == Okay && old(!c.wantsToFinish || flush == Finish)
                       && (nextIn != [] || flush == Finish) && old(c.emitter.flushRemaining) > 0 && !c.finished
        decreases first
      {
        var defl, n, out := c.Compress(nextIn[used..], availOut - |produced|, flush);
        assert nextIn[..used] + nextIn[used..][..n] == nextIn[..used + n];
        used, produced := used + n, produced + out;
        if defl == BadParam {
          return StreamError, used, produced;
        } else if defl == Done {
          return StreamEnd, used, produced;
        } else if |produced| == availOut {
          return Ok, used, produced;
        } else if used == |nextIn| && flush != Finish {
          status := if flush != NoFlush || used > 0 || produced != [] then Ok else BufError;
          return;
        }
        first := false;
      }
    }

    lemma SentBound()
      requires c.Inv()
      ensures c.emitter.lzCodeBufDictPos <= |c.d.stream|
    {
      hide Parsers.Parser.Inv;
      c.SentBound();
    }

    lemma DoneIs()
      requires c.Inv() && c.prevStatus == Done
      ensures c.finished && c.wantsToFinish && c.emitter.flushRemaining == 0
    {
      hide Parsers.Parser.Inv;
    }
  }
}
