/** mz_inflate: the decoder behind a 32 KB ring, from which the output is handed out in whatever portions are asked for. */
module InflateStreams {
  import opened Bits
  import opened Lz
  import opened Windows
  import opened Inflaters

  datatype Flush = NoFlush | SyncFlush | Finish

  datatype MzStatus = Ok | StreamEnd | BufError | DataError | StreamError

  datatype Decision = Again | Return(status: MzStatus)

  /** What the loop of mz_inflate does after a call of the decoder. */
  function Decide(status: Status, waiting: bool, flush: Flush, noInput: bool, inputUsed: bool, roomUsed: bool): Decision {
    if status == NeedsMoreInput && noInput then Return(BufError)
    else if flush == Finish then
      if status == Done then Return(if waiting then BufError else StreamEnd)
      else if roomUsed then Return(BufError) else Again
    else if status == Done || inputUsed || roomUsed || waiting then
      Return(if status == Done && !waiting then StreamEnd else Ok)
    else Again
  }

  class InflateStream {
    const decomp: Inflater
    var dictOfs: nat
    var dictAvail: nat
    var lastStatus: Status
    var firstCall: bool
    var hasFlushed: bool
    /** Everything handed out so far. */
    ghost var delivered: seq<Byte>

    ghost predicate Shape() {
      && decomp.window.wrapping && decomp.window.buf.Length == LZ_DICT_SIZE
    }

    /** What has been decoded is what has been handed out and what waits in the ring. */
    ghost predicate Waiting()
      reads this`dictOfs, this`dictAvail, this`delivered, decomp.window, decomp.window.buf
    {
      && dictOfs + dictAvail <= LZ_DICT_SIZE == decomp.window.buf.Length
      && delivered + decomp.window.buf[dictOfs..dictOfs + dictAvail] == decomp.window.out
      && (if dictAvail > 0 then dictOfs + dictAvail == decomp.window.pos else dictOfs == decomp.window.pos % LZ_DICT_SIZE)
      && decomp.window.pos <= LZ_DICT_SIZE
    }

    ghost predicate Valid()
      reads this, decomp, decomp.reader, decomp.window, decomp.window.buf, decomp.checkAdler, decomp.t.Arrays()
    {
      && Shape() && decomp.Inv() && decomp.AdlerOk() && Waiting()
      && lastStatus in {Done, NeedsMoreInput, HasMoreOutput} && (lastStatus == Done ==> decomp.window.out == decomp.target)
    }

    constructor (decomp: Inflater)
      requires decomp.Inv() && decomp.AdlerOk() && decomp.window.wrapping && decomp.window.buf.Length == LZ_DICT_SIZE
      requires decomp.window.out == [] && decomp.window.pos == 0
      ensures Valid() && delivered == [] && this.decomp == decomp && firstCall && !hasFlushed
    {
      hide Inflater.AdlerOk, Inflater.AtState, Inflater.Stream, Inflater.Framing, Inflater.Shape, TableSet.Valid;
      this.decomp, dictOfs, dictAvail, lastStatus, delivered := decomp, 0, 0, NeedsMoreInput, [];
      firstCall, hasFlushed := true, false;
      new;
      assert this as object !in decomp.t.Arrays();
    }

    lemma NoTable()
      ensures this !in decomp.t.Arrays() && this as object != decomp && this as object != decomp.reader
      ensures this as object != decomp.window && this as object != decomp.window.buf && this as object != decomp.checkAdler
    {
    }

    /** As much of what waits in the ring as there is room for. */
    method HandOut(availOut: nat) returns (produced: seq<Byte>)
      requires Shape() && Waiting() && decomp.Inv() && decomp.AdlerOk()
      modifies this`dictOfs, this`dictAvail, this`delivered
      ensures decomp.Inv() && decomp.AdlerOk() && Waiting() && delivered == old(delivered) + produced
      ensures |produced| == if old(dictAvail) < availOut then old(dictAvail) else availOut
      ensures dictAvail == old(dictAvail) - |produced|
    {
      hide Window.Valid, Inflater.Inv, Inflater.AdlerOk, TableSet.Arrays;
      NoTable();
      var n := if dictAvail < availOut then dictAvail else availOut;
      produced := decomp.window.buf[dictOfs..dictOfs + n];
      assert decomp.window.buf[dictOfs..dictOfs + dictAvail]
          == produced + decomp.window.buf[dictOfs + n..dictOfs + dictAvail];
      if n == dictAvail {
        assert delivered + produced == decomp.window.out;
      }
      dictAvail, dictOfs := dictAvail - n, (dictOfs + n) % LZ_DICT_SIZE;
      delivered := delivered + produced;
    }

    /** One call of the decoder, into what is left of the ring. Nothing waits in the ring at that point. */
    method Decode(input: seq<Byte>, hasMore: bool, ghost later: seq<Byte>) returns (used: nat)
      requires Valid() && dictAvail == 0 && (hasMore || later == [])
      requires input + later == decomp.reader.inBuf[decomp.reader.inPos..] + decomp.reader.later
      modifies this`dictAvail, this`lastStatus
      modifies decomp, decomp.reader, decomp.window, decomp.window.buf, decomp.checkAdler, decomp.t.Arrays()
      ensures Valid() && used == decomp.reader.inPos <= |input| && decomp.reader.inBuf == input && decomp.reader.later == later
      ensures delivered == old(delivered) && decomp.window.out <= decomp.target
      ensures match lastStatus
        case NeedsMoreInput => hasMore && later != [] && used == |input|
        case HasMoreOutput => dictAvail > 0
        case _ => true
    {
      hide Inflater.Inv, Inflater.AdlerOk, TableSet.Arrays;
      NoTable();
      var outUsed;
      lastStatus, used, outUsed := decomp.Decompress(input, hasMore, dictOfs, LZ_DICT_SIZE - dictOfs, later);
      dictAvail := outUsed;
    }

    /**
      mz_inflate, except for a first call that already says Finish. Its result only says how much was done: what is handed out
      is always the next part of the decoded stream, and unless there is no room each call that succeeds gets further.
     */
    method Inflate(nextIn: seq<Byte>, availOut: nat, flush: Flush, ghost later: seq<Byte>)
      returns (status: MzStatus, used: nat, produced: seq<Byte>)
      requires Valid() && (flush == Finish ==> later == [] && !firstCall)
      requires decomp.reader.inPos <= |decomp.reader.inBuf|
      requires nextIn + later == decomp.reader.inBuf[decomp.reader.inPos..] + decomp.reader.later
      modifies this, decomp, decomp.reader, decomp.window, decomp.window.buf, decomp.checkAdler, decomp.t.Arrays()
      ensures decomp.reader.inPos <= |decomp.reader.inBuf|
      ensures Valid() && delivered == old(delivered) + produced && delivered <= decomp.target
      ensures |produced| <= availOut && used <= |nextIn|
      ensures nextIn[used..] + later == decomp.reader.inBuf[decomp.reader.inPos..] + decomp.reader.later
      ensures !firstCall && hasFlushed == (old(hasFlushed) || flush == Finish)
      ensures status == StreamError <==> old(hasFlushed) && flush != Finish
      ensures status != StreamError ==> (status == StreamEnd <==> lastStatus == Done && dictAvail == 0)
      ensures status == StreamEnd ==> delivered == decomp.target
      ensures status == BufError ==> (|nextIn| == 0 && later != []) || |produced| == availOut
      ensures status != StreamError ==>
        (status == BufError <==> old(dictAvail) == 0
                                 && if flush == Finish then lastStatus != Done || dictAvail > 0
                                    else nextIn == [] && lastStatus == NeedsMoreInput)
      ensures status != StreamError && dictAvail > 0 ==> |produced| == availOut
      ensures status == Ok && old(dictAvail) == 0 ==> flush != Finish && (used == |nextIn| || |produced| == availOut)
      ensures status == Ok && availOut > 0 ==> used > 0 || |produced| > 0
      ensures status != DataError
    {
      hide Inflater.Inv, Inflater.AdlerOk, Waiting, TableSet.Arrays;
      NoTable();
      firstCall, used, produced := false, 0, [];
      assert nextIn[0..] == nextIn && delivered + [] == delivered;
      if hasFlushed && flush != Finish {
        DeliveredIsPrefix();
        return StreamError, used, produced;
      }
      hasFlushed := hasFlushed || flush == Finish;
      if dictAvail != 0 {
        produced := HandOut(availOut);
        status := if lastStatus == Done && dictAvail == 0 then StreamEnd else Ok;
      } else {
        status, used, produced := Rounds(nextIn, availOut, flush, later);
      }
      DeliveredIsPrefix();
    }

    method Rounds(nextIn: seq<Byte>, availOut: nat, flush: Flush, ghost later: seq<Byte>)
      returns (status: MzStatus, used: nat, produced: seq<Byte>)
      requires Valid() && dictAvail == 0 && (flush == Finish ==> later == []) && decomp.reader.inPos <= |decomp.reader.inBuf|
      requires nextIn + later == decomp.reader.inBuf[decomp.reader.inPos..] + decomp.reader.later
      modifies this`dictOfs, this`dictAvail, this`lastStatus, this`delivered
      modifies decomp, decomp.reader, decomp.window, decomp.window.buf, decomp.checkAdler, decomp.t.Arrays()
      ensures Valid() && delivered == old(delivered) + produced && |produced| <= availOut && used <= |nextIn|
      ensures decomp.reader.inPos <= |decomp.reader.inBuf|
      ensures nextIn[used..] + later == decomp.reader.inBuf[decomp.reader.inPos..] + decomp.reader.later
      ensures status == StreamEnd <==> lastStatus == Done && dictAvail == 0
      ensures status == BufError ==> (|nextIn| == 0 && later != []) || |produced| == availOut
      ensures status == BufError <==>
        if flush == Finish then lastStatus != Done || dictAvail > 0 else nextIn == [] && lastStatus == NeedsMoreInput
      ensures dictAvail > 0 ==> |produced| == availOut
      ensures status == Ok ==> flush != Finish && (used == |nextIn| || |produced| == availOut)
      ensures status == Ok && availOut > 0 ==> used > 0 || |produced| > 0
      ensures status != DataError && status != StreamError
    {
      hide Inflater.Inv, Inflater.AdlerOk, Waiting, TableSet.Arrays;
      NoTable();
      used, produced := 0, [];
      var decision := Again;
      assert nextIn[0..] == nextIn;
      while decision.Again?
        invariant Valid() && delivered == old(delivered) + produced && |produced| <= availOut && used <= |nextIn|
        invariant decomp.reader.inPos <= |decomp.reader.inBuf|
        invariant nextIn[used..] + later == decomp.reader.inBuf[decomp.reader.inPos..] + decomp.reader.later
        invariant decision.Again? ==> dictAvail == 0
        invariant decision.Return? ==> (decision.status == StreamEnd <==> lastStatus == Done && dictAvail == 0)
        invariant decision.Return? && decision.status == BufError ==> (|nextIn| == 0 && later != []) || |produced| == availOut
        invariant decision.Return? ==>
          (decision.status == BufError <==>
            if flush == Finish then lastStatus != Done || dictAvail > 0 else nextIn == [] && lastStatus == NeedsMoreInput)
        invariant dictAvail > 0 ==> |produced| == availOut
        invariant decision.Return? && decision.status == Ok ==> flush != Finish && (used == |nextIn| || |produced| == availOut)
        invariant decision.Return? ==> decision.status != DataError && decision.status != StreamError
        invariant decision.Return? && decision.status == Ok && availOut > 0 ==> used > 0 || |produced| > 0
        decreases if decision.Again? then 1 else 0, availOut - |produced|
      {
        var step, part := Round(nextIn[used..], availOut - |produced|, flush != Finish, later);
        assert nextIn[used..][step..] == nextIn[used + step..];
        used, produced := used + step, produced + part;
        decision := Decide(lastStatus, dictAvail != 0, flush, nextIn == [], used == |nextIn|, |produced| == availOut);
      }
      status := decision.status;
    }

    method Round(input: seq<Byte>, room: nat, hasMore: bool, ghost later: seq<Byte>) returns (used: nat, part: seq<Byte>)
      requires Valid() && dictAvail == 0 && (hasMore || later == []) && decomp.reader.inPos <= |decomp.reader.inBuf|
      requires input + later == decomp.reader.inBuf[decomp.reader.inPos..] + decomp.reader.later
      modifies this`dictOfs, this`dictAvail, this`lastStatus, this`delivered
      modifies decomp, decomp.reader, decomp.window, decomp.window.buf, decomp.checkAdler, decomp.t.Arrays()
      ensures Valid() && used <= |input| && |part| <= room && delivered == old(delivered) + part
      ensures decomp.reader.inPos <= |decomp.reader.inBuf|
      ensures input[used..] + later == decomp.reader.inBuf[decomp.reader.inPos..] + decomp.reader.later
      ensures dictAvail > 0 ==> |part| == room
      ensures lastStatus == NeedsMoreInput ==> hasMore && later != [] && used == |input|
      ensures lastStatus == HasMoreOutput && room > 0 ==> |part| > 0
    {
      hide Inflater.Inv, Inflater.AdlerOk, Waiting, TableSet.Arrays;
      NoTable();
      used := Decode(input, hasMore, later);
      part := HandOut(room);
    }

    lemma DeliveredIsPrefix()
      requires Valid()
      ensures delivered <= decomp.target
      ensures lastStatus == Done && dictAvail == 0 ==> delivered == decomp.target
    {
      hide Inflater.Inv, Inflater.AdlerOk;
      decomp.OutBound();
    }
  }

  /**
    The first call of mz_inflate when it already says Finish: the decoder writes straight to the caller's buffer, which has to
    hold all that is decoded.
   */
  method InflateAtOnce(decomp: Inflater, nextIn: seq<Byte>, availOut: nat)
    returns (status: MzStatus, used: nat, produced: seq<Byte>)
    requires decomp.Inv() && decomp.AdlerOk() && !decomp.window.wrapping && decomp.window.out == [] && decomp.window.pos == 0
    requires decomp.reader.inPos <= |decomp.reader.inBuf| && availOut <= decomp.window.buf.Length
    requires nextIn == decomp.reader.inBuf[decomp.reader.inPos..] + decomp.reader.later
    modifies decomp, decomp.reader, decomp.window, decomp.window.buf, decomp.checkAdler, decomp.t.Arrays()
    ensures used <= |nextIn| && produced <= decomp.target
    ensures status == if |decomp.target| <= availOut then StreamEnd else BufError
    ensures status == StreamEnd ==> produced == decomp.target
    ensures status == BufError ==> |produced| == availOut
  {
    hide Inflater.Inv, Inflater.AdlerOk;
    assert nextIn + [] == nextIn;
    var result, outUsed;
    result, used, outUsed := decomp.Decompress(nextIn, false, 0, availOut, []);
    produced := decomp.window.buf[..outUsed];
    assert [] + decomp.window.buf[0..outUsed] == produced;
    status := if result == Done then StreamEnd else if result == HasMoreOutput || result == NeedsMoreInput then BufError
              else DataError;
  }
}
