/**
  A flush that is not made. zlib promises that a call for a flush which leaves room for output has made the flush. mz_deflate
  does not keep this when the call begins with output waiting and is given no input; here is such a call.
 */
module MissedFlush {
  import opened Bits
  import opened Compressors
  import opened DeflateStreams
  import Dictionaries
  import TokenBuffers
  import BlockSenders
  import E = Emitters
  import N = CompressorInit

  /** Level 0 in the zlib form. */
  const STORED := N.Options(0, true, true, true, false, false, false, true)

  /** As long as no more than one byte of a zlib stream has been written, no block has. */
  lemma NoBlockYet(c: Compressor)
    requires c.Inv() && c.emitter.zlib && c.emitter.flushRemaining == 0 && |c.emitter.delivered| <= 1
    ensures c.emitter.lzCodeBufDictPos == 0 && c.emitter.delivered == []
  {
    hide BlockSenders.BlockSender.Shape, Dictionaries.Dictionary.Valid, TokenBuffers.TokenBuffer.Valid;
    var e := c.emitter;
    assert e.bytes == e.delivered;
    E.NoBytes();
  }

  /** When no block has been sent and raw blocks are forced, not more than this has been taken in. */
  lemma FewBytes(c: Compressor)
    requires c.Inv() && c.Raw() && c.emitter.lzCodeBufDictPos == 0
    ensures |c.d.stream| <= 31 * 1024 + 257
  {
    hide BlockSenders.BlockSender.Shape, TokenBuffers.TokenBuffer.Valid, Dictionaries.Holds, E.Emitter.StreamOk;
    hide E.Emitter.BufferOk;
  }

  /**
    Zeros, one byte per call with room for one byte, until a block is sent: output waits, and something has been taken in that is
    in no block yet.
   */
  method LetOutputWait() returns (s: DeflateStream)
    ensures fresh(N.Parts(s.c)) && s.c.Inv() && s.c.prevStatus == Okay && !s.c.wantsToFinish
    ensures s.c.emitter.flushRemaining > 0 && s.c.emitter.lzCodeBufDictPos < |s.c.d.stream|
  {
    hide Compressor.Inv, N.Parts;
    var c := N.NewCompressor(STORED, true, true);
    s := new DeflateStream(c);
    while c.emitter.flushRemaining == 0
      invariant s.c == c && c.Inv() && fresh(N.Parts(c)) && c.prevStatus == Okay && !c.wantsToFinish && c.Raw() && c.emitter.zlib
      invariant c.emitter.flushRemaining == 0 ==> c.emitter.delivered == [] && |c.d.stream| <= 31 * 1024 + 257
      invariant c.emitter.flushRemaining > 0 ==> c.emitter.lzCodeBufDictPos < |c.d.stream|
      decreases if c.emitter.flushRemaining == 0 then 31 * 1024 + 258 - |c.d.stream| else 0
    {
      var status, used, produced := s.Deflate([0], 1, E.NoFlush);
      if c.emitter.flushRemaining == 0 {
        NoBlockYet(c);
        FewBytes(c);
      }
    }
  }

  /**
    Then a sync flush without input, and with more room than what waits takes: it succeeds and leaves room, but the stream has
    not grown, and not all that has been put in can be decoded from what has come out.
   */
  method Missed(s: DeflateStream, room: nat) returns (status: MzStatus, produced: seq<Byte>)
    requires s.c.Inv() && s.c.prevStatus == Okay && !s.c.wantsToFinish && s.c.emitter.lzCodeBufDictPos < |s.c.d.stream|
    requires 0 < s.c.emitter.flushRemaining < room
    modifies N.Parts(s.c)
    ensures s.c.Inv() && status == Ok && |produced| < room && !s.c.Drained() && s.c.OnlyHandedOut()
    ensures s.c.emitter.lzCodeBufDictPos < |s.c.d.stream|
  {
    hide Compressor.Inv;
    var used;
    status, used, produced := s.Deflate([], room, E.SyncFlush);
  }

  /** Both together. */
  method MissedFlush() returns (s: DeflateStream, status: MzStatus, room: nat, produced: seq<Byte>)
    ensures s.c.Inv() && status == Ok && |produced| < room && !s.c.Drained() && s.c.emitter.lzCodeBufDictPos < |s.c.d.stream|
  {
    hide Compressor.Inv, N.Parts;
    s := LetOutputWait();
    room := s.c.emitter.flushRemaining + 1;
    status, produced := Missed(s, room);
  }
}
