/** Runs of mz_inflate: a stream in any portions, with any room for output in each call. */
module DecodeRuns {
  import opened Bits
  import opened Lz
  import opened Deflate
  import I = Inflaters
  import R = BitReaders
  import W = Windows
  import S = InflateStreams

  lemma BlocksFine(s: I.ZStream)
    requires I.ZStreamOk(s)
    ensures AllWellFormed(s.blocks) && BlocksOk(s.blocks, [])
  {
  }

  ghost function DecoderParts(d: I.Inflater): set<object> {
    {d, d.reader, d.window, d.window.buf, d.checkAdler} + d.t.Arrays()
  }

  method NewInflater(ghost bytes: seq<Byte>, zlib: bool, size: nat, wrapping: bool, ghost s: I.ZStream) returns (d: I.Inflater)
    requires I.ZStreamOk(s) && s.zlib == zlib && AllWellFormed(s.blocks) && I.ZStreamBits(s) <= Bytes(bytes)
    requires size >= if wrapping then LZ_DICT_SIZE else 1
    ensures fresh(DecoderParts(d)) && d.window.buf.Length == size && d.window.wrapping == wrapping && d.window.pos == 0
    ensures d.Inv() && d.AdlerOk() && d.target == BlocksOut(s.blocks, []) && d.window.out == []
    ensures d.reader.inBuf == [] && d.reader.inPos == 0 && d.reader.later == bytes
    ensures d.Whole() && d.all == s.blocks && d.hdr == s.hdr && d.reader.fed == 0
  {
    hide I.ZStreamOk, I.ZStreamBits, BlocksOut, I.Inflater.Inv, I.Inflater.AdlerOk, Bytes, W.Window.Valid, R.BitReader.Valid;
    hide I.Inflater.Whole;
    var buf := new Byte[size];
    var window := new W.Window(buf, wrapping);
    var reader := new R.BitReader(I.ZStreamBits(s), bytes);
    d := new I.Inflater(reader, window, zlib, s);
  }

  /**
    What one call of the decoder gets: how many more bytes of the stream, how much room for output, and whether it says that
    the stream is to be finished, which it may when it gets all that is left; all calls after that say so too.
   */
  datatype Read = Read(input: nat, room: nat, finish: bool)

  /** The decoder is never called without both input, if there is any left, and room for output. */
  predicate Generous(calls: seq<Read>) {
    forall k :: 0 <= k < |calls| ==> calls[k].input > 0 && calls[k].room > 0
  }

  /** One call, which gets the bytes from pos on. */
  method Call(s: S.InflateStream, bytes: seq<Byte>, pos: nat, call: Read, first: bool)
    returns (status: S.MzStatus, pos': nat, produced: seq<Byte>)
    requires s.Valid() && pos <= |bytes| && s.decomp.reader.inPos <= |s.decomp.reader.inBuf|
    requires (!first ==> !s.firstCall) && (s.hasFlushed ==> !first)
    requires bytes[pos..] == s.decomp.reader.inBuf[s.decomp.reader.inPos..] + s.decomp.reader.later
    modifies s, s.decomp, s.decomp.reader, s.decomp.window, s.decomp.window.buf, s.decomp.checkAdler, s.decomp.t.Arrays()
    ensures s.Valid() && s.delivered == old(s.delivered) + produced && s.delivered <= s.decomp.target && !s.firstCall
    ensures pos <= pos' <= |bytes| && s.decomp.reader.inPos <= |s.decomp.reader.inBuf|
    ensures bytes[pos'..] == s.decomp.reader.inBuf[s.decomp.reader.inPos..] + s.decomp.reader.later
    ensures status == S.StreamEnd ==> s.delivered == s.decomp.target
    ensures status != S.StreamEnd && call.input > 0 && call.room > 0 ==> pos' > pos || |produced| > 0
  {
    hide I.Inflater.Inv, I.Inflater.AdlerOk, I.TableSet.Arrays, S.InflateStream.Valid;
    var all := s.hasFlushed || |bytes| - pos <= call.input;
    var n := if all then |bytes| - pos else call.input;
    var flush := if !first && all && (s.hasFlushed || call.finish) then S.Finish else S.NoFlush;
    var nextIn := bytes[pos..pos + n];
    ghost var later := bytes[pos + n..];
    assert nextIn + later == bytes[pos..];
    var used;
    status, used, produced := s.Inflate(nextIn, call.room, flush, later);
    assert nextIn[used..] + later == bytes[pos + used..];
    pos' := pos + used;
  }

  /** The stream is decoded by one call after another. */
  method DecodeAll(bytes: seq<Byte>, calls: seq<Read>, zlib: bool, ghost z: I.ZStream) returns (ended: bool, out: seq<Byte>)
    requires I.ZStreamOk(z) && z.zlib == zlib && AllWellFormed(z.blocks) && BlocksOk(z.blocks, [])
    requires I.ZStreamBits(z) <= Bytes(bytes)
    ensures out <= BlocksOut(z.blocks, []) && (ended ==> out == BlocksOut(z.blocks, []))
    ensures Generous(calls) && |calls| > |bytes| + |BlocksOut(z.blocks, [])| ==> ended
  {
    hide I.ZStreamOk, I.ZStreamBits, BlocksOut, I.Inflater.Inv, I.Inflater.AdlerOk, I.TableSet.Arrays, Bytes;
    hide S.InflateStream.Valid;
    var s := NewInflateStream(bytes, zlib, z);
    ended, out := false, [];
    var pos, k := 0, 0;
    while k < |calls| && !ended
      invariant s.Valid() && fresh(s) && fresh(DecoderParts(s.decomp)) && s.decomp.target == BlocksOut(z.blocks, [])
      invariant out == s.delivered <= s.decomp.target && (ended ==> out == s.decomp.target)
      invariant pos <= |bytes| && k <= |calls| && s.decomp.reader.inPos <= |s.decomp.reader.inBuf|
      invariant (k > 0 ==> !s.firstCall) && (s.hasFlushed ==> k > 0)
      invariant bytes[pos..] == s.decomp.reader.inBuf[s.decomp.reader.inPos..] + s.decomp.reader.later
      invariant !ended && Generous(calls) ==> k <= pos + |out|
    {
      var status, pos', produced := Call(s, bytes, pos, calls[k], k == 0);
      ended, pos, out, k := status == S.StreamEnd, pos', out + produced, k + 1;
    }
  }

  method NewInflateStream(ghost bytes: seq<Byte>, zlib: bool, ghost z: I.ZStream) returns (s: S.InflateStream)
    requires I.ZStreamOk(z) && z.zlib == zlib && AllWellFormed(z.blocks) && I.ZStreamBits(z) <= Bytes(bytes)
    requires BlocksOk(z.blocks, [])
    ensures s.Valid() && fresh(s) && fresh(DecoderParts(s.decomp)) && s.decomp.target == BlocksOut(z.blocks, [])
    ensures !s.hasFlushed && s.delivered == [] && s.decomp.reader.inPos == 0 && s.decomp.reader.inBuf == []
            && s.decomp.reader.later == bytes
  {
    hide I.ZStreamOk, I.ZStreamBits, BlocksOut, I.Inflater.Inv, I.Inflater.AdlerOk, I.TableSet.Arrays, Bytes;
    hide S.InflateStream.Valid, I.Inflater.Whole;
    var d := NewInflater(bytes, zlib, LZ_DICT_SIZE, true, z);
    s := new S.InflateStream(d);
  }
}
