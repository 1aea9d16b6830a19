/** What the compressor makes is a valid stream, and decoding it gives back what was compressed. */
module RoundTrips {
  import opened Bits
  import opened Deflate
  import opened StreamFacts
  import opened Adler32
  import opened CompressRuns
  import opened DecodeRuns
  import E = Emitters
  import P = Parsers
  import C = Compressors
  import I = Inflaters
  import N = CompressorInit
  import D = DeflateStreams
  import S = InflateStreams
  import Dictionaries

  /** The stream that has been written, with its header and its checksum. */
  function MadeStream(zlib: bool, p: Parts): I.ZStream {
    I.ZStream(zlib, if zlib then E.ZlibHeader() else [], p.blocks, if zlib then p.endPad else [], if zlib then p.endBytes else [])
  }

  lemma MoreDigits(s: seq<Byte>, b: Byte)
    ensures I.BigEndian(s + [b]) == I.BigEndian(s) * 256 + b
  {
    assert (s + [b])[..|s|] == s;
  }

  lemma BigEndianInverse(v: nat)
    requires v < WORD
    ensures I.BigEndian(E.BigEndianBytes(v)) == v
  {
    hide I.BigEndian;
    var a: Byte, b: Byte, c: Byte, d: Byte := v / 16777216, v / 65536 % 256, v / 256 % 256, v % 256;
    I.NoDigits();
    MoreDigits([], a);
    MoreDigits([] + [a], b);
    MoreDigits([] + [a] + [b], c);
    MoreDigits([] + [a] + [b] + [c], d);
    assert E.BigEndianBytes(v) == [] + [a] + [b] + [c] + [d];
    FourDigits(v);
  }

  lemma FourDigits(v: nat)
    ensures ((v / 16777216 * 256 + v / 65536 % 256) * 256 + v / 256 % 256) * 256 + v % 256 == v
  {
    TwoDigits(v / 65536);
    assert v / 65536 / 256 == v / 16777216;
    TwoDigits(v / 256);
    assert v / 256 / 256 == v / 65536;
    TwoDigits(v);
  }

  lemma TwoDigits(v: nat)
    ensures v / 256 * 256 + v % 256 == v
  {
  }

  lemma HeaderValid()
    ensures I.ZlibHeaderOk(E.ZlibHeader())
  {
  }

  /** The parts make up a valid stream if the checksum is right. */
  lemma PartsAreStream(zlib: bool, p: Parts, decoded: seq<Byte>, adler: nat)
    requires PartsOk(p, decoded) && p.ended && p.hdr == (if zlib then Bytes(E.ZlibHeader()) else [])
    requires adler < WORD && (zlib ==> adler == Value(Checksum(INIT, decoded)))
    requires p.endBytes == if zlib then E.BigEndianBytes(adler) else []
    ensures I.ZStreamOk(MadeStream(zlib, p)) && BlocksOut(MadeStream(zlib, p).blocks, []) == decoded
    ensures I.ZStreamBits(MadeStream(zlib, p)) <= Joined(p) && (zlib ==> I.ZStreamBits(MadeStream(zlib, p)) == Joined(p))
  {
    hide Bytes, BlocksBits, BlocksOk, BlocksOut, Aligned, AllWellFormed, I.ZlibHeaderOk, E.BigEndianBytes, I.BigEndian, Value;
    hide Checksum;
    hide E.ZlibHeader;
    var s := MadeStream(zlib, p);
    HeaderValid();
    HeaderBytes();
    BigEndianInverse(adler);
    Associate(Bytes(s.hdr), BlocksBits(s.blocks, true), I.ZTail(s));
  }

  lemma HeaderBytes()
    ensures Bytes([]) == [] && |E.ZlibHeader()| == 2
  {
  }

  /** When a compressor is done, what it has handed out is a valid stream for all that was put in. */
  lemma FinishedStream(c: C.Compressor)
    requires c.Inv() && c.finished && c.emitter.flushRemaining == 0
    ensures var s := MadeStream(c.emitter.zlib, c.emitter.parts);
      && I.ZStreamOk(s) && s.zlib == c.emitter.zlib && BlocksOut(s.blocks, []) == c.d.stream
      && I.ZStreamBits(s) <= Bytes(c.emitter.delivered)
      && (s.zlib ==> I.ZStreamBits(s) == Bytes(c.emitter.delivered))
  {
    hide Bytes, BlocksOk, BlocksOut, I.ZStreamOk, I.ZStreamBits, PartsOk, Joined, Value, Checksum, P.Parser.Parsed;
    hide Dictionaries.Dictionary.Valid, E.Emitter.Shape;
    EndedWhole(c.emitter.parts, c.d.stream[..c.emitter.lzCodeBufDictPos]);
    AllOut(c);
    var e := c.emitter;
    assert c.d.stream[..|c.d.stream|] == c.d.stream;
    NotFirst(c);
    PartsAreStream(e.zlib, e.parts, c.d.stream, c.adler);
  }

  lemma EndedWhole(p: Parts, decoded: seq<Byte>)
    requires PartsOk(p, decoded) && p.ended
    ensures |Joined(p)| % 8 == 0
  {
  }

  lemma NotFirst(c: C.Compressor)
    requires c.Inv() && c.finished
    ensures c.emitter.blockIndex > 0
  {
    hide P.Parser.Parsed, Dictionaries.Dictionary.Valid, E.Emitter.Shape, PartsOk;
  }

  /** Nothing waits in the output buffer, and no bits wait for a whole byte. */
  lemma AllOut(c: C.Compressor)
    requires c.Inv() && |Joined(c.emitter.parts)| % 8 == 0 && c.emitter.flushRemaining == 0
    ensures Joined(c.emitter.parts) == Bytes(c.emitter.delivered)
  {
    hide P.Parser.Parsed, Dictionaries.Dictionary.Valid, E.Emitter.Shape, PartsOk, Joined, Bytes, E.Emitter.StreamOk;
    var e := c.emitter;
    assert e.bytes == e.delivered + e.out.buf[e.flushOfs..e.flushOfs];
    assert e.bytes == e.delivered;
    assert ToBits(e.out.bitBuffer, 0) == [];
  }

  /** All blocks so far have the form that the flags ask for. */
  lemma FormsAsked(c: C.Compressor)
    requires c.Inv()
    ensures forall b :: b in c.emitter.parts.blocks ==>
      (c.emitter.forceStatic ==> !b.Dynamic?) && (c.emitter.forceRaw ==> b.Stored?)
  {
    hide P.Parser.Parsed, Dictionaries.Dictionary.Valid, E.Emitter.Shape, PartsOk, Joined;
  }

  /**
    Whatever calls a compressor has had, when it is done what it has handed out decodes to what it has been given; and calls of
    the decoder that do not starve it get to the end.
   */
  method DecodeFinished(c: C.Compressor, bytes: seq<Byte>, calls: seq<Read>) returns (ended: bool, out: seq<Byte>)
    requires c.Inv() && c.finished && c.emitter.flushRemaining == 0 && bytes == c.emitter.delivered
    ensures out <= c.d.stream && (ended ==> out == c.d.stream)
    ensures Generous(calls) && |calls| > |bytes| + |c.d.stream| ==> ended
  {
    hide C.Compressor.Inv, I.ZStreamOk, I.ZStreamBits, BlocksOut, Bytes, MadeStream;
    FinishedStream(c);
    ghost var z := MadeStream(c.emitter.zlib, c.emitter.parts);
    BlocksFine(z);
    ended, out := DecodeAll(bytes, calls, c.emitter.zlib, z);
  }

  /** The same by a single call that has all input and says at once that the stream is to be finished. */
  method DecodeAtOnce(c: C.Compressor, bytes: seq<Byte>, room: nat) returns (status: S.MzStatus, out: seq<Byte>)
    requires c.Inv() && c.finished && c.emitter.flushRemaining == 0 && bytes == c.emitter.delivered
    ensures status == if |c.d.stream| <= room then S.StreamEnd else S.BufError
    ensures out == if |c.d.stream| <= room then c.d.stream else c.d.stream[..room]
  {
    hide C.Compressor.Inv, I.ZStreamOk, I.ZStreamBits, BlocksOut, Bytes, MadeStream, I.Inflater.Inv, I.Inflater.AdlerOk;
    FinishedStream(c);
    ghost var z := MadeStream(c.emitter.zlib, c.emitter.parts);
    BlocksFine(z);
    var d := NewInflater(bytes, c.emitter.zlib, room + 1, false, z);
    var used;
    status, used, out := S.InflateAtOnce(d, bytes, room);
  }

  /**
    Whatever the flags of the compressor, the portions in which it gets the input and room for output and the flushes between
    them, and whatever the portions in which the decoder gets the stream and room for output: what comes out is what was put
    in. The compressor only fails to end for want of room, and never if there are enough calls for the input and the flushes
    and no calls in a row have exactly as much room as an empty flush takes; the decoder only fails to end for want of calls.
    What the compressor hands out takes 13 bits at most for each byte, 4700 for each piece, and 128 for each empty flush.
   */
  method RoundTrip(o: N.Options, wide: bool, words: bool, pieces: seq<Piece>, rooms: seq<nat>, calls: seq<Read>)
    returns (made: bool, bytes: seq<Byte>, sizes: seq<nat>, ended: bool, out: seq<Byte>)
    requires o.probes <= 0xFFF && forall i :: 0 <= i < |pieces| ==> pieces[i].flush != E.Finish
    ensures |sizes| <= |rooms| && |bytes| == Total(sizes) && forall k :: 0 <= k < |sizes| ==> sizes[k] <= rooms[k]
    ensures 8 * |bytes| <= E.Allowed(|Data(pieces)|, |pieces| + 1, |sizes|)
    ensures Steady(rooms, E.EmptyFlush(o.forceRaw)) ==> 8 * |bytes| <= E.Allowed(|Data(pieces)|, |pieces| + 1, |pieces|)
    ensures Steady(rooms, E.EmptyFlush(o.forceRaw)) && 8 * |rooms| > 13 * |Data(pieces)| + 4836 * (|pieces| + 1) ==> made
    ensures !made ==> |sizes| == |rooms| && Unfilled(rooms, sizes) <= |pieces|
    ensures made ==> out <= Data(pieces) && (ended ==> out == Data(pieces))
    ensures made && Generous(calls) && |calls| > |bytes| + |Data(pieces)| ==> ended
  {
    hide C.Compressor.Inv, Data;
    var c := N.NewCompressor(o, wide, words);
    var s := new D.DeflateStream(c);
    made, bytes, sizes := CompressAll(s, pieces, rooms);
    if !made && Steady(rooms, E.EmptyFlush(o.forceRaw)) {
      Filled(rooms, sizes, 1);
    }
    ended, out := false, [];
    if made {
      ended, out := DecodeFinished(c, bytes, calls);
    }
  }
}
