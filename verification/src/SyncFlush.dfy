/** After a flush, what has been handed out so far is enough to decode everything that has been put in so far. */
module SyncFlush {
  import opened Bits
  import opened Deflate
  import opened StreamFacts
  import opened Adler32
  import opened RoundTrips
  import opened DecodeRuns
  import opened SyncPoints
  import Dictionaries
  import E = Emitters
  import C = Compressors
  import I = Inflaters

  /** An empty last block at a byte boundary. */
  function LastBlock(): Block { Stored([false, false, false, false, false], []) }

  /** A stream that goes on from p and ends at once. */
  function Ended(zlib: bool, p: Parts, adler: nat): Parts
    requires adler < WORD
  {
    AddLast(p, [], LastBlock(), [], if zlib then E.BigEndianBytes(adler) else [])
  }

  function LastBytes(zlib: bool, adler: nat): seq<Byte>
    requires adler < WORD
  {
    [1, 0, 0, 255, 255] + if zlib then E.BigEndianBytes(adler) else []
  }

  lemma LastBits()
    ensures BlockBits(LastBlock(), true) == Bytes([1, 0, 0, 255, 255])
  {
    hide Bytes;
    FirstByte();
    assert StoredHeader(0) == [0, 0, 255, 255];
    var one: seq<Byte>, four: seq<Byte> := [1], [0, 0, 255, 255];
    assert one + four == [1, 0, 0, 255, 255];
    BytesConcat(one, four);
    E.NoBytes();
    Parts3([true], ToBits(0, 2), [false, false, false, false, false], Bytes([0, 0, 255, 255]));
  }

  lemma FirstByte()
    ensures Bytes([1]) == [true] + (ToBits(0, 2) + [false, false, false, false, false])
  {
    var one: seq<Byte> := [1];
    assert one[1..] == [];
    assert ToBits(1, 8) == [true] + ToBits(0, 7);
    assert ToBits(0, 7) == ToBits(0, 2) + [false, false, false, false, false];
  }

  lemma Parts3(a: seq<bool>, b: seq<bool>, c: seq<bool>, d: seq<bool>)
    ensures a + (b + (c + (d + []))) == (a + (b + c)) + d
  {
  }

  /** The stream can be completed by a few bytes. */
  lemma CanEnd(zlib: bool, p: Parts, decoded: seq<Byte>, adler: nat, bytes: seq<Byte>)
    requires PartsOk(p, decoded) && !p.ended && adler < WORD && Joined(p) == Bytes(bytes)
    ensures PartsOk(Ended(zlib, p, adler), decoded)
    ensures Joined(Ended(zlib, p, adler)) == Bytes(bytes + LastBytes(zlib, adler))
  {
    hide PartsOk, Joined, Bytes, E.BigEndianBytes, BlockBits;
    var endBytes := if zlib then E.BigEndianBytes(adler) else [];
    LastBits();
    E.NoBytes();
    BytesConcat([1, 0, 0, 255, 255], endBytes);
    BytesConcat(bytes, LastBytes(zlib, adler));
    EndParts(Joined(p), BlockBits(LastBlock(), true), Bytes(endBytes));
    LastAdded(p, decoded, [], LastBlock(), [], endBytes);
    assert decoded + [] == decoded;
  }

  lemma EndParts(j: seq<bool>, b: seq<bool>, e: seq<bool>)
    ensures ((j + []) + b) + ([] + e) == j + (b + e)
  {
  }

  /** What a compressor has handed out after a flush: the header and its blocks, which stand for all that was put in. */
  lemma DrainedStream(c: C.Compressor)
    requires c.Inv() && c.Drained() && !c.finished
    ensures var p := c.emitter.parts;
      && PartsOk(p, c.d.stream) && !p.ended && AllWellFormed(p.blocks) && BlocksOk(p.blocks, [])
      && BlocksOut(p.blocks, []) == c.d.stream && Joined(p) == Bytes(c.emitter.delivered)
      && p.hdr == (if c.emitter.zlib then Bytes(E.ZlibHeader()) else [])
      && |Joined(p)| == |p.hdr| + |BlocksBits(p.blocks, false)|
    ensures c.d.lookaheadPos == |c.d.stream| && c.adler < WORD
    ensures c.emitter.zlib ==> c.adler == Value(Checksum(INIT, c.d.stream))
  {
    hide Bytes, Value, Checksum, INIT, E.Emitter.Shape, BlocksBits, BlocksOk, BlocksOut, Aligned, E.ZlibHeader;
    AllOut(c);
    E.NoBytes();
    AllParsed(c);
    assert c.d.stream[..|c.d.stream|] == c.d.stream;
  }

  lemma AllParsed(c: C.Compressor)
    requires c.Inv() && c.Drained()
    ensures c.d.lookaheadPos == |c.d.stream|
  {
    hide E.Emitter.Shape, E.Emitter.StreamOk, E.Emitter.BufferOk, Dictionaries.Holds;
  }

  /**
    A decoder, given what has been handed out up to a flush in whatever portions, and asking for more: it has decoded all that
    was put in before the flush.
   */
  lemma DecodedSoFar(c: C.Compressor, d: I.Inflater)
    requires c.Inv() && c.Drained() && !c.finished
    requires d.Inv() && d.Whole() && d.Starved() && d.reader.fed == |c.emitter.delivered|
    requires d.hdr == if c.emitter.zlib then E.ZlibHeader() else []
    requires |c.emitter.parts.blocks| < |d.all| && c.emitter.parts.blocks == d.all[..|c.emitter.parts.blocks|]
    ensures c.d.stream <= d.window.out
  {
    hide C.Compressor.Inv, I.Inflater.Inv, I.Inflater.Whole, I.Inflater.Starved, Joined, PartsOk, BlocksBits, BlocksOut, BlocksOk;
    DrainedStream(c);
    E.NoBytes();
    CaughtUp(d, |c.emitter.parts.blocks|);
  }

  /** One way the stream may go on. */
  ghost function Completed(c: C.Compressor): I.ZStream
    requires c.adler < WORD
    reads c, c.emitter
  {
    MadeStream(c.emitter.zlib, Ended(c.emitter.zlib, c.emitter.parts, c.adler))
  }

  lemma CompletedOk(c: C.Compressor)
    requires c.Inv() && c.Drained() && !c.finished
    ensures c.adler < WORD && c.d.lookaheadPos == |c.d.stream|
    ensures var s := Completed(c);
      && I.ZStreamOk(s) && s.zlib == c.emitter.zlib && BlocksOut(s.blocks, []) == c.d.stream
      && I.ZStreamBits(s) <= Bytes(c.emitter.delivered + LastBytes(c.emitter.zlib, c.adler))
      && s.blocks == c.emitter.parts.blocks + [LastBlock()] && s.hdr == (if c.emitter.zlib then E.ZlibHeader() else [])
  {
    hide C.Compressor.Inv, Joined, PartsOk, BlocksBits, BlocksOut, BlocksOk, I.ZStreamOk, I.ZStreamBits, Bytes, Value;
    hide Checksum, INIT;
    hide BlockBits, LastBytes, E.BigEndianBytes;
    DrainedStream(c);
    var e := c.emitter;
    CanEnd(e.zlib, e.parts, c.d.stream, c.adler, e.delivered);
    assert e.parts.hdr + [] == e.parts.hdr;
    PartsAreStream(e.zlib, Ended(e.zlib, e.parts, c.adler), c.d.stream, c.adler);
  }

  /** The bytes handed out so far, decoded. */
  method DecodeSoFar(c: C.Compressor, bytes: seq<Byte>) returns (out: seq<Byte>)
    requires c.Inv() && c.Drained() && !c.finished && bytes == c.emitter.delivered
    ensures out == c.d.stream
  {
    hide C.Compressor.Inv, I.Inflater.Inv, I.Inflater.Whole, I.Inflater.Starved, Joined, PartsOk, BlocksBits, BlocksOut, BlocksOk;
    hide I.ZStreamOk, I.ZStreamBits, LastBytes, Ended, I.Inflater.AdlerOk, Bytes, Completed, MadeStream;
    CompletedOk(c);
    ghost var s, later := Completed(c), LastBytes(c.emitter.zlib, c.adler);
    BlocksFine(s);
    var d := NewInflater(bytes + later, c.emitter.zlib, c.d.lookaheadPos + 1, false, s);
    assert (bytes + later)[0..] == bytes + later && d.reader.inBuf[d.reader.inPos..] == [];
    var status, used, produced := d.Decompress(bytes, true, 0, c.d.lookaheadPos + 1, later);
    out := d.window.buf[..produced];
    assert [] + d.window.buf[0..produced] == out;
    if status == I.NeedsMoreInput {
      assert s.blocks[..|c.emitter.parts.blocks|] == c.emitter.parts.blocks;
      DecodedSoFar(c, d);
    }
  }
}
