/** After a full flush, what is handed out from there on can be decoded on its own. */
module FullFlushes {
  import opened Bits
  import opened Deflate
  import opened StreamFacts
  import opened Restarts
  import opened Adler32
  import opened RoundTrips
  import opened DecodeRuns
  import opened SyncPoints
  import opened SyncFlush
  import Dictionaries
  import HashChains
  import E = Emitters
  import P = Parsers
  import C = Compressors
  import I = Inflaters

  // ---- the blocks from one of them on ----

  lemma {:induction false} BitsSplit(bs: seq<Block>, k: nat, pos: nat, ended: bool)
    requires AllWellFormed(bs) && Aligned(bs, pos, ended) && k <= |bs| && (ended ==> k < |bs|)
    ensures AllWellFormed(bs[..k]) && AllWellFormed(bs[k..])
    ensures BlocksBits(bs, ended) == BlocksBits(bs[..k], false) + BlocksBits(bs[k..], ended)
    ensures Aligned(bs[k..], pos + |BlocksBits(bs[..k], false)|, ended)
  {
    hide WellFormed, BlockBits;
    if k == 0 {
      assert bs[..0] == [] && bs[0..] == bs && [] + BlocksBits(bs, ended) == BlocksBits(bs, ended);
    } else {
      BitsSplit(bs[1..], k - 1, pos + |BlockBits(bs[0], false)|, ended);
      var head := bs[..k];
      assert head[0] == bs[0] && head[1..] == bs[1..][..k - 1] && bs[1..][k - 1..] == bs[k..];
      Associate(BlockBits(bs[0], false), BlocksBits(head[1..], false), BlocksBits(bs[k..], ended));
    }
  }

  /** Whole bytes before the blocks make no difference. */
  lemma {:induction false} AlignedStill(bs: seq<Block>, pos: nat, pos': nat, ended: bool)
    requires AllWellFormed(bs) && Aligned(bs, pos, ended) && pos % 8 == pos' % 8
    ensures Aligned(bs, pos', ended)
  {
    hide WellFormed, BlockBits;
    if bs != [] {
      var n := |BlockBits(bs[0], ended && |bs| == 1)|;
      AlignedStill(bs[1..], pos + n, pos' + n, ended);
    }
  }

  /** The stream from such a block on, without a header before it or a checksum behind it. */
  function Later(p: Parts, mark: nat): Parts
    requires mark <= |p.blocks| && AllWellFormed(p.blocks)
  {
    Parts(p.blocks[mark..], p.ended, [], BlocksBits(p.blocks[mark..], p.ended), p.endPad, [])
  }

  lemma BytesFromHere(bytes: seq<Byte>, start: nat, head: seq<bool>, rest: seq<bool>)
    requires Bytes(bytes) == head + rest && |head| == 8 * start
    ensures start <= |bytes| && Bytes(bytes[start..]) == rest
  {
    BytesLen(bytes);
    var a, b := bytes[..start], bytes[start..];
    assert bytes == a + b;
    BytesConcat(a, b);
    BytesLen(a);
    assert (head + rest)[8 * start..] == rest && (Bytes(a) + Bytes(b))[8 * start..] == Bytes(b);
  }

  /** The bits before and behind the place where it begins. */
  lemma StartSplits(p: Parts, decoded: seq<Byte>, mark: nat, start: nat) returns (before: seq<bool>)
    requires PartsOk(p, decoded) && (p.ended ==> mark < |p.blocks|) && (mark > 0 || p.hdr == [])
    requires StartsAt(p.blocks, p.hdr, mark, start)
    ensures |before| == 8 * start && Aligned(p.blocks[mark..], 0, p.ended)
    ensures Joined(p) == before + (Later(p, mark).body + (p.endPad + Bytes(p.endBytes)))
  {
    hide Bytes, BlocksOk, BlocksOut, BlocksBits, Aligned, WellFormed;
    BitsSplit(p.blocks, mark, |p.hdr|, p.ended);
    var head := BlocksBits(p.blocks[..mark], false);
    before := p.hdr + head;
    if mark == 0 {
      NoneBefore(p.blocks);
    }
    AlignedStill(p.blocks[mark..], |before|, 0, p.ended);
    Associate(p.hdr, head, Later(p, mark).body);
    Associate(before, Later(p, mark).body, p.endPad + Bytes(p.endBytes));
  }

  /** It is a stream of its own, and stands for the bytes from reset on. */
  lemma LaterOk(p: Parts, decoded: seq<Byte>, mark: nat, reset: nat, start: nat, bytes: seq<Byte>)
    requires PartsOk(p, decoded) && (p.ended ==> mark < |p.blocks|) && (mark > 0 || p.hdr == [])
    requires Restarted(p.blocks, mark, reset, decoded) && StartsAt(p.blocks, p.hdr, mark, start) && Joined(p) == Bytes(bytes)
    ensures PartsOk(Later(p, mark), decoded[reset..]) && start <= |bytes| && Joined(Later(p, mark)) <= Bytes(bytes[start..])
    ensures p.ended || Joined(Later(p, mark)) == Bytes(bytes[start..])
  {
    hide Bytes, BlocksOk, BlocksOut, BlocksBits, Aligned, WellFormed, Joined;
    var q := Later(p, mark);
    var before := StartSplits(p, decoded, mark, start);
    BytesFromHere(bytes, start, before, q.body + (p.endPad + Bytes(p.endBytes)));
    BytesLen(bytes);
    WithoutEnd(q, p.endBytes);
    assert [] + q.body == q.body;
  }

  lemma WithoutEnd(q: Parts, endBytes: seq<Byte>)
    requires q.endBytes == []
    ensures Joined(q) <= q.body + (q.endPad + Bytes(endBytes))
    ensures endBytes == [] ==> Joined(q) == q.body + (q.endPad + Bytes(endBytes))
    ensures |q.body + (q.endPad + Bytes(endBytes))| % 8 == |Joined(q)| % 8
  {
    hide Bytes;
    E.NoBytes();
    BytesLen(endBytes);
    assert Joined(q) == q.body + q.endPad;
    Associate(q.body, q.endPad, Bytes(endBytes));
  }

  lemma NoneBefore(bs: seq<Block>)
    requires AllWellFormed(bs)
    ensures AllWellFormed(bs[..0]) && BlocksBits(bs[..0], false) == []
  {
  }

  // ---- what a compressor hands out after a full flush ----

  /** The bytes handed out since then, and the blocks in them. */
  lemma HandedOutSince(c: C.Compressor)
    requires c.Inv() && c.emitter.flushRemaining == 0 && (c.finished || c.Settled()) && (c.emitter.mark > 0 || !c.emitter.zlib)
    ensures var e := c.emitter;
      && e.mark <= |e.parts.blocks| && AllWellFormed(e.parts.blocks) && e.parts.ended == c.finished && c.d.reset <= |c.d.stream|
      && PartsOk(Later(e.parts, e.mark), c.d.stream[c.d.reset..]) && e.markByte <= |e.delivered|
      && Joined(Later(e.parts, e.mark)) <= Bytes(e.delivered[e.markByte..])
      && (c.finished || Joined(Later(e.parts, e.mark)) == Bytes(e.delivered[e.markByte..]))
  {
    hide Bytes, Joined, PartsOk, Restarted, StartsAt, Later, E.AllAsked, Value, Checksum, INIT, E.ZlibHeader, E.Emitter.Shape;
    hide Dictionaries.Dictionary.Valid, P.Parser.Parsed, E.Emitter.Sized, HashChains.ChainsOk, AllWellFormed;
    var e := c.emitter;
    if c.finished {
      EndedWhole(e.parts, c.d.stream[..e.lzCodeBufDictPos]);
    }
    AllOut(c);
    assert c.d.stream[..|c.d.stream|] == c.d.stream;
    StartIs(e.parts, e.mark, e.markByte, c.d.reset, c.d.stream);
    LaterOk(e.parts, c.d.stream, e.mark, c.d.reset, e.markByte, e.delivered);
  }

  lemma StartIs(p: Parts, mark: nat, start: nat, reset: nat, decoded: seq<Byte>)
    requires StartsAt(p.blocks, p.hdr, mark, start) && Restarted(p.blocks, mark, reset, decoded)
    ensures mark <= |p.blocks| && AllWellFormed(p.blocks) && reset <= |decoded|
  {
  }

  /** The stream without header and checksum that begins at the last full flush. */
  ghost function Rest(c: C.Compressor): I.ZStream
    requires c.emitter.mark <= |c.emitter.parts.blocks| && AllWellFormed(c.emitter.parts.blocks)
    reads c.emitter
  {
    MadeStream(false, Later(c.emitter.parts, c.emitter.mark))
  }

  lemma RestOk(c: C.Compressor)
    requires c.Inv() && c.finished && c.emitter.flushRemaining == 0 && (c.emitter.mark > 0 || !c.emitter.zlib)
    ensures c.emitter.mark <= |c.emitter.parts.blocks| && AllWellFormed(c.emitter.parts.blocks) && c.d.reset <= |c.d.stream|
    ensures I.ZStreamOk(Rest(c)) && !Rest(c).zlib && BlocksOut(Rest(c).blocks, []) == c.d.stream[c.d.reset..]
    ensures c.emitter.markByte <= |c.emitter.delivered| && I.ZStreamBits(Rest(c)) <= Bytes(c.emitter.delivered[c.emitter.markByte..])
  {
    hide C.Compressor.Inv, Joined, PartsOk, BlocksBits, BlocksOut, BlocksOk, I.ZStreamOk, I.ZStreamBits, Bytes, MadeStream;
    hide AllWellFormed;
    HandedOutSince(c);
    PartsAreStream(false, Later(c.emitter.parts, c.emitter.mark), c.d.stream[c.d.reset..], 1);
    NotZlib(Later(c.emitter.parts, c.emitter.mark));
  }

  lemma NotZlib(p: Parts)
    ensures !MadeStream(false, p).zlib
  {
  }

  /**
    A decoder that gets only what has been handed out after the last full flush, in whatever portions: when the compressor is
    done, what comes out is what was put in after that flush.
   */
  method DecodeRest(c: C.Compressor, bytes: seq<Byte>, calls: seq<Read>) returns (ended: bool, out: seq<Byte>)
    requires c.Inv() && c.finished && c.emitter.flushRemaining == 0 && (c.emitter.mark > 0 || !c.emitter.zlib)
    requires c.emitter.markByte <= |c.emitter.delivered| && bytes == c.emitter.delivered[c.emitter.markByte..]
    requires c.d.reset <= |c.d.stream|
    ensures out <= c.d.stream[c.d.reset..] && (ended ==> out == c.d.stream[c.d.reset..])
    ensures Generous(calls) && |calls| > |bytes| + |c.d.stream| - c.d.reset ==> ended
  {
    hide C.Compressor.Inv, I.ZStreamOk, I.ZStreamBits, BlocksOut, Bytes, Rest;
    RestOk(c);
    BlocksFine(Rest(c));
    ended, out := DecodeAll(bytes, calls, false, Rest(c));
  }

  // ---- the same up to another flush ----

  /** One way the stream from there on may go on. */
  ghost function RestCompleted(c: C.Compressor): I.ZStream
    requires c.emitter.mark <= |c.emitter.parts.blocks| && AllWellFormed(c.emitter.parts.blocks)
    reads c.emitter
  {
    MadeStream(false, Ended(false, Later(c.emitter.parts, c.emitter.mark), 1))
  }

  lemma RestCompletedOk(c: C.Compressor)
    requires c.Inv() && c.Drained() && !c.finished && (c.emitter.mark > 0 || !c.emitter.zlib)
    ensures c.emitter.mark <= |c.emitter.parts.blocks| && AllWellFormed(c.emitter.parts.blocks) && c.d.reset <= |c.d.stream|
    ensures c.emitter.markByte <= |c.emitter.delivered|
    ensures var s, e := RestCompleted(c), c.emitter;
      var bytes, first := e.delivered[e.markByte..], e.parts.blocks[e.mark..];
      && I.ZStreamOk(s) && !s.zlib && s.hdr == [] && BlocksOut(s.blocks, []) == c.d.stream[c.d.reset..]
      && I.ZStreamBits(s) <= Bytes(bytes + LastBytes(false, 1)) && s.blocks == first + [LastBlock()]
      && AllWellFormed(first) && BlocksOk(first, []) && BlocksOut(first, []) == c.d.stream[c.d.reset..]
      && 8 * |bytes| == |BlocksBits(first, false)|
  {
    hide C.Compressor.Inv, Joined, PartsOk, BlocksBits, BlocksOut, BlocksOk, I.ZStreamOk, I.ZStreamBits, Bytes, AllWellFormed;
    hide BlockBits, LastBytes, Aligned;
    HandedOutSince(c);
    var p, bytes := Later(c.emitter.parts, c.emitter.mark), c.emitter.delivered[c.emitter.markByte..];
    CanEnd(false, p, c.d.stream[c.d.reset..], 1, bytes);
    PartsAreStream(false, Ended(false, p, 1), c.d.stream[c.d.reset..], 1);
    BlocksOfParts(p, c.d.stream[c.d.reset..]);
    BytesLen(bytes);
  }

  lemma BlocksOfParts(p: Parts, decoded: seq<Byte>)
    requires PartsOk(p, decoded) && !p.ended && p.hdr == []
    ensures AllWellFormed(p.blocks) && BlocksOk(p.blocks, []) && BlocksOut(p.blocks, []) == decoded
    ensures |Joined(p)| == |BlocksBits(p.blocks, false)|
  {
    hide BlocksOk, BlocksOut, BlocksBits, Aligned, WellFormed;
    E.NoBytes();
  }

  /** What has been handed out between the last full flush and a later flush decodes on its own to what was put in in between. */
  method DecodeSinceFullFlush(c: C.Compressor, bytes: seq<Byte>) returns (out: seq<Byte>)
    requires c.Inv() && c.Drained() && !c.finished && (c.emitter.mark > 0 || !c.emitter.zlib)
    requires c.emitter.markByte <= |c.emitter.delivered| && bytes == c.emitter.delivered[c.emitter.markByte..]
    requires c.d.reset <= |c.d.stream|
    ensures out == c.d.stream[c.d.reset..]
  {
    hide C.Compressor.Inv, I.Inflater.Inv, I.Inflater.Whole, I.Inflater.Starved, BlocksBits, BlocksOut, BlocksOk;
    hide I.ZStreamOk, I.ZStreamBits, LastBytes, I.Inflater.AdlerOk, Bytes, RestCompleted, AllWellFormed;
    RestCompletedOk(c);
    AllParsed(c);
    var room := c.d.lookaheadPos + 1;
    ghost var s, later := RestCompleted(c), LastBytes(false, 1);
    ghost var first := c.emitter.parts.blocks[c.emitter.mark..];
    BlocksFine(s);
    var d := NewInflater(bytes + later, false, room, false, s);
    assert (bytes + later)[0..] == bytes + later && d.reader.inBuf[d.reader.inPos..] == [];
    var status, used, produced := d.Decompress(bytes, true, 0, room, later);
    out := d.window.buf[..produced];
    assert [] + d.window.buf[0..produced] == out;
    if status == I.NeedsMoreInput {
      assert d.all[..|first|] == first;
      CaughtUp(d, |first|);
    }
  }
}
