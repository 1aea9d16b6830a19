/** Runs of mz_deflate: any sequence of pieces of input and flushes, with any room for output in each call. */
module CompressRuns {
  import opened Bits
  import opened StreamFacts
  import Dictionaries
  import E = Emitters
  import P = Parsers
  import C = Compressors
  import N = CompressorInit
  import D = DeflateStreams

  /** What has been handed out is no longer than the flushes allow. */
  lemma SizeBound(c: C.Compressor)
    requires c.Inv()
    ensures 8 * |c.emitter.delivered| <= E.Allowed(|c.d.stream|, c.emitter.flushes, c.emitter.empties)
  {
    hide P.Parser.Parsed, Dictionaries.Dictionary.Valid, E.Emitter.Shape, PartsOk, Joined, Bytes;
    BytesLen(c.emitter.bytes);
    BytesLen(c.emitter.delivered);
  }

  /** What is given to the compressor, and the flush that is to follow it. */
  datatype Piece = Piece(data: seq<Byte>, flush: E.Flush)

  function Data(pieces: seq<Piece>): seq<Byte> {
    if pieces == [] then [] else Data(pieces[..|pieces| - 1]) + pieces[|pieces| - 1].data
  }

  /** The first i pieces, and as many bytes of the next one. */
  function Given(pieces: seq<Piece>, i: nat, from: nat): seq<Byte>
    requires if i < |pieces| then from <= |pieces[i].data| else i == |pieces|
  {
    Data(pieces[..i]) + if i < |pieces| then pieces[i].data[..from] else []
  }

  lemma NextPiece(pieces: seq<Piece>, i: nat)
    requires i < |pieces|
    ensures Given(pieces, i, |pieces[i].data|) == Given(pieces, i + 1, 0)
  {
    var p := pieces[..i + 1];
    assert p[..i] == pieces[..i] && p[i] == pieces[i];
    assert pieces[i].data[..|pieces[i].data|] == pieces[i].data;
    if i + 1 < |pieces| {
      assert pieces[i + 1].data[..0] == [];
    }
  }

  lemma AllGiven(pieces: seq<Piece>)
    ensures Given(pieces, |pieces|, 0) == Data(pieces)
    ensures |pieces| > 0 ==> Given(pieces, 0, 0) == []
  {
    assert pieces[..|pieces|] == pieces;
    if |pieces| > 0 {
      assert pieces[..0] == [] && pieces[0].data[..0] == [];
    }
  }

  function Total(sizes: seq<nat>): nat {
    if sizes == [] then 0 else Total(sizes[..|sizes| - 1]) + sizes[|sizes| - 1]
  }

  /** After how many calls some of the room for output was left. */
  function Unfilled(rooms: seq<nat>, sizes: seq<nat>): nat
    requires |sizes| <= |rooms|
  {
    if sizes == [] then 0
    else Unfilled(rooms, sizes[..|sizes| - 1]) + if sizes[|sizes| - 1] < rooms[|sizes| - 1] then 1 else 0
  }

  /** Rooms that have been filled add up. */
  lemma {:induction false} Filled(rooms: seq<nat>, sizes: seq<nat>, least: nat)
    requires |sizes| <= |rooms| && forall k :: 0 <= k < |rooms| ==> rooms[k] >= least
    requires forall k :: 0 <= k < |sizes| ==> sizes[k] <= rooms[k]
    ensures Unfilled(rooms, sizes) <= |sizes| && Total(sizes) >= (|sizes| - Unfilled(rooms, sizes)) * least
  {
    if sizes != [] {
      var n := |sizes| - 1;
      Filled(rooms, sizes[..n], least);
      var full := n - Unfilled(rooms, sizes[..n]);
      MulDist(full, least);
      assert |sizes| - Unfilled(rooms, sizes) == if sizes[n] == rooms[n] then full + 1 else full;
    }
  }

  lemma OneMore(rooms: seq<nat>, sizes: seq<nat>, size: nat)
    requires |sizes| < |rooms|
    ensures Total(sizes + [size]) == Total(sizes) + size
    ensures Unfilled(rooms, sizes + [size]) == Unfilled(rooms, sizes) + if size < rooms[|sizes|] then 1 else 0
  {
    assert (sizes + [size])[..|sizes|] == sizes;
  }

  /** A call for what is left of a piece, which is done with if some room for output is left. */
  method Feed(s: D.DeflateStream, piece: Piece, from: nat, room: nat) returns (from': nat, output: seq<Byte>)
    requires s.c.Inv() && s.c.prevStatus == C.Okay && !s.c.wantsToFinish && piece.flush != E.Finish && from <= |piece.data|
    modifies N.Parts(s.c)
    ensures s.c.Inv() && s.c.prevStatus == C.Okay && !s.c.wantsToFinish
    ensures from <= from' <= |piece.data| && s.c.d.stream == old(s.c.d.stream) + piece.data[from..from']
    ensures |output| <= room && s.c.emitter.delivered == old(s.c.emitter.delivered) + output
    ensures |output| < room ==> from' == |piece.data| && s.c.emitter.flushRemaining == 0
    ensures s.c.OneFlush() && s.c.finished == old(s.c.finished)
    ensures s.c.FlushMade() ==> s.c.Settled() && from' == |piece.data| && piece.flush != E.NoFlush
    ensures from == |piece.data| && (room == 0 || old(s.c.emitter.flushRemaining) > 0) ==>
      s.c.OnlyHandedOut() && |output| + s.c.emitter.flushRemaining == old(s.c.emitter.flushRemaining)
    ensures from == |piece.data| && room > 0 && old(s.c.Drained()) && piece.flush != E.NoFlush ==>
      s.c.Settled() && |output| + s.c.emitter.flushRemaining == E.EmptyFlush(s.c.emitter.forceRaw)
  {
    hide C.Compressor.Inv, N.Parts, C.Compressor.Settled;
    var status, used;
    status, used, output := s.Deflate(piece.data[from..], room, piece.flush);
    from' := from + used;
    assert piece.data[from..][..used] == piece.data[from..from'];
  }

  /** Every call has room for output, and no calls in a row have exactly as much as a flush takes that has nothing to flush. */
  ghost predicate Steady(rooms: seq<nat>, e: nat) {
    && (forall k :: 0 <= k < |rooms| ==> rooms[k] > 0)
    && forall i, j :: 0 <= i < j <= |rooms| ==> Total(rooms[i..j]) != e
  }

  /** More room than an empty flush takes is enough, */
  lemma AmpleRooms(rooms: seq<nat>, e: nat)
    requires forall k :: 0 <= k < |rooms| ==> rooms[k] > e
    ensures Steady(rooms, e)
  {
    forall i, j | 0 <= i < j <= |rooms| ensures Total(rooms[i..j]) != e {
      var s := rooms[i..j];
      assert s[|s| - 1] == rooms[j - 1];
    }
  }

  lemma {:induction false} TotalEqual(rooms: seq<nat>, room: nat)
    requires forall k :: 0 <= k < |rooms| ==> rooms[k] == room
    ensures Total(rooms) == |rooms| * room
  {
    if rooms != [] {
      TotalEqual(rooms[..|rooms| - 1], room);
      MulSub(|rooms|, 1, room);
    }
  }

  /** and so is always the same room, unless that divides what an empty flush takes. */
  lemma EqualRooms(rooms: seq<nat>, room: nat, e: nat)
    requires room > 0 && e % room != 0 && forall k :: 0 <= k < |rooms| ==> rooms[k] == room
    ensures Steady(rooms, e)
  {
    forall i, j | 0 <= i < j <= |rooms| ensures Total(rooms[i..j]) != e {
      TotalEqual(rooms[i..j], room);
      NoRemainder(j - i, room);
    }
  }

  lemma NoRemainder(k: nat, room: nat)
    requires room > 0
    ensures k * room % room == 0
  {
    DivModUnique(k * room, room, k, 0);
  }

  /** How many blocks flushes have made, of some bytes and of none, how many bytes wait, and whether all else has been done. */
  datatype Counts = Counts(flushes: nat, empties: nat, waiting: nat, settled: bool)

  ghost function CountsOf(c: C.Compressor): Counts
    reads c.emitter, c.d
  {
    Counts(c.emitter.flushes, c.emitter.empties, c.emitter.flushRemaining, c.Settled())
  }

  /**
    With i of the pieces done with: made says that the flush of the next one has made a block, and again that it has made
    another one, of no bytes, in a call since which the rooms from start on have been filled.
   */
  ghost predicate FewFlushes(n: Counts, i: nat, made: bool, again: bool, rooms: seq<nat>, start: nat, calls: nat, e: nat) {
    && n.flushes <= i + (if made then 1 else 0) && n.flushes + n.empties <= calls && (made ==> n.settled) && (again ==> made)
    && (Steady(rooms, e) ==>
          && n.flushes + n.empties <= 2 * i + (if made then 1 else 0) + (if again then 1 else 0)
          && (again ==> start < calls <= |rooms| && n.waiting > 0 && Total(rooms[start..calls]) + n.waiting == e))
  }

  lemma OneRoomMore(rooms: seq<nat>, start: nat, calls: nat)
    requires start <= calls < |rooms|
    ensures Total(rooms[start..calls + 1]) == Total(rooms[start..calls]) + rooms[calls]
    ensures start == calls ==> Total(rooms[start..calls]) == 0
  {
    var s := rooms[start..calls + 1];
    assert s[..|s| - 1] == rooms[start..calls] && s[|s| - 1] == rooms[calls];
  }

  /** What a call has done that got nothing more to take in, if the flush has made its block already. */
  predicate Repeated(n: Counts, n': Counts, size: nat, room: nat, e: nat) {
    if room == 0 || n.waiting > 0 then n'.flushes == n.flushes && n'.empties == n.empties && size + n'.waiting == n.waiting
    else n'.flushes == n.flushes && n'.empties <= n.empties + 1 && size + n'.waiting == e
  }

  /** One more call has filled its room. */
  lemma CallFilled(n: Counts, n': Counts, i: nat, made: bool, again: bool, rooms: seq<nat>, start: nat, calls: nat, e: nat)
    returns (made': bool, again': bool, start': nat)
    requires FewFlushes(n, i, made, again, rooms, start, calls, e) && calls < |rooms|
    requires n.flushes <= n'.flushes && n.empties <= n'.empties && n'.flushes + n'.empties <= n.flushes + n.empties + 1
    requires n'.flushes + n'.empties > n.flushes + n.empties || made ==> n'.settled
    requires made ==> Repeated(n, n', rooms[calls], rooms[calls], e)
    ensures made' == (made || n'.flushes + n'.empties > n.flushes + n.empties)
    ensures FewFlushes(n', i, made', again', rooms, start', calls + 1, e)
  {
    hide Total;
    made' := made || n'.flushes + n'.empties > n.flushes + n.empties;
    again' := made && (again || n.waiting == 0);
    start' := if again then start else calls;
    if Steady(rooms, e) {
      OneRoomMore(rooms, start', calls);
      assert Total(rooms[start'..calls + 1]) != e;
    }
  }

  /** Feed, with the flushes counted. */
  method FeedCounted(s: D.DeflateStream, piece: Piece, from: nat, rooms: seq<nat>, calls: nat, ghost i: nat, ghost made: bool,
                     ghost again: bool, ghost start: nat)
    returns (from': nat, output: seq<Byte>, ghost made': bool, ghost again': bool, ghost start': nat)
    requires s.c.Inv() && s.c.prevStatus == C.Okay && !s.c.wantsToFinish && piece.flush != E.Finish && from <= |piece.data|
    requires calls < |rooms|
    requires FewFlushes(CountsOf(s.c), i, made, again, rooms, start, calls, E.EmptyFlush(s.c.emitter.forceRaw))
    requires made ==> from == |piece.data| && piece.flush != E.NoFlush
    modifies N.Parts(s.c)
    ensures s.c.Inv() && s.c.prevStatus == C.Okay && !s.c.wantsToFinish && s.c.finished == old(s.c.finished)
    ensures from <= from' <= |piece.data| && s.c.d.stream == old(s.c.d.stream) + piece.data[from..from']
    ensures |output| <= rooms[calls] && s.c.emitter.delivered == old(s.c.emitter.delivered) + output
    ensures made' ==> from' == |piece.data| && piece.flush != E.NoFlush
    ensures |output| < rooms[calls] ==> from' == |piece.data| && made' == again' == false
    ensures FewFlushes(CountsOf(s.c), if |output| < rooms[calls] then i + 1 else i, made', again', rooms, start', calls + 1,
                       E.EmptyFlush(s.c.emitter.forceRaw))
  {
    hide C.Compressor.Inv, N.Parts, Total, Joined, Steady, E.EmptyFlush;
    ghost var e, before := E.EmptyFlush(s.c.emitter.forceRaw), CountsOf(s.c);
    from', output := Feed(s, piece, from, rooms[calls]);
    made', again', start' := false, false, 0;
    if |output| == rooms[calls] {
      made', again', start' := CallFilled(before, CountsOf(s.c), i, made, again, rooms, start, calls, e);
    }
  }

  /** The last call, with the flushes counted. */
  method FinishCounted(s: D.DeflateStream, rooms: seq<nat>, calls: nat, ghost i: nat, ghost made: bool, ghost start: nat)
    returns (ended: bool, output: seq<Byte>)
    requires s.c.Inv() && s.c.prevStatus == C.Okay && calls < |rooms| && made == s.c.finished
    requires FewFlushes(CountsOf(s.c), i, made, false, rooms, start, calls, E.EmptyFlush(s.c.emitter.forceRaw))
    modifies N.Parts(s.c)
    ensures s.c.Inv() && s.c.d.stream == old(s.c.d.stream)
    ensures |output| <= rooms[calls] && s.c.emitter.delivered == old(s.c.emitter.delivered) + output
    ensures FewFlushes(CountsOf(s.c), i, s.c.finished, false, rooms, start, calls + 1, E.EmptyFlush(s.c.emitter.forceRaw))
    ensures if ended then s.c.finished && s.c.emitter.flushRemaining == 0 else s.c.prevStatus == C.Okay && |output| == rooms[calls]
  {
    hide C.Compressor.Inv, N.Parts, Total, Joined, Steady;
    var status, used;
    status, used, output := s.Deflate([], rooms[calls], E.Finish);
    ended := status == D.StreamEnd;
  }

  /**
    All pieces go through the stream, with a flush after each as it says, and then the stream is finished. Each call has the
    room for output that is next in the list; a call that fills it is repeated with what is left. Only when so many rooms have
    been filled that all but one for each piece are used up does the stream not end.
   */
  method CompressAll(s: D.DeflateStream, pieces: seq<Piece>, rooms: seq<nat>)
    returns (ended: bool, bytes: seq<Byte>, sizes: seq<nat>)
    requires s.c.Inv() && s.c.prevStatus == C.Okay && !s.c.wantsToFinish && s.c.d.stream == [] && s.c.emitter.delivered == []
    requires !s.c.finished && s.c.emitter.flushes == s.c.emitter.empties == 0
    requires forall i :: 0 <= i < |pieces| ==> pieces[i].flush != E.Finish
    modifies N.Parts(s.c)
    ensures s.c.Inv() && bytes == s.c.emitter.delivered
    ensures |sizes| <= |rooms| && |bytes| == Total(sizes) && forall k :: 0 <= k < |sizes| ==> sizes[k] <= rooms[k]
    ensures ended ==> s.c.finished && s.c.emitter.flushRemaining == 0 && s.c.d.stream == Data(pieces)
    ensures !ended ==> |sizes| == |rooms| && Unfilled(rooms, sizes) <= |pieces|
    ensures 8 * |bytes| <= E.Allowed(|Data(pieces)|, |pieces| + 1, |sizes|)
    ensures Steady(rooms, E.EmptyFlush(s.c.emitter.forceRaw)) ==> 8 * |bytes| <= E.Allowed(|Data(pieces)|, |pieces| + 1, |pieces|)
  {
    hide C.Compressor.Inv, N.Parts, C.Compressor.Drained, Data, Given, Total, Unfilled, E.Allowed, Steady;
    ended, bytes, sizes := false, [], [];
    var i, from := 0, 0;
    ghost var made, again, start := false, false, 0;
    NothingSoFar(rooms);
    AllGiven(pieces);
    while |sizes| < |rooms| && !ended
      invariant s.c.Inv() && bytes == s.c.emitter.delivered && |bytes| == Total(sizes) && |sizes| <= |rooms|
      invariant forall k :: 0 <= k < |sizes| ==> sizes[k] <= rooms[k]
      invariant i <= |pieces| && if i < |pieces| then from <= |pieces[i].data| else from == 0
      invariant s.c.d.stream == Given(pieces, i, from)
      invariant FewFlushes(CountsOf(s.c), i, made, again, rooms, start, |sizes|, E.EmptyFlush(s.c.emitter.forceRaw))
      invariant made && i < |pieces| ==> from == |pieces[i].data| && pieces[i].flush != E.NoFlush
      invariant i == |pieces| ==> made == s.c.finished && !again
      invariant if ended then i == |pieces| && s.c.finished && s.c.emitter.flushRemaining == 0
                else s.c.prevStatus == C.Okay && (i < |pieces| ==> !s.c.wantsToFinish && !s.c.finished)
                     && Unfilled(rooms, sizes) <= i
    {
      var output;
      if i < |pieces| {
        ghost var from0 := from;
        from, output, made, again, start := FeedCounted(s, pieces[i], from, rooms, |sizes|, i, made, again, start);
        GivenMore(pieces, i, from0, from);
        if |output| < rooms[|sizes|] {
          NextPiece(pieces, i);
          i, from := i + 1, 0;
        }
      } else {
        ended, output := FinishCounted(s, rooms, |sizes|, i, made, start);
        made := s.c.finished;
      }
      OneMore(rooms, sizes, |output|);
      bytes, sizes := bytes + output, sizes + [|output|];
    }
    SizeBound(s.c);
    NotTooMuch(pieces, i, from);
    AllowedMore(|s.c.d.stream|, s.c.emitter.flushes, s.c.emitter.empties, |Data(pieces)|, |pieces| + 1, |sizes|);
    if Steady(rooms, E.EmptyFlush(s.c.emitter.forceRaw)) {
      AllowedSteady(|s.c.d.stream|, s.c.emitter.flushes, s.c.emitter.empties, |Data(pieces)|, |pieces|);
    }
  }

  lemma AllowedMore(size: nat, flushes: nat, empties: nat, size': nat, flushes': nat, empties': nat)
    requires size <= size' && flushes <= flushes' && empties <= empties'
    ensures E.Allowed(size, flushes, empties) <= E.Allowed(size', flushes', empties')
  {
  }

  lemma AllowedSteady(size: nat, flushes: nat, empties: nat, size': nat, n: nat)
    requires size <= size' && flushes <= n + 1 && flushes + empties <= 2 * n + 1
    ensures E.Allowed(size, flushes, empties) <= E.Allowed(size', n + 1, n)
  {
  }

  lemma {:induction false} NotTooMuch(pieces: seq<Piece>, i: nat, from: nat)
    requires if i < |pieces| then from <= |pieces[i].data| else i == |pieces|
    ensures |Given(pieces, i, from)| <= |Data(pieces)|
    decreases |pieces| - i
  {
    if i < |pieces| {
      NextPiece(pieces, i);
      NotTooMuch(pieces, i + 1, 0);
    } else {
      AllGiven(pieces);
    }
  }

  lemma NothingSoFar(rooms: seq<nat>)
    ensures Total([]) == 0 && Unfilled(rooms, []) == 0 && Data([]) == []
  {
  }

  lemma GivenMore(pieces: seq<Piece>, i: nat, from: nat, from': nat)
    requires i < |pieces| && from <= from' <= |pieces[i].data|
    ensures Given(pieces, i, from) + pieces[i].data[from..from'] == Given(pieces, i, from')
  {
    assert pieces[i].data[..from] + pieces[i].data[from..from'] == pieces[i].data[..from'];
  }

  /**
    A flush that is repeated because its output has filled the room, when the room divides what an empty flush takes: it fills
    the room again.
   */
  method FlushAgain(s: D.DeflateStream, room: nat) returns (output: seq<Byte>)
    requires s.c.Inv() && s.c.prevStatus == C.Okay && !s.c.wantsToFinish && s.c.Settled()
    requires room > 0 && E.EmptyFlush(s.c.emitter.forceRaw) % room == 0 && s.c.emitter.flushRemaining % room == 0
    modifies N.Parts(s.c)
    ensures s.c.Inv() && s.c.prevStatus == C.Okay && !s.c.wantsToFinish && s.c.Settled() && s.c.d.stream == old(s.c.d.stream)
    ensures s.c.emitter.flushRemaining % room == 0 && |output| == room
    ensures old(s.c.Drained()) ==> |output| + s.c.emitter.flushRemaining == E.EmptyFlush(s.c.emitter.forceRaw)
    ensures s.c.emitter.delivered == old(s.c.emitter.delivered) + output
  {
    hide C.Compressor.Inv, N.Parts, Joined;
    var from;
    var e, waiting := E.EmptyFlush(s.c.emitter.forceRaw), s.c.emitter.flushRemaining;
    from, output := Feed(s, Piece([], E.SyncFlush), 0, room);
    LessOne(if waiting > 0 then waiting else e, room);
  }

  lemma LessOne(n: nat, room: nat)
    requires n > 0 && room > 0 && n % room == 0
    ensures n >= room && (n - room) % room == 0
  {
    assert n == n / room * room;
    MulSub(n / room, 1, room);
    NoRemainder(n / room - 1, room);
  }

  /**
    The caller that repeats it never gets to the end: any number of calls hand out as much as they have room for, and nothing
    of it stands for any input. So a room that is always the same is enough exactly if it does not divide what an empty flush
    takes.
   */
  method NeverEnds(s: D.DeflateStream, room: nat, n: nat)
    requires s.c.Inv() && s.c.prevStatus == C.Okay && !s.c.wantsToFinish && s.c.Drained()
    requires room > 0 && E.EmptyFlush(s.c.emitter.forceRaw) % room == 0
    modifies N.Parts(s.c)
    ensures s.c.Inv() && s.c.prevStatus == C.Okay && s.c.Settled() && s.c.d.stream == old(s.c.d.stream)
    ensures |s.c.emitter.delivered| == old(|s.c.emitter.delivered|) + n * room
  {
    hide C.Compressor.Inv, N.Parts, C.Compressor.Settled;
    for i := 0 to n
      invariant s.c.Inv() && s.c.prevStatus == C.Okay && !s.c.wantsToFinish && s.c.Settled() && s.c.d.stream == old(s.c.d.stream)
      invariant s.c.emitter.flushRemaining % room == 0
      invariant |s.c.emitter.delivered| == old(|s.c.emitter.delivered|) + i * room
    {
      var output := FlushAgain(s, room);
      MulSub(i + 1, 1, room);
    }
  }

  /** Such a run from the start: without any input, the output gets as long as one likes. */
  method EndlessOutput(o: N.Options, wide: bool, words: bool, room: nat, n: nat) returns (c: C.Compressor)
    requires o.probes <= 0xFFF && room > 0 && E.EmptyFlush(o.forceRaw) % room == 0
    ensures c.Inv() && c.prevStatus == C.Okay && c.d.stream == [] && |c.emitter.delivered| >= n * room
  {
    hide C.Compressor.Inv, N.Parts, C.Compressor.Settled;
    c := N.NewCompressor(o, wide, words);
    var s := new D.DeflateStream(c);
    var status, used, produced := s.Deflate([], 17, E.SyncFlush);
    SizeBound(c);
    NeverEnds(s, room, n);
  }
}
