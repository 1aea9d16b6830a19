/** tdefl_compress_normal: the lazy or greedy parser, which turns the input into tokens with at most one match pending. */
module Parsers {
  import opened Bits
  import opened Lz
  import opened TokenBuffers
  import opened HashChains
  import opened Dictionaries
  import opened LazyParsing
  import opened BlockSenders
  import opened DynamicBlocks
  import opened Emitters
  import opened StreamFacts
  import opened Restarts
  import opened Adler32

  /** A match that may be recorded for the bytes at pos: it does not reach back over the last full flush. */
  ghost predicate Matched(stream: seq<Byte>, reset: nat, pos: nat, dist: nat, len: nat) {
    MIN_MATCH_LEN <= len <= MAX_MATCH_LEN && dist <= LZ_DICT_SIZE && reset + dist <= pos && IsMatch(stream, pos, dist, len)
  }

  lemma MatchStays(stream: seq<Byte>, more: seq<Byte>, pos: nat, dist: nat, len: nat)
    requires IsMatch(stream, pos, dist, len)
    ensures IsMatch(stream + more, pos, dist, len)
  {
    forall i | pos <= i < pos + len ensures Repeats(stream + more, i, dist) {
      assert Repeats(stream, i, dist);
    }
  }

  /** A literal is the next byte of the stream. */
  lemma LiteralNext(ts: seq<Token>, stream: seq<Byte>, reset: nat, from: nat, at: nat)
    requires reset <= from <= at < |stream| && TokensOk(ts, from) && TokensOk(ts, from - reset)
    requires Expand(ts, stream[..from]) == stream[..at]
    ensures var ts' := ts + [Lit(stream[at])];
      TokensOk(ts', from) && TokensOk(ts', from - reset) && Expand(ts', stream[..from]) == stream[..at + 1]
  {
    hide TokensOk, Expand, TokensLen;
    ExpandLen(ts, stream[..from]);
    ExpandAppend(ts, Lit(stream[at]), stream[..from]);
    TokensMore(ts, Lit(stream[at]), from - reset);
    assert stream[..at] + [stream[at]] == stream[..at + 1];
  }

  /** A match is the next bytes of the stream. */
  lemma MatchNext(ts: seq<Token>, stream: seq<Byte>, reset: nat, from: nat, at: nat, dist: nat, len: nat)
    requires reset <= from <= at <= |stream| && TokensOk(ts, from) && TokensOk(ts, from - reset)
    requires Expand(ts, stream[..from]) == stream[..at] && Matched(stream, reset, at, dist, len)
    ensures Recordable(Match(len, dist)) && at + len <= |stream|
    ensures var ts' := ts + [Match(len, dist)];
      TokensOk(ts', from) && TokensOk(ts', from - reset) && Expand(ts', stream[..from]) == stream[..at + len]
  {
    hide TokensOk, Expand, TokensLen, CopyMatch;
    ExpandLen(ts, stream[..from]);
    ExpandAppend(ts, Match(len, dist), stream[..from]);
    TokensMore(ts, Match(len, dist), from - reset);
    CopyIs(stream, at, len, dist);
  }

  lemma {:induction false} TokensMore(ts: seq<Token>, t: Token, n: nat)
    requires TokensOk(ts, n) && TokenOk(t, n + TokensLen(ts))
    ensures TokensOk(ts + [t], n)
  {
    var all := ts + [t];
    if ts == [] {
      assert all[0] == t && all[1..] == [];
    } else {
      TokensMore(ts[1..], t, n + TokenLen(ts[0]));
      assert all[0] == ts[0] && all[1..] == ts[1..] + [t];
    }
  }

  lemma TakenMore(src: seq<Byte>, used: nat, taken: nat)
    requires used + taken <= |src|
    ensures src[..used] + src[used..][..taken] == src[..used + taken]
  {
  }

  lemma AllTaken(stream: seq<Byte>, src: seq<Byte>, used: nat)
    requires used <= |src|
    ensures stream + src[..used] + src[used..] == stream + src
  {
  }

  class Parser {
    const emitter: Emitter
    const d: Dictionary
    const tokens: TokenBuffer
    /** TDEFL_GREEDY_PARSING_FLAG, TDEFL_RLE_MATCHES, TDEFL_FILTER_MATCHES */
    const greedy: bool
    const rleMatches: bool
    const filterMatches: bool
    /** Whether matches are compared two bytes at a time. */
    const words: bool
    /** Whether the input is parsed by tdefl_compress_fast. */
    const fast: bool

    var savedDist: nat
    var savedLen: nat
    var savedLit: Byte

    ghost predicate Shape() {
      && d == emitter.d && tokens == emitter.tokens && emitter.Shape() && (fast ==> !emitter.forceRaw)
      && d.maxLookahead == (if fast then FAST_LOOKAHEAD else MAX_MATCH_LEN)
      && d.next !in emitter.sender.maker.TableArrays() && d.hash !in emitter.sender.maker.TableArrays()
    }

    /** The flags that bear on parsing. */
    ghost function ParseRules(): Rules {
      Rules(greedy, rleMatches, filterMatches, emitter.forceRaw, d.maxProbes0, d.maxProbes1)
    }

    ghost function Held(): Pending
      reads this`savedDist, this`savedLen, this`savedLit
    {
      if savedLen > 0 then Waiting(savedDist, savedLen, savedLit) else Nothing
    }

    ghost function Now(): State
      reads this`savedDist, this`savedLen, this`savedLit, emitter`tokensSent, tokens, d`stream, d`reset, d`lookaheadPos, d`dictSize
    {
      State(d.stream, d.reset, d.lookaheadPos, d.dictSize, Held(), emitter.tokensSent, tokens.Tokens())
    }

    ghost function FastNow(ready: bool): FastState
      reads emitter`tokensSent, tokens, d`stream, d`reset, d`lookaheadPos, d`dictSize, d.hash
    {
      FastState(d.stream, d.reset, d.lookaheadPos, d.dictSize, d.hash[..], ready, emitter.tokensSent, tokens.Tokens())
    }

    /** The match found at the position before the lookahead, if the parser waits to see whether a longer one follows. */
    ghost predicate HeldOk(pos: nat)
      reads this, d`stream, d`reset
    {
      savedLen > 0 ==>
        && savedLen < 128 && pos >= 1 && Matched(d.stream, d.reset, pos - 1, savedDist, savedLen)
        && d.stream[pos - 1] == savedLit
    }

    /** The tokens stand for everything before pos, except for one byte if a match is pending. */
    ghost predicate Parsed(pos: nat)
      reads this, emitter`lzCodeBufDictPos, tokens, tokens.codeBuf, tokens.litCount, tokens.distCount, d`stream, d`reset
    {
      && tokens == emitter.tokens && d == emitter.d && emitter.TokensSoFar() && HeldOk(pos)
      && emitter.lzCodeBufDictPos + tokens.totalLzBytes + (if savedLen > 0 then 1 else 0) == pos
    }

    constructor (emitter: Emitter, greedy: bool, rleMatches: bool, filterMatches: bool, words: bool, fast: bool)
      ensures this.emitter == emitter && d == emitter.d && tokens == emitter.tokens && savedLen == 0
      ensures this.greedy == greedy && this.rleMatches == rleMatches && this.filterMatches == filterMatches && this.fast == fast
      ensures this.words == words
    {
      this.emitter, d, tokens := emitter, emitter.d, emitter.tokens;
      this.greedy, this.rleMatches, this.filterMatches, this.words, this.fast := greedy, rleMatches, filterMatches, words, fast;
      savedDist, savedLen, savedLit := 0, 0, 0;
    }

    // ---- recording ----

    method RecordLiteral(lit: Byte)
      requires Shape() && emitter.TokensSoFar() && tokens.codePos + 2 <= LZ_CODE_BUF_SIZE
      requires emitter.lzCodeBufDictPos + tokens.totalLzBytes < |d.stream|
      requires d.stream[emitter.lzCodeBufDictPos + tokens.totalLzBytes] == lit
      modifies tokens, tokens.codeBuf, tokens.litCount
      ensures emitter.TokensSoFar() && tokens.totalLzBytes == old(tokens.totalLzBytes) + 1
      ensures tokens.codePos <= old(tokens.codePos) + 2 && tokens.Tokens() == old(tokens.Tokens()) + [Lit(lit)]
    {
      hide TokenBuffer.Valid, TokenBuffer.Tokens, TokensOk, Expand, Emitter.Shape;
      LiteralNext(tokens.Tokens(), d.stream, d.reset, emitter.lzCodeBufDictPos, emitter.lzCodeBufDictPos + tokens.totalLzBytes);
      tokens.RecordLiteral(lit);
    }

    method RecordMatch(len: nat, dist: nat)
      requires Shape() && emitter.TokensSoFar() && tokens.codePos + 4 <= LZ_CODE_BUF_SIZE
      requires Matched(d.stream, d.reset, emitter.lzCodeBufDictPos + tokens.totalLzBytes, dist, len)
      modifies tokens, tokens.codeBuf, tokens.litCount, tokens.distCount
      ensures emitter.TokensSoFar() && tokens.totalLzBytes == old(tokens.totalLzBytes) + len
      ensures tokens.codePos <= old(tokens.codePos) + 4 && tokens.Tokens() == old(tokens.Tokens()) + [Match(len, dist)]
    {
      hide TokenBuffer.Valid, TokenBuffer.Tokens, TokensOk, Expand, Emitter.Shape;
      MatchNext(tokens.Tokens(), d.stream, d.reset, emitter.lzCodeBufDictPos, emitter.lzCodeBufDictPos + tokens.totalLzBytes,
                dist, len);
      tokens.RecordMatch(len, dist);
    }

    // ---- one step of the parser ----

    /** What the search comes up with: no match, or one that fits the lookahead. */
    ghost predicate Candidate(dist: nat, len: nat)
      reads this, d
    {
      if dist == 0 then len == 0 || len == (if savedLen > 0 then savedLen else MIN_MATCH_LEN - 1)
      else len <= d.lookaheadSize && Matched(d.stream, d.reset, d.lookaheadPos, dist, len)
    }

    method Search() returns (dist: nat, len: nat)
      requires Shape() && !fast && d.Valid() && d.Chained() && d.lookaheadSize > 0 && (savedLen > 0 ==> 3 <= savedLen < 128)
      ensures Candidate(dist, len) && Sought(ParseRules(), d.Seen(), Held(), dist, len)
    {
      hide Holds, IsMatch, Emitter.Shape, NoneBetter, ChainsOk;
      dist, len := 0, if savedLen > 0 then savedLen else MIN_MATCH_LEN - 1;
      if rleMatches || emitter.forceRaw {
        if d.dictSize != 0 && !emitter.forceRaw {
          dist, len := d.FindRun();
        }
      } else if words {
        dist, len := d.FindMatchWords(dist, len);
      } else {
        dist, len := d.FindMatchBytes(dist, len);
      }
    }

    method FindCandidate() returns (dist: nat, len: nat)
      requires Shape() && !fast && d.Valid() && d.Chained() && d.lookaheadSize > 0 && (savedLen > 0 ==> 3 <= savedLen < 128)
      ensures Candidate(dist, len) && (emitter.forceRaw ==> dist == 0) && Picked(ParseRules(), d.Seen(), Held(), dist, len)
    {
      hide Holds, IsMatch, Emitter.Shape, Sought, ChainsOk, Candidate;
      dist, len := Search();
      NoCandidate();
      RawFindsNone(dist, len);
      ghost var dist0, len0 := dist, len;
      var curPos := d.lookaheadPos % LZ_DICT_SIZE;
      if (len == MIN_MATCH_LEN && dist >= 8 * 1024) || curPos == dist || (filterMatches && len <= 5) {
        dist, len := 0, 0;
      }
      assert PickedFrom(ParseRules(), d.Seen(), Held(), dist0, len0, dist, len);
    }

    lemma NoCandidate()
      ensures Candidate(0, 0)
    {
    }

    lemma RawFindsNone(dist: nat, len: nat)
      requires Sought(ParseRules(), d.Seen(), Held(), dist, len)
      ensures emitter.forceRaw ==> dist == 0
    {
      hide IsRun, IsLongest;
    }

    /** The byte at the current position. */
    method Current() returns (c: Byte)
      requires Shape() && d.Valid() && d.lookaheadSize > 0
      ensures c == d.stream[d.lookaheadPos]
    {
      hide Holds, Emitter.Shape;
      ReadAhead(d.dict[..], d.stream, d.lookaheadPos, 0);
      c := d.dict[d.lookaheadPos % LZ_DICT_SIZE];
    }

    /** The match is pending from now on. */
    method Save(dist: nat, len: nat)
      requires Shape() && d.Valid() && d.lookaheadSize > 0 && len < 128 && Matched(d.stream, d.reset, d.lookaheadPos, dist, len)
      modifies this
      ensures savedLen == len > 0 && HeldOk(d.lookaheadPos + 1) && Held() == Waiting(dist, len, d.stream[d.lookaheadPos])
    {
      hide Holds, Emitter.Shape, IsMatch;
      savedLit := Current();
      savedDist, savedLen := dist, len;
    }

    lemma Apart()
      requires Shape()
      ensures d.dict != tokens.codeBuf && d.dict != emitter.out.buf && tokens.codeBuf != emitter.out.buf
      ensures this !in emitter.sender.maker.TableArrays() && emitter !in emitter.sender.maker.TableArrays()
    {
      hide BlockMaker.Shape, Dictionary.Shape;
      emitter.sender.Apart();
    }

    /** What one step does to the tokens and to what is pending. */
    twostate predicate Stepped(dist: nat, len: nat, move: nat)
      reads this, tokens, d
    {
      old(d.lookaheadPos) < |old(d.stream)|
      && var o := Decide(ParseRules(), old(Held()), dist, len, old(d.stream[d.lookaheadPos]));
         tokens.Tokens() == old(tokens.Tokens()) + o.tokens && Held() == o.pending && move == o.move
    }

    /** A match is pending: it is recorded, unless a longer one starts at the current position. */
    method StepPending(dist: nat, len: nat) returns (move: nat)
      requires Shape() && d.Valid() && d.lookaheadSize > 0 && Parsed(d.lookaheadPos) && Candidate(dist, len) && savedLen > 0
      requires tokens.codePos + 8 <= LZ_CODE_BUF_SIZE
      modifies this, tokens, tokens.codeBuf, tokens.litCount, tokens.distCount
      ensures Parsed(d.lookaheadPos + move) && 1 <= move <= d.lookaheadSize && tokens.codePos <= old(tokens.codePos) + 6
      ensures Stepped(dist, len, move)
    {
      hide Holds, Emitter.Shape, IsMatch, Emitter.TokensSoFar, TokenBuffer.Valid, TokenBuffer.Tokens;
      Apart();
      if len > savedLen {
        RecordLiteral(savedLit);
        if len >= 128 {
          RecordMatch(len, dist);
          savedLen := 0;
          move := len;
        } else {
          Save(dist, len);
          move := 1;
        }
      } else {
        HeldFits();
        RecordMatch(savedLen, savedDist);
        move := savedLen - 1;
        savedLen := 0;
      }
    }

    /** The rest of the pending match is in the lookahead. */
    lemma HeldFits()
      requires d.Valid() && HeldOk(d.lookaheadPos) && savedLen > 0
      ensures 3 <= savedLen <= d.lookaheadSize + 1
    {
    }

    /** No match is pending. */
    method StepFresh(dist: nat, len: nat) returns (move: nat)
      requires Shape() && d.Valid() && d.lookaheadSize > 0 && Parsed(d.lookaheadPos) && Candidate(dist, len) && savedLen == 0
      requires tokens.codePos + 8 <= LZ_CODE_BUF_SIZE
      modifies this, tokens, tokens.codeBuf, tokens.litCount, tokens.distCount
      ensures Parsed(d.lookaheadPos + move) && 1 <= move <= d.lookaheadSize && tokens.codePos <= old(tokens.codePos) + 6
      ensures dist == 0 ==> move == 1 && savedLen == 0 && tokens.totalLzBytes == old(tokens.totalLzBytes) + 1
      ensures Stepped(dist, len, move)
    {
      hide Holds, Emitter.Shape, IsMatch, Emitter.TokensSoFar, TokenBuffer.Valid, TokenBuffer.Tokens;
      move := 1;
      if dist == 0 {
        var c := Current();
        RecordLiteral(c);
      } else if greedy || rleMatches || len >= 128 {
        RecordMatch(len, dist);
        move := len;
      } else {
        Save(dist, len);
      }
    }

    method Step() returns (move: nat, ghost dist: nat, ghost len: nat)
      requires Shape() && !fast && d.Valid() && d.Chained() && d.lookaheadSize > 0 && Parsed(d.lookaheadPos)
      requires tokens.codePos + 8 <= LZ_CODE_BUF_SIZE
      modifies this, tokens, tokens.codeBuf, tokens.litCount, tokens.distCount
      ensures Parsed(d.lookaheadPos + move) && 1 <= move <= d.lookaheadSize && tokens.codePos <= old(tokens.codePos) + 6
      ensures emitter.forceRaw && old(savedLen) == 0 ==>
        move == 1 && savedLen == 0 && tokens.totalLzBytes == old(tokens.totalLzBytes) + 1
      ensures old(Picked(ParseRules(), d.Seen(), Held(), dist, len)) && Stepped(dist, len, move)
    {
      hide Holds, Emitter.Shape, IsMatch, Emitter.TokensSoFar, TokenBuffer.Valid, Candidate, Picked, Decide, ChainsOk;
      hide TokenBuffer.Tokens;
      var back, n := FindCandidate();
      dist, len := back, n;
      if savedLen > 0 {
        move := StepPending(back, n);
      } else {
        move := StepFresh(back, n);
      }
    }

    // ---- the loop ----

    ghost predicate Core()
      reads this, emitter, d, d.dict, d.next, d.hash, tokens, tokens.codeBuf, tokens.litCount, tokens.distCount
      reads emitter.out, emitter.out.buf
    {
      && Shape() && d.Valid() && Parsed(d.lookaheadPos) && emitter.StreamOk() && emitter.BufferOk()
      && (if fast then savedLen == 0 else d.Chained()) && (emitter.forceRaw ==> savedLen == 0)
    }

    /** In addition, there is room in the code buffer for what one step records. */
    ghost predicate Inv()
      reads this, emitter, d, d.dict, d.next, d.hash, tokens, tokens.codeBuf, tokens.litCount, tokens.distCount
      reads emitter.out, emitter.out.buf
    {
      Core() && tokens.codePos + 8 <= LZ_CODE_BUF_SIZE
    }

    /**
      Between calls the lookahead is not full; and where raw blocks are forced, no match is pending and the block to come has
      not got long enough to be sent.
     */
    ghost predicate Resting()
      reads this, d`lookaheadSize, tokens`totalLzBytes
    {
      && d.lookaheadSize < (if fast then FAST_LOOKAHEAD else MAX_MATCH_LEN)
      && (!fast && emitter.forceRaw ==> savedLen == 0 && tokens.totalLzBytes <= 31 * 1024)
    }

    method TakeBytes(src: seq<Byte>) returns (taken: nat)
      requires Inv() && !fast
      modifies d`lookaheadSize, d`dictSize, d`stream, d.dict, d.next, d.hash
      ensures Inv() && taken <= |src| && d.stream == old(d.stream) + src[..taken]
      ensures d.lookaheadSize == old(d.lookaheadSize) + taken <= MAX_MATCH_LEN
      ensures taken == |src| || d.lookaheadSize == MAX_MATCH_LEN
      ensures d.dictSize == Shrunk(old(d.dictSize), d.lookaheadSize)
    {
      hide Holds, IsMatch, TokenBuffer.Valid, BlockSender.Shape, PartsOk, Joined, TokensOk, Expand, ChainsOk;
      hide Emitter.Sized, Emitter.BufferOk, Restarted, StartsAt, AllAsked;
      Apart();
      taken := d.TakeIn(src);
      ghost var before := old(d.stream);
      assert d.stream[..emitter.lzCodeBufDictPos] == before[..emitter.lzCodeBufDictPos];
      ghost var n := emitter.lzCodeBufDictPos + tokens.totalLzBytes;
      assert d.stream[..n] == before[..n];
      if savedLen > 0 {
        MatchStays(before, src[..taken], d.lookaheadPos - 1, savedDist, savedLen);
      }
    }

    method TakeIn(src: seq<Byte>, ghost g: Goal) returns (taken: nat)
      requires Inv() && !fast && d.stream + src == g.whole
      modifies d`lookaheadSize, d`dictSize, d`stream, d.dict, d.next, d.hash
      ensures Inv() && taken <= |src| && d.stream == old(d.stream) + src[..taken]
      ensures d.lookaheadSize == old(d.lookaheadSize) + taken <= MAX_MATCH_LEN
      ensures taken == |src| || d.lookaheadSize == MAX_MATCH_LEN
      ensures TakesIn(old(Now()), Now(), g)
    {
      hide Core, BlockMaker.TableArrays;
      taken := TakeBytes(src);
      CoreAhead();
    }

    lemma AheadIs()
      requires d.Valid()
      ensures |d.stream| == d.lookaheadPos + d.lookaheadSize && d.lookaheadSize <= d.maxLookahead && d.hash.Length == HASH_SIZE
    {
      hide Holds;
    }

    lemma CoreAhead()
      requires Core()
      ensures |d.stream| == d.lookaheadPos + d.lookaheadSize
    {
      hide Emitter.Shape, Emitter.StreamOk, Emitter.BufferOk, Parsed, Holds, ChainsOk;
    }

    lemma LongEnough()
      requires Core()
      ensures tokens.codePos > LZ_CODE_BUF_SIZE - 8 ==> tokens.totalLzBytes > 31 * 1024
    {
      hide Dictionary.Valid, Emitter.Shape, Emitter.StreamOk, Emitter.BufferOk, TokensOk, Expand, TokenBuffer.Valid;
      if tokens.codePos > LZ_CODE_BUF_SIZE - 8 {
        tokens.FullMeans();
      }
    }

    lemma SizesAre()
      requires Core()
      ensures tokens.codePos == CodeSize(tokens.Tokens()) && tokens.totalLzBytes == TokensLen(tokens.Tokens())
    {
      hide Dictionary.Valid, Emitter.Shape, Emitter.StreamOk, Emitter.BufferOk, TokensOk, Expand, TokenBuffer.Valid, CodeSize;
      tokens.SizeIs();
    }

    /** Where raw blocks are forced, a block is sent before its bytes can leave the dictionary. */
    lemma StillThere()
      requires Core() && (emitter.forceRaw ==> tokens.totalLzBytes <= 31 * 1024 + 1)
      ensures emitter.forceRaw ==> emitter.InDictionary()
    {
      hide Emitter.Shape, Emitter.StreamOk, Emitter.BufferOk, TokensOk, Expand, TokenBuffer.Valid, Holds, ChainsOk;
    }

    /** The block is sent when it is due, at the latest when the code buffer is full. */
    method FlushWhen(due: bool, adler: nat)
      requires Core() && emitter.flushRemaining == 0 && !emitter.parts.ended && adler < WORD
      requires emitter.forceRaw ==> tokens.totalLzBytes <= 31 * 1024 + 1
      requires if due then tokens.totalLzBytes > 31 * 1024 else tokens.codePos + 8 <= LZ_CODE_BUF_SIZE
      modifies emitter, tokens, tokens.codeBuf, tokens.distCount, emitter.sender.maker.TableArrays(), emitter.out, emitter.out.buf
      ensures Inv() && !emitter.parts.ended && (emitter.flushRemaining > 0 ==> |emitter.callOut| == emitter.outRoom)
      ensures old(emitter.callOut) <= emitter.callOut && emitter.outRoom == old(emitter.outRoom)
      ensures emitter.delivered == old(emitter.delivered) + emitter.callOut[|old(emitter.callOut)|..]
      ensures emitter.NoFlushes()
      ensures tokens.totalLzBytes == (if due then 0 else old(tokens.totalLzBytes))
      ensures tokens.Tokens() == (if due then [] else old(tokens.Tokens()))
      ensures emitter.tokensSent == old(if due then emitter.tokensSent + tokens.Tokens() else emitter.tokensSent)
    {
      hide ChainsOk, Restarted, StartsAt, AllAsked, Emitter.FormNow, Emitter.InDictionary, Follows;
      hide Holds, IsMatch, TokenBuffer.Valid, BlockSender.Shape, PartsOk, Joined, TokensOk, Expand, Bytes, ToBits, Pow2, Matched;
      hide BlockMaker.Shape, BlockMaker.TableArrays;
      Apart();
      emitter.TablesApart();
      StillThere();
      if due {
        ghost var b := emitter.FlushBlock(NoFlush, adler);
      }
    }

    /** The lookahead moves behind what has been parsed. */
    method Advance(move: nat)
      requires Shape() && d.Valid() && Parsed(d.lookaheadPos + move) && emitter.StreamOk() && emitter.BufferOk()
      requires move <= d.lookaheadSize && (if fast then savedLen == 0 else d.Chained()) && (emitter.forceRaw ==> savedLen == 0)
      modifies d`lookaheadPos, d`lookaheadSize, d`dictSize
      ensures Core() && d.lookaheadSize == old(d.lookaheadSize) - move && d.lookaheadPos == old(d.lookaheadPos) + move
      ensures d.dictSize == Widened(old(d.dictSize), move)
    {
      hide ChainsOk, Restarted, StartsAt, AllAsked;
      hide Holds, IsMatch, TokenBuffer.Valid, BlockSender.Shape, PartsOk, Joined, TokensOk, Expand, Bytes, ToBits, Pow2, Matched;
      d.Advance(move);
    }

    /** Tokens are recorded for what is in the lookahead, and the lookahead moves on. */
    method ParseStep(adler: nat)
      requires Inv() && !fast && d.lookaheadSize > 0 && emitter.flushRemaining == 0 && !emitter.parts.ended && adler < WORD
      requires emitter.forceRaw ==> tokens.totalLzBytes <= 31 * 1024
      modifies this, emitter, tokens, tokens.codeBuf, tokens.distCount, emitter.sender.maker.TableArrays()
      modifies emitter.out, emitter.out.buf, d`lookaheadPos, d`lookaheadSize, d`dictSize
      ensures Inv() && !emitter.parts.ended && (emitter.flushRemaining > 0 ==> |emitter.callOut| == emitter.outRoom)
      ensures d.lookaheadSize < old(d.lookaheadSize) && d.stream == old(d.stream)
      ensures old(emitter.callOut) <= emitter.callOut && emitter.outRoom == old(emitter.outRoom)
      ensures emitter.delivered == old(emitter.delivered) + emitter.callOut[|old(emitter.callOut)|..]
      ensures emitter.NoFlushes()
      ensures emitter.forceRaw ==> savedLen == 0 && tokens.totalLzBytes <= 31 * 1024 && d.lookaheadSize == old(d.lookaheadSize) - 1
      ensures Parses(ParseRules(), old(Now()), Now())
    {
      hide Holds, IsMatch, TokenBuffer.Valid, BlockSender.Shape, PartsOk, Joined, TokensOk, Expand, Bytes, ToBits, Pow2, Matched;
      hide BlockMaker.Shape, BlockMaker.TableArrays, Parsed, Dictionary.Valid, Picked, Decide, ChainsOk, Restarted, StartsAt;
      hide AllAsked;
      Apart();
      emitter.TablesApart();
      AheadIs();
      ghost var before := Now();
      var move;
      ghost var dist, len;
      move, dist, len := Step();
      Advance(move);
      var full := tokens.codePos > LZ_CODE_BUF_SIZE - 8;
      LongEnough();
      SizesAre();
      var expanding := tokens.codePos * 115 / 128 >= tokens.totalLzBytes;
      FlushWhen(full || (tokens.totalLzBytes > 31 * 1024 && (expanding || emitter.forceRaw)), adler);
      assert ParsesWith(ParseRules(), before, Now(), dist, len);
    }

    /** The next part of the input is taken in. */
    method TakeNext(src: seq<Byte>, used: nat, ghost stream: seq<Byte>, ghost g: Goal, ghost first: State, ghost trail: seq<State>)
      returns (used': nat, ghost trail': seq<State>)
      requires Inv() && !fast && used <= |src| && d.stream == stream + src[..used] && g.whole == stream + src
      requires Leads(ParseRules(), trail, first, Now(), g)
      modifies d`lookaheadSize, d`dictSize, d`stream, d.dict, d.next, d.hash
      ensures Inv() && used <= used' <= |src| && d.stream == stream + src[..used']
      ensures d.lookaheadSize == old(d.lookaheadSize) + used' - used <= MAX_MATCH_LEN
      ensures used' == |src| || d.lookaheadSize == MAX_MATCH_LEN
      ensures Leads(ParseRules(), trail', first, Now(), g)
    {
      hide Core, Dictionary.Valid, Emitter.Shape, BlockMaker.TableArrays, TakesIn, Parses, Leads;
      ghost var before := Now();
      AllTaken(stream, src, used);
      var taken := TakeIn(src[used..], g);
      TakenMore(src, used, taken);
      used' := used + taken;
      LeadsOn(ParseRules(), trail, first, before, Now(), g);
      trail' := trail + [Now()];
    }

    /** One more step of the run, with the lookahead full or no more to come. */
    method ParseNext(adler: nat, ghost g: Goal, ghost first: State, ghost trail: seq<State>)
      returns (ghost trail': seq<State>)
      requires Inv() && !fast && emitter.flushRemaining == 0 && !emitter.parts.ended && adler < WORD
      requires emitter.forceRaw ==> tokens.totalLzBytes <= 31 * 1024
      requires d.lookaheadSize > 0 && Ready(Now(), g) && Leads(ParseRules(), trail, first, Now(), g)
      modifies this, emitter, tokens, tokens.codeBuf, tokens.distCount, emitter.sender.maker.TableArrays()
      modifies emitter.out, emitter.out.buf, d`lookaheadPos, d`lookaheadSize, d`dictSize
      ensures Inv() && !emitter.parts.ended && (emitter.flushRemaining > 0 ==> |emitter.callOut| == emitter.outRoom)
      ensures d.lookaheadSize < old(d.lookaheadSize) && d.stream == old(d.stream)
      ensures old(emitter.callOut) <= emitter.callOut && emitter.outRoom == old(emitter.outRoom)
      ensures emitter.delivered == old(emitter.delivered) + emitter.callOut[|old(emitter.callOut)|..]
      ensures emitter.NoFlushes()
      ensures emitter.forceRaw ==> savedLen == 0 && tokens.totalLzBytes <= 31 * 1024 && d.lookaheadSize == old(d.lookaheadSize) - 1
      ensures Leads(ParseRules(), trail', first, Now(), g)
    {
      hide Core, Dictionary.Valid, Emitter.Shape, BlockMaker.TableArrays, Parses, Leads;
      ghost var before := Now();
      ParseStep(adler);
      LeadsOn(ParseRules(), trail, first, before, Now(), g);
      trail' := trail + [Now()];
    }

    /**
      tdefl_compress_normal. The input is taken in and parsed up to its end, or, if more is to come, up to the last bytes that
      do not fill the lookahead. It stops early only when there is no more room for output.
     */
    method CompressNormal(src: seq<Byte>, flush: Flush, adler: nat) returns (used: nat, ghost trail: seq<State>)
      requires Inv() && !fast && Resting() && emitter.flushRemaining == 0 && !emitter.parts.ended && adler < WORD
      modifies this, emitter, tokens, tokens.codeBuf, tokens.distCount, emitter.sender.maker.TableArrays()
      modifies emitter.out, emitter.out.buf, d`lookaheadPos, d`lookaheadSize, d`dictSize, d`stream, d.dict, d.next, d.hash
      ensures Inv() && !emitter.parts.ended && used <= |src| && d.stream == old(d.stream) + src[..used]
      ensures emitter.flushRemaining > 0 ==> |emitter.callOut| == emitter.outRoom
      ensures emitter.flushRemaining == 0 ==> used == |src| && (flush != NoFlush ==> d.lookaheadSize == 0)
      ensures old(emitter.callOut) <= emitter.callOut && emitter.outRoom == old(emitter.outRoom)
      ensures emitter.delivered == old(emitter.delivered) + emitter.callOut[|old(emitter.callOut)|..]
      ensures emitter.NoFlushes()
      ensures Resting() && (src != [] ==> used > 0)
      ensures emitter.forceRaw && flush == NoFlush && emitter.flushRemaining > 0 ==> d.lookaheadSize > 0
      ensures src == [] && (flush == NoFlush || old(d.lookaheadSize) == 0) ==> emitter.Untouched()
      ensures Leads(ParseRules(), trail, old(Now()), Now(), Goal(old(d.stream) + src, flush != NoFlush))
    {
      hide Core, Dictionary.Valid, Emitter.Shape, BlockMaker.TableArrays, TakesIn, Parses, Leads;
      used := 0;
      ghost var stream, callOut, delivered := d.stream, emitter.callOut, emitter.delivered;
      trail := [Now()];
      ghost var g := Goal(d.stream + src, flush != NoFlush);
      LeadsNowhere(ParseRules(), Now(), g);
      while used < |src| || (flush != NoFlush && d.lookaheadSize > 0)
        invariant Inv() && !emitter.parts.ended && used <= |src| && d.stream == stream + src[..used]
        invariant emitter.flushRemaining == 0 && callOut <= emitter.callOut && emitter.outRoom == old(emitter.outRoom)
        invariant emitter.delivered == delivered + emitter.callOut[|callOut|..]
        invariant emitter.NoFlushes()
        invariant src == [] && (flush == NoFlush || old(d.lookaheadSize) == 0) ==>
          emitter.Untouched() && d.lookaheadSize == old(d.lookaheadSize)
        invariant Resting()
        invariant Leads(ParseRules(), trail, old(Now()), Now(), g)
        decreases |src| - used + d.lookaheadSize
      {
        used, trail := TakeNext(src, used, stream, g, old(Now()), trail);
        if flush == NoFlush && d.lookaheadSize < MAX_MATCH_LEN {
          break;
        }
        CoreAhead();
        trail := ParseNext(adler, g, old(Now()), trail);
        if emitter.flushRemaining != 0 {
          return;
        }
      }
    }

    // ---- tdefl_compress_fast ----

    method TakeBlock(src: seq<Byte>, ghost g: Goal) returns (taken: nat)
      requires Inv() && fast && d.stream + src == g.whole
      modifies d`lookaheadSize, d`dictSize, d`stream, d.dict
      ensures Inv() && taken <= |src| && d.stream == old(d.stream) + src[..taken]
      ensures d.lookaheadSize == old(d.lookaheadSize) + taken <= FAST_LOOKAHEAD
      ensures taken == |src| || d.lookaheadSize == FAST_LOOKAHEAD
      ensures forall ready, ready' :: (ready' ==> d.lookaheadSize == FAST_LOOKAHEAD || (g.flushing && taken == |src|)) ==>
        FastTakesIn(old(FastNow(ready)), FastNow(ready'), g, FAST_LOOKAHEAD)
    {
      hide Holds, IsMatch, TokenBuffer.Valid, BlockSender.Shape, PartsOk, Joined, TokensOk, Expand;
      hide Emitter.Sized, Emitter.BufferOk, Restarted, StartsAt, AllAsked;
      Apart();
      taken := d.TakeBlock(src);
      ghost var before := old(d.stream);
      assert d.stream[..emitter.lzCodeBufDictPos] == before[..emitter.lzCodeBufDictPos];
      ghost var n := emitter.lzCodeBufDictPos + tokens.totalLzBytes;
      assert d.stream[..n] == before[..n];
    }

    /** The only probed position may have a match. */
    method Probe() returns (dist: nat, len: nat)
      requires d.lookaheadPos + 3 < |d.stream| && d.hash.Length == HASH_SIZE && Inv() && fast && d.lookaheadSize >= 4
      modifies d.hash
      ensures Inv() && 1 <= len <= d.lookaheadSize
      ensures if dist == 0 then len == 1 else Matched(d.stream, d.reset, d.lookaheadPos, dist, len)
      ensures FastFinds(d.Seen(), old(d.hash[FastHash(d.stream, d.lookaheadPos)]), dist, len)
      ensures d.hash[..] == old(d.hash[..])[FastHash(d.stream, d.lookaheadPos) := d.lookaheadPos % 65536]
    {
      hide Holds, IsMatch, TokenBuffer.Valid, BlockSender.Shape, PartsOk, Joined, TokensOk, Expand, Parsed, FastHash;
      hide Emitter.StreamOk, Emitter.BufferOk;
      Apart();
      dist, len := d.FastProbe();
    }

    method RecordProbe(dist: nat, len: nat)
      requires Shape() && d.Valid() && d.lookaheadSize > 0 && Parsed(d.lookaheadPos) && savedLen == 0
      requires if dist == 0 then len == 1 else Matched(d.stream, d.reset, d.lookaheadPos, dist, len)
      requires tokens.codePos + 8 <= LZ_CODE_BUF_SIZE
      modifies tokens, tokens.codeBuf, tokens.litCount, tokens.distCount
      ensures Parsed(d.lookaheadPos + len)
      ensures tokens.Tokens() == old(tokens.Tokens()) + [if dist == 0 then Lit(d.stream[d.lookaheadPos]) else Match(len, dist)]
    {
      hide Holds, Emitter.Shape, IsMatch, Emitter.TokensSoFar, TokenBuffer.Valid, TokenBuffer.Tokens;
      if dist == 0 {
        var c := Current();
        RecordLiteral(c);
      } else {
        RecordMatch(len, dist);
      }
    }

    /** A match, if the probe finds one, and a literal otherwise. */
    method FastStep() returns (move: nat, ghost dist: nat)
      requires d.lookaheadPos + 3 < |d.stream| && d.hash.Length == HASH_SIZE && Inv() && fast && d.lookaheadSize >= 4
      modifies d.hash, tokens, tokens.codeBuf, tokens.litCount, tokens.distCount
      ensures Shape() && d.Valid() && emitter.StreamOk() && emitter.BufferOk() && Parsed(d.lookaheadPos + move)
      ensures 1 <= move <= d.lookaheadSize
      ensures FastFinds(d.Seen(), old(d.hash[FastHash(d.stream, d.lookaheadPos)]), dist, move)
      ensures d.hash[..] == old(d.hash[..])[FastHash(d.stream, d.lookaheadPos) := d.lookaheadPos % 65536]
      ensures tokens.Tokens() == old(tokens.Tokens()) + [if dist == 0 then Lit(d.stream[d.lookaheadPos]) else Match(move, dist)]
    {
      hide Dictionary.Valid, IsMatch, TokenBuffer.Valid, BlockSender.Shape, PartsOk, Joined, TokensOk, Expand, Parsed, Matched;
      hide FastFinds, FastHash, TokenBuffer.Tokens, Restarted, StartsAt, AllAsked;
      Apart();
      var back;
      back, move := Probe();
      dist := back;
      RecordProbe(back, move);
    }

    method FastLiteral()
      requires d.lookaheadPos < |d.stream| && Inv() && fast && d.lookaheadSize >= 1
      modifies tokens, tokens.codeBuf, tokens.litCount
      ensures Shape() && d.Valid() && emitter.StreamOk() && emitter.BufferOk() && Parsed(d.lookaheadPos + 1)
      ensures tokens.Tokens() == old(tokens.Tokens()) + [Lit(d.stream[d.lookaheadPos])]
    {
      hide Holds, IsMatch, TokenBuffer.Valid, BlockSender.Shape, PartsOk, Joined, TokensOk, Expand, TokenBuffer.Tokens;
      hide Restarted, StartsAt, AllAsked, Emitter.StreamOk, Emitter.BufferOk, Emitter.TokensSoFar, Emitter.Shape;
      Apart();
      var c := Current();
      RecordLiteral(c);
    }

    /** What ParseStep does, without searching: with fewer than four bytes ahead, the next one is a literal. */
    method FastParse(least: nat, adler: nat)
      requires Inv() && fast && emitter.flushRemaining == 0 && !emitter.parts.ended && adler < WORD
      requires least <= d.lookaheadSize && if least == 4 then true else least == 1 && d.lookaheadSize < 4
      modifies emitter, tokens, tokens.codeBuf, tokens.distCount, emitter.sender.maker.TableArrays()
      modifies emitter.out, emitter.out.buf, d`lookaheadPos, d`lookaheadSize, d`dictSize, d.hash
      ensures Inv() && !emitter.parts.ended && (emitter.flushRemaining > 0 ==> |emitter.callOut| == emitter.outRoom)
      ensures d.lookaheadSize < old(d.lookaheadSize) && d.stream == old(d.stream)
      ensures old(emitter.callOut) <= emitter.callOut && emitter.outRoom == old(emitter.outRoom)
      ensures emitter.delivered == old(emitter.delivered) + emitter.callOut[|old(emitter.callOut)|..]
      ensures emitter.NoFlushes()
      ensures FastParses(old(FastNow(true)), FastNow(true))
    {
      hide Holds, IsMatch, TokenBuffer.Valid, BlockSender.Shape, PartsOk, Joined, TokensOk, Expand, Bytes, ToBits, Pow2, Matched;
      hide BlockMaker.Shape, BlockMaker.TableArrays, Parsed, Dictionary.Valid, FastFinds, FastHash, Restarted, StartsAt;
      hide AllAsked, Emitter.StreamOk, Emitter.BufferOk;
      Apart();
      emitter.TablesApart();
      AheadIs();
      ghost var before := FastNow(true);
      var move := 1;
      ghost var dist := 0;
      if least == 4 {
        move, dist := FastStep();
      } else {
        FastLiteral();
      }
      Advance(move);
      LongEnough();
      SizesAre();
      FlushWhen(tokens.codePos > LZ_CODE_BUF_SIZE - 8, adler);
      assert FastParsesWith(before, FastNow(true), dist, move);
    }

    /** The lookahead is parsed, its last bytes as literals, until that is done or there is no more room for output. */
    method FastBlock(least: nat, adler: nat, ghost g: Goal, ghost first: FastState, ghost trail: seq<FastState>)
      returns (ghost trail': seq<FastState>)
      requires Inv() && fast && emitter.flushRemaining == 0 && !emitter.parts.ended && adler < WORD
      requires least == 4 || (least == 1 && d.lookaheadSize < 4)
      requires FastLeads(trail, first, FastNow(true), g, FAST_LOOKAHEAD)
      modifies emitter, tokens, tokens.codeBuf, tokens.distCount, emitter.sender.maker.TableArrays()
      modifies emitter.out, emitter.out.buf, d`lookaheadPos, d`lookaheadSize, d`dictSize, d.hash
      ensures Inv() && !emitter.parts.ended && (emitter.flushRemaining > 0 ==> |emitter.callOut| == emitter.outRoom)
      ensures emitter.flushRemaining == 0 ==> d.lookaheadSize < least
      ensures d.stream == old(d.stream) && old(emitter.callOut) <= emitter.callOut && emitter.outRoom == old(emitter.outRoom)
      ensures emitter.delivered == old(emitter.delivered) + emitter.callOut[|old(emitter.callOut)|..]
      ensures emitter.NoFlushes()
      ensures FastLeads(trail', first, FastNow(true), g, FAST_LOOKAHEAD)
      ensures d.lookaheadSize <= old(d.lookaheadSize) && (old(d.lookaheadSize) >= least ==> d.lookaheadSize < old(d.lookaheadSize))
      ensures old(d.lookaheadSize) < least ==> emitter.Untouched() && d.lookaheadSize == old(d.lookaheadSize)
    {
      hide Core, Dictionary.Valid, Emitter.Shape, BlockMaker.TableArrays, FastParses, FastTakesIn, FastLeads;
      ghost var callOut, delivered := emitter.callOut, emitter.delivered;
      trail' := trail;
      while d.lookaheadSize >= least && emitter.flushRemaining == 0
        invariant Inv() && !emitter.parts.ended && (emitter.flushRemaining > 0 ==> |emitter.callOut| == emitter.outRoom)
        invariant d.stream == old(d.stream) && callOut <= emitter.callOut && emitter.outRoom == old(emitter.outRoom)
        invariant emitter.delivered == delivered + emitter.callOut[|callOut|..]
        invariant emitter.NoFlushes() && d.lookaheadSize <= old(d.lookaheadSize)
        invariant d.lookaheadSize == old(d.lookaheadSize) ==> emitter.flushRemaining == 0
        invariant old(d.lookaheadSize) < least ==> emitter.Untouched() && d.lookaheadSize == old(d.lookaheadSize)
        invariant FastLeads(trail', first, FastNow(true), g, FAST_LOOKAHEAD)
        decreases d.lookaheadSize
      {
        ghost var before := FastNow(true);
        FastParse(least, adler);
        FastLeadsOn(trail', first, before, FastNow(true), g, FAST_LOOKAHEAD);
        trail' := trail' + [FastNow(true)];
      }
    }

    /** All of the lookahead. */
    method FastBlocks(adler: nat, ghost g: Goal, ghost first: FastState, ghost trail: seq<FastState>)
      returns (ghost trail': seq<FastState>)
      requires Inv() && fast && emitter.flushRemaining == 0 && !emitter.parts.ended && adler < WORD
      requires FastLeads(trail, first, FastNow(true), g, FAST_LOOKAHEAD)
      modifies emitter, tokens, tokens.codeBuf, tokens.distCount, emitter.sender.maker.TableArrays()
      modifies emitter.out, emitter.out.buf, d`lookaheadPos, d`lookaheadSize, d`dictSize, d.hash
      ensures Inv() && !emitter.parts.ended && (emitter.flushRemaining > 0 ==> |emitter.callOut| == emitter.outRoom)
      ensures emitter.flushRemaining == 0 ==> d.lookaheadSize == 0
      ensures d.stream == old(d.stream) && old(emitter.callOut) <= emitter.callOut && emitter.outRoom == old(emitter.outRoom)
      ensures emitter.delivered == old(emitter.delivered) + emitter.callOut[|old(emitter.callOut)|..]
      ensures emitter.NoFlushes()
      ensures FastLeads(trail', first, FastNow(true), g, FAST_LOOKAHEAD)
      ensures old(d.lookaheadSize) > 0 ==> d.lookaheadSize < old(d.lookaheadSize)
      ensures old(d.lookaheadSize) == 0 ==> emitter.Untouched() && d.lookaheadSize == 0
    {
      hide Core, Dictionary.Valid, Emitter.Shape, BlockMaker.TableArrays, FastParses, FastTakesIn, FastLeads;
      trail' := FastBlock(4, adler, g, first, trail);
      if emitter.flushRemaining == 0 {
        trail' := FastBlock(1, adler, g, first, trail');
      }
    }

    method CompressFast(src: seq<Byte>, flush: Flush, adler: nat)
      returns (used: nat, ghost trail: seq<FastState>, ghost ready: bool)
      requires Inv() && fast && d.lookaheadSize < FAST_LOOKAHEAD && emitter.flushRemaining == 0 && !emitter.parts.ended && adler < WORD
      modifies emitter, tokens, tokens.codeBuf, tokens.distCount, emitter.sender.maker.TableArrays()
      modifies emitter.out, emitter.out.buf, d`lookaheadPos, d`lookaheadSize, d`dictSize, d`stream, d.dict, d.hash
      ensures Inv() && !emitter.parts.ended && used <= |src| && d.stream == old(d.stream) + src[..used]
      ensures emitter.flushRemaining > 0 ==> |emitter.callOut| == emitter.outRoom
      ensures emitter.flushRemaining == 0 ==> used == |src| && (flush != NoFlush ==> d.lookaheadSize == 0)
      ensures old(emitter.callOut) <= emitter.callOut && emitter.outRoom == old(emitter.outRoom)
      ensures emitter.delivered == old(emitter.delivered) + emitter.callOut[|old(emitter.callOut)|..]
      ensures emitter.NoFlushes() && d.lookaheadSize < FAST_LOOKAHEAD && (src != [] ==> used > 0)
      ensures src == [] && (flush == NoFlush || old(d.lookaheadSize) == 0) ==> emitter.Untouched()
      ensures FastLeads(trail, old(FastNow(false)), FastNow(ready), Goal(old(d.stream) + src, flush != NoFlush), FAST_LOOKAHEAD)
    {
      hide Core, Dictionary.Valid, Emitter.Shape, BlockMaker.TableArrays, FastParses, FastTakesIn, FastLeads;
      used := 0;
      ghost var stream, callOut, delivered := d.stream, emitter.callOut, emitter.delivered;
      ghost var g := Goal(d.stream + src, flush != NoFlush);
      trail, ready := [FastNow(false)], false;
      FastLeadsNowhere(FastNow(false), g, FAST_LOOKAHEAD);
      while used < |src| || (flush != NoFlush && d.lookaheadSize > 0)
        invariant Inv() && !emitter.parts.ended && used <= |src| && d.stream == stream + src[..used]
        invariant emitter.flushRemaining == 0 && callOut <= emitter.callOut && emitter.outRoom == old(emitter.outRoom)
        invariant emitter.delivered == delivered + emitter.callOut[|callOut|..]
        invariant emitter.NoFlushes() && d.lookaheadSize < FAST_LOOKAHEAD
        invariant src == [] && (flush == NoFlush || old(d.lookaheadSize) == 0) ==>
          emitter.Untouched() && d.lookaheadSize == old(d.lookaheadSize)
        invariant FastLeads(trail, old(FastNow(false)), FastNow(ready), g, FAST_LOOKAHEAD)
        decreases |src| - used + d.lookaheadSize
      {
        ghost var before := FastNow(ready);
        AllTaken(stream, src, used);
        var taken := TakeBlock(src[used..], g);
        TakenMore(src, used, taken);
        used, ready := used + taken, flush != NoFlush || d.lookaheadSize == FAST_LOOKAHEAD;
        FastLeadsOn(trail, old(FastNow(false)), before, FastNow(ready), g, FAST_LOOKAHEAD);
        trail := trail + [FastNow(ready)];
        if flush == NoFlush && d.lookaheadSize < FAST_LOOKAHEAD {
          break;
        }
        trail := FastBlocks(adler, g, old(FastNow(false)), trail);
        if emitter.flushRemaining != 0 {
          return;
        }
      }
    }

    /** The parser that the flags ask for. */
    method Compress(src: seq<Byte>, flush: Flush, adler: nat) returns (used: nat)
      requires Inv() && Resting() && emitter.flushRemaining == 0 && !emitter.parts.ended && adler < WORD
      modifies this, emitter, tokens, tokens.codeBuf, tokens.distCount, emitter.sender.maker.TableArrays()
      modifies emitter.out, emitter.out.buf, d`lookaheadPos, d`lookaheadSize, d`dictSize, d`stream, d.dict, d.next, d.hash
      ensures Inv() && !emitter.parts.ended && used <= |src| && d.stream == old(d.stream) + src[..used]
      ensures emitter.flushRemaining > 0 ==> |emitter.callOut| == emitter.outRoom
      ensures emitter.flushRemaining == 0 ==> used == |src| && (flush != NoFlush ==> d.lookaheadSize == 0)
      ensures old(emitter.callOut) <= emitter.callOut && emitter.outRoom == old(emitter.outRoom)
      ensures emitter.delivered == old(emitter.delivered) + emitter.callOut[|old(emitter.callOut)|..]
      ensures emitter.NoFlushes()
      ensures Resting() && (src != [] ==> used > 0)
      ensures !fast && emitter.forceRaw && flush == NoFlush && emitter.flushRemaining > 0 ==> d.lookaheadSize > 0
      ensures src == [] && (flush == NoFlush || old(d.lookaheadSize) == 0) ==> emitter.Untouched()
      ensures fast ==> FastRuns(old(FastNow(false)), FastNow(false), Goal(old(d.stream) + src, flush != NoFlush), FAST_LOOKAHEAD)
      ensures !fast ==> Runs(ParseRules(), old(Now()), Now(), Goal(old(d.stream) + src, flush != NoFlush))
    {
      hide Core, Dictionary.Valid, Emitter.Shape, BlockMaker.TableArrays, Leads, FastLeads;
      ghost var g := Goal(d.stream + src, flush != NoFlush);
      if fast {
        ghost var trail, ready;
        used, trail, ready := CompressFast(src, flush, adler);
        assert FastLeads(trail, old(FastNow(false)), FastNow(false).(ready := ready), g, FAST_LOOKAHEAD);
      } else {
        ghost var trail;
        used, trail := CompressNormal(src, flush, adler);
        assert Leads(ParseRules(), trail, old(Now()), Now(), g);
      }
    }

    // ---- between calls ----

    /** A flush at a point where everything has been parsed: no match is pending there. */
    method Flush(flush: Flush, adler: nat)
      requires Inv() && emitter.flushRemaining == 0 && !emitter.parts.ended && adler < WORD && d.lookaheadSize == 0
      requires flush != NoFlush && Resting()
      modifies emitter, tokens, tokens.codeBuf, tokens.distCount, emitter.sender.maker.TableArrays(), emitter.out, emitter.out.buf
      ensures Inv() && Resting() && emitter.parts.ended == (flush == Finish) && emitter.lzCodeBufDictPos == |d.stream|
      ensures emitter.parts.ended ==> emitter.parts.endBytes == emitter.EndBytes(adler)
      ensures (flush != NoFlush ==> |Joined(emitter.parts)| % 8 == 0) && emitter.blockIndex > 0
      ensures emitter.flushRemaining > 0 ==> |emitter.callOut| == emitter.outRoom
      ensures old(emitter.callOut) <= emitter.callOut && emitter.outRoom == old(emitter.outRoom)
      ensures emitter.delivered == old(emitter.delivered) + emitter.callOut[|old(emitter.callOut)|..]
      ensures emitter.empties == old(emitter.empties) + (if old(emitter.lzCodeBufDictPos) == |d.stream| then 1 else 0)
      ensures emitter.flushes == old(emitter.flushes) + (if old(emitter.lzCodeBufDictPos) == |d.stream| then 0 else 1)
      ensures flush != Finish && old(emitter.lzCodeBufDictPos == |d.stream| && |Joined(emitter.parts)| % 8 == 0)
              && old(emitter.blockIndex) > 0 ==>
        |Joined(emitter.parts)| == old(|Joined(emitter.parts)|) + 8 * EmptyFlush(emitter.forceRaw)
      ensures emitter.parts.blocks != [] && tokens.Tokens() == []
      ensures emitter.tokensSent == old(emitter.tokensSent + tokens.Tokens())
      ensures emitter.mark == old(emitter.mark) && emitter.markByte == old(emitter.markByte)
    {
      hide Restarted, StartsAt, AllAsked, ChainsOk, Emitter.FormNow;
      hide Holds, IsMatch, TokenBuffer.Valid, BlockSender.Shape, PartsOk, Joined, TokensOk, Expand, Bytes, ToBits, Pow2;
      hide BlockMaker.Shape, BlockMaker.TableArrays;
      Apart();
      emitter.TablesApart();
      NothingPending();
      StillThere();
      ghost var b := emitter.FlushBlock(flush, adler);
    }

    /** No match is pending when the lookahead is empty. */
    lemma NothingPending()
      requires d.Valid() && Parsed(d.lookaheadPos) && d.lookaheadSize == 0
      ensures savedLen == 0 && emitter.lzCodeBufDictPos + tokens.totalLzBytes == |d.stream|
    {
      hide TokenBuffer.Valid, TokensOk, Expand, Holds;
    }

    /** The dictionary is forgotten, as after a full flush. */
    method Forget()
      requires Inv() && d.lookaheadSize == 0 && emitter.lzCodeBufDictPos == |d.stream| && tokens.Tokens() == []
      requires !emitter.parts.ended && emitter.parts.blocks != [] && emitter.blockIndex > 0 && |Joined(emitter.parts)| % 8 == 0
      modifies d`dictSize, d`reset, d.next, d.hash, emitter`mark, emitter`markByte
      ensures Inv() && d.dictSize == 0 && d.reset == |d.stream|
      ensures emitter.mark == |emitter.parts.blocks| && 8 * emitter.markByte == |Joined(emitter.parts)|
    {
      hide Holds, IsMatch, TokenBuffer.Valid, BlockSender.Shape, PartsOk, Joined, Expand, Bytes, ToBits, Pow2;
      hide Restarted, StartsAt, AllAsked, ChainsOk, Emitter.StreamOk;
      HeaderIs();
      d.Forget();
      emitter.Restart();
    }

    lemma HeaderIs()
      requires emitter.StreamOk() && emitter.blockIndex > 0
      ensures emitter.lzCodeBufDictPos <= |emitter.d.stream| && emitter.Sized()
      ensures emitter.parts.hdr == (if emitter.zlib then Bytes(ZlibHeader()) else [])
      ensures PartsOk(emitter.parts, emitter.d.stream[..emitter.lzCodeBufDictPos])
      ensures AllAsked(emitter.parts.blocks, emitter.forceStatic, emitter.forceRaw)
    {
      hide PartsOk, Joined, Restarted, StartsAt, AllAsked, Bytes;
    }

    method BeginCall(room: nat)
      requires Inv()
      modifies emitter`callOut, emitter`outRoom
      ensures Inv() && emitter.callOut == [] && emitter.outRoom == room
    {
      hide Restarted, StartsAt, AllAsked, ChainsOk, BlockMaker.Shape;
      hide Holds, IsMatch, TokenBuffer.Valid, BlockSender.Shape, PartsOk, Joined, TokensOk, Expand, Bytes, ToBits, Pow2;
      emitter.BeginCall(room);
    }

    method FlushRest()
      requires Inv()
      modifies emitter`flushOfs, emitter`flushRemaining, emitter`callOut, emitter`delivered
      ensures Inv() && old(emitter.callOut) <= emitter.callOut
      ensures emitter.delivered == old(emitter.delivered) + emitter.callOut[|old(emitter.callOut)|..]
      ensures (emitter.flushRemaining > 0 ==> |emitter.callOut| == emitter.outRoom) && |emitter.callOut| <= emitter.outRoom
      ensures emitter.flushRemaining <= old(emitter.flushRemaining)
      ensures |emitter.callOut| == |old(emitter.callOut)| + old(emitter.flushRemaining) - emitter.flushRemaining
    {
      hide Restarted, StartsAt, AllAsked, ChainsOk, BlockMaker.Shape, Emitter.Shape, Emitter.StreamOk;
      hide Holds, IsMatch, TokenBuffer.Valid, BlockSender.Shape, PartsOk, Joined, TokensOk, Expand, Bytes, ToBits, Pow2;
      emitter.FlushRest();
    }
  }
}
