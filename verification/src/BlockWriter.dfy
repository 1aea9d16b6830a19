/** tdefl_compress_lz_codes in both its forms: the recorded tokens become the symbols of a block. */
module BlockWriters {
  import opened Bits
  import opened TableBound
  import opened LenDist
  import opened Lz
  import opened Deflate
  import opened TokenBuffers
  import opened TokenReaders
  import opened TokenItems
  import opened BitWriters
  import opened EncoderTables

  /** The table holds these codes, bit-reversed, and their lengths. */
  ghost predicate TableHolds(t: EncTable, codes: seq<seq<bool>>)
    reads t.codes, t.codeSizes
  {
    && t.codes.Length == t.codeSizes.Length == 288 && |codes| <= 288
    && forall s :: 0 <= s < |codes| && codes[s] != [] ==>
         t.codeSizes[s] == |codes[s]| <= 15 && t.codes[s] == FromBits(codes[s])
  }

  lemma FromSizes(t: EncTable, n: nat)
    requires t.codes.Length == t.codeSizes.Length == 288 && n <= 288
    requires CodesFor(t.codeSizes[..n], t.codes[..], n) && forall s :: 0 <= s < n ==> t.codeSizes[s] <= 15
    ensures TableHolds(t, CodesOf(t.codeSizes[..n]))
  {
  }

  lemma CodeValue(code: seq<bool>)
    ensures FromBits(code) < Pow2(|code|) && ToBits(FromBits(code), |code|) == code
  {
    FromBitsBound(code);
    ToFromBits(code);
  }

  lemma LowBits(v: nat, n: nat)
    ensures v % Pow2(n) < Pow2(n)
  {
    var p := Pow2(n);
    assert p >= 1;
    ModBelow(v, p);
  }

  /** What is left to send: the rest of the current group, the groups after it, and the end of the block. */
  ghost function RestBits(c: Codes, group: seq<Token>, after: seq<Token>): seq<bool>
    requires AllRecordable(group) && AllRecordable(after)
  {
    ItemsBits(c, Items(group + after))
  }

  lemma NextBits(c: Codes, group: seq<Token>, after: seq<Token>, sent: seq<bool>, item: seq<bool>)
    requires group != [] && AllRecordable(group) && AllRecordable(after) && item == ItemBits(c, ItemOf(group[0]))
    ensures sent + RestBits(c, group, after) == (sent + item) + RestBits(c, group[1..], after)
  {
    hide ItemOf, ItemBits;
    assert (group + after)[0] == group[0] && (group + after)[1..] == group[1..] + after;
    FirstItem(c, ItemOf(group[0]), Items(group[1..] + after));
    Associate(sent, item, RestBits(c, group[1..], after));
  }

  lemma FirstItem(c: Codes, item: Item, rest: seq<Item>)
    ensures ItemsBits(c, [item] + rest) == ItemBits(c, item) + ItemsBits(c, rest)
  {
    assert ([item] + rest)[0] == item && ([item] + rest)[1..] == rest;
  }

  lemma NextGroupBits(c: Codes, after: seq<Token>, n: nat)
    requires AllRecordable(after) && n <= |after|
    ensures RestBits(c, [], after) == RestBits(c, after[..n], after[n..])
  {
    assert [] + after == after && after[..n] + after[n..] == after;
  }

  lemma NoMoreBits(c: Codes, group: seq<Token>, after: seq<Token>, rest: seq<Byte>, flagBits: seq<bool>)
    requires Reading(rest, flagBits, group, after) && rest == []
    ensures group == [] && after == [] && RestBits(c, group, after) == CodeOf(c.lit, 256)
  {
    DataLen(group);
    PackLen(after);
  }

  class BlockWriter {
    const out: BitWriter
    const tokens: TokenBuffer
    const lit: EncTable
    const dist: EncTable

    constructor (out: BitWriter, tokens: TokenBuffer, lit: EncTable, dist: EncTable)
      ensures this.out == out && this.tokens == tokens && this.lit == lit && this.dist == dist
    {
      this.out, this.tokens, this.lit, this.dist := out, tokens, lit, dist;
    }

    ghost predicate Separate() {
      && tokens.codeBuf != out.buf && lit.codes != lit.codeSizes && tokens.codeBuf.Length == LZ_CODE_BUF_SIZE
    }

    /** The buffer is closed and both tables hold codes for all its symbols and for the end of the block. */
    ghost predicate Ready(c: Codes, ts: seq<Token>)
      reads tokens, tokens.codeBuf, lit.codes, lit.codeSizes, dist.codes, dist.codeSizes
    {
      && Separate() && AllRecordable(ts) && AllCoded(c, ts) && Coded(c.lit, 256)
      && tokens.codePos <= LZ_CODE_BUF_SIZE && tokens.codeBuf[..tokens.codePos] == Pack(ts)
      && TableHolds(lit, c.lit) && TableHolds(dist, c.dist)
    }

    /** Reading is at p with these flags, and what is left to send makes up the rest of all. */
    ghost predicate Going(p: nat, end: nat, flags: nat, flagBits: seq<bool>, group: seq<Token>, after: seq<Token>, c: Codes,
                          all: seq<bool>)
      reads tokens.codeBuf, out`sent
    {
      && p <= end <= LZ_CODE_BUF_SIZE == tokens.codeBuf.Length && Reading(tokens.codeBuf[p..end], flagBits, group, after)
      && flags == FlagsValue(flagBits) && AllRecordable(group) && AllRecordable(after) && AllCoded(c, group + after)
      && out.sent + RestBits(c, group, after) == all
    }

    method PutSym(t: EncTable, s: nat, ghost codes: seq<seq<bool>>)
      requires out.Valid() && TableHolds(t, codes) && Coded(codes, s)
      modifies out`pos, out`bitBuffer, out`bitsIn, out`sent, out`pushed, out.buf
      ensures out.Valid() && out.sent == old(out.sent) + CodeOf(codes, s)
      ensures out.Kept()
    {
      hide BitWriter.Valid;
      CodeValue(codes[s]);
      out.PutBits(t.codes[s], t.codeSizes[s]);
    }

    /** The length, its extra bits, the distance and its extra bits. */
    method PutMatch(matchLen: nat, matchDist: nat, ghost c: Codes)
      requires out.Valid() && TableHolds(lit, c.lit) && TableHolds(dist, c.dist) && TokenCoded(c, Match(matchLen + 3, matchDist + 1))
      requires lit.codes as object != out.buf && lit.codeSizes as object != out.buf
      requires dist.codes as object != out.buf && dist.codeSizes as object != out.buf
      modifies out`pos, out`bitBuffer, out`bitsIn, out`sent, out`pushed, out.buf
      ensures out.Valid() && out.sent == old(out.sent) + ItemBits(c, ItemOf(Match(matchLen + 3, matchDist + 1)))
      ensures out.Kept()
    {
      hide BitWriter.Valid, TableHolds, LenSym, LenExtra, DistSym, DistExtra, CodeOf, Coded, ItemOf, ItemBits, ToBits;
      PutLength(matchLen, c);
      PutDistance(matchDist, c);
      MatchSent(c, matchLen, matchDist, old(out.sent));
    }

    method PutLength(matchLen: nat, ghost c: Codes)
      requires out.Valid() && TableHolds(lit, c.lit) && Coded(c.lit, LenSym(matchLen))
      modifies out`pos, out`bitBuffer, out`bitsIn, out`sent, out`pushed, out.buf
      ensures out.Valid() && out.Kept()
      ensures out.sent == old(out.sent) + CodeOf(c.lit, LenSym(matchLen))
                        + ToBits(matchLen % Pow2(LenExtra(matchLen)), LenExtra(matchLen))
    {
      hide BitWriter.Valid, TableHolds, LenSym, LenExtra, CodeOf, Coded, ToBits, Pow2;
      SmallExtra(matchLen, 0);
      var n := LenExtra(matchLen);
      LowBits(matchLen, n);
      PutSym(lit, LenSym(matchLen), c.lit);
      out.PutBits(matchLen % Pow2(n), n);
    }

    method PutDistance(matchDist: nat, ghost c: Codes)
      requires out.Valid() && TableHolds(dist, c.dist) && Coded(c.dist, DistSym(matchDist))
      modifies out`pos, out`bitBuffer, out`bitsIn, out`sent, out`pushed, out.buf
      ensures out.Valid() && out.Kept()
      ensures out.sent == old(out.sent) + CodeOf(c.dist, DistSym(matchDist))
                        + ToBits(matchDist % Pow2(DistExtra(matchDist)), DistExtra(matchDist))
    {
      hide BitWriter.Valid, TableHolds, DistSym, DistExtra, CodeOf, Coded, ToBits, Pow2;
      SmallExtra(0, matchDist);
      var sym, n := DistEntry(matchDist);
      LowBits(matchDist, n);
      PutSym(dist, sym, c.dist);
      out.PutBits(matchDist % Pow2(n), n);
    }

    /** One table for near distances, and one by the high byte for far ones. */
    static method DistEntry(matchDist: nat) returns (sym: nat, extra: nat)
      ensures sym == DistSym(matchDist) && extra == DistExtra(matchDist)
    {
      hide SmallDistSym, SmallDistExtra, LargeDistSym, LargeDistExtra;
      if matchDist < 512 {
        sym, extra := SmallDistSym(matchDist), SmallDistExtra(matchDist);
      } else {
        sym, extra := LargeDistSym(matchDist / 256), LargeDistExtra(matchDist / 256);
      }
    }

    /** The writer that puts each code by itself. */
    method WriteSimple(ghost c: Codes, ghost ts: seq<Token>) returns (ok: bool)
      requires out.Valid() && Ready(c, ts)
      modifies out`pos, out`bitBuffer, out`bitsIn, out`sent, out`pushed, out.buf
      ensures out.Valid() && out.sent == old(out.sent) + ItemsBits(c, Items(ts)) && out.Kept()
      ensures ok <==> |old(out.sent) + ItemsBits(c, Items(ts))| < 8 * out.end
      ensures ok <==> out.pos < out.end
    {
      hide BitWriter.Valid, TableHolds, Reading, RestBits, FlagsValue, TokenCoded, Going, ItemsBits, Items, Pack, Coded, AllCoded;
      hide CodeOf;
      ghost var flagBits, group, after := [], [], ts;
      ghost var all := out.sent + RestBits(c, [], ts);
      StartGoing(c, ts, all);
      var p, flags, end := 0, 1, tokens.codePos;
      while p < end
        invariant Separate() && TableHolds(lit, c.lit) && TableHolds(dist, c.dist) && out.Valid()
        invariant p <= end && Going(p, end, flags, flagBits, group, after, c, all) && out.Kept()
        decreases end - p
      {
        p, flags, flagBits, group, after := PutNext(p, end, flags, flagBits, group, after, c, all);
      }
      EndGoing(p, end, flags, flagBits, group, after, c, all);
      PutSym(lit, 256, c.lit);
      out.RoomLeft();
      ok := out.pos < out.end;
    }

    /** The next token, behind the next byte of flags if the last one is used up. */
    method PutNext(p: nat, end: nat, flags: nat, ghost flagBits: seq<bool>, ghost group: seq<Token>, ghost after: seq<Token>,
                   ghost c: Codes, ghost all: seq<bool>)
      returns (p': nat, flags': nat, ghost flagBits': seq<bool>, ghost group': seq<Token>, ghost after': seq<Token>)
      requires out.Valid() && Separate() && TableHolds(lit, c.lit) && TableHolds(dist, c.dist) && p < end
      requires Going(p, end, flags, flagBits, group, after, c, all)
      modifies out`pos, out`bitBuffer, out`bitsIn, out`sent, out`pushed, out.buf
      ensures p < p' <= end && Going(p', end, flags', flagBits', group', after', c, all)
      ensures out.Valid() && out.Kept()
    {
      hide BitWriter.Valid, TableHolds, Reading, RestBits, FlagsValue, TokenCoded, AllCoded;
      p', flags', flagBits', group', after' := p, flags, flagBits, group, after;
      if flags == 1 {
        flags', flagBits', group', after' := LoadFlags(p, end, flags, flagBits, group, after, c, all);
        p' := p + 1;
      } else {
        FlagsSpent(flagBits);
      }
      p', flags' := PutToken(p', end, flags', flagBits', group', after', c, all);
      flagBits', group' := flagBits'[1..], group'[1..];
    }

    lemma StartGoing(c: Codes, ts: seq<Token>, all: seq<bool>)
      requires Ready(c, ts) && all == out.sent + RestBits(c, [], ts)
      ensures Going(0, tokens.codePos, 1, [], [], ts, c, all) && all == out.sent + ItemsBits(c, Items(ts))
    {
      hide TableHolds, TokenCoded, FlagsValue, Reading;
      StartReading(ts);
      FlagsSpent([]);
      assert [] + ts == ts;
      WholeBlock(c, ts);
      assert tokens.codeBuf[0..tokens.codePos] == Pack(ts);
    }

    lemma EndGoing(p: nat, end: nat, flags: nat, flagBits: seq<bool>, group: seq<Token>, after: seq<Token>, c: Codes,
                   all: seq<bool>)
      requires Going(p, end, flags, flagBits, group, after, c, all) && p == end
      ensures out.sent + CodeOf(c.lit, 256) == all
    {
      hide TokenCoded, FlagsValue, Reading;
      NoMoreBits(c, group, after, tokens.codeBuf[p..end], flagBits);
    }

    /** The next byte of flags. */
    method LoadFlags(p: nat, end: nat, flags: nat, ghost flagBits: seq<bool>, ghost group: seq<Token>, ghost after: seq<Token>,
                     ghost c: Codes, ghost all: seq<bool>)
      returns (flags': nat, ghost flagBits': seq<bool>, ghost group': seq<Token>, ghost after': seq<Token>)
      requires p < end && Going(p, end, flags, flagBits, group, after, c, all) && flags == 1
      ensures p + 1 < end && Going(p + 1, end, flags', flagBits', group', after', c, all) && flagBits' != []
    {
      hide FlagsValue, TokenCoded, RestBits;
      ghost var rest := tokens.codeBuf[p..end];
      FlagsSpent(flagBits);
      assert group == [] && [] + after == after;
      NextFlags(rest, after);
      assert rest[1..] == tokens.codeBuf[p + 1..end];
      FlagsLoaded(tokens.codeBuf[p]);
      flags', flagBits' := tokens.codeBuf[p] as nat + 256, ToBits(tokens.codeBuf[p], 8);
      ghost var n := if |after| < 8 then |after| else 8;
      group', after' := after[..n], after[n..];
      assert after[..n] + after[n..] == after;
      NextGroupBits(c, after, n);
    }

    /** The next token of the group. */
    method PutToken(p: nat, end: nat, flags: nat, ghost flagBits: seq<bool>, ghost group: seq<Token>, ghost after: seq<Token>,
                    ghost c: Codes, ghost all: seq<bool>)
      returns (p': nat, flags': nat)
      requires out.Valid() && Separate() && TableHolds(lit, c.lit) && TableHolds(dist, c.dist) && p < end && flagBits != []
      requires Going(p, end, flags, flagBits, group, after, c, all)
      modifies out`pos, out`bitBuffer, out`bitsIn, out`sent, out`pushed, out.buf
      ensures group != [] && p < p' && Going(p', end, flags', flagBits[1..], group[1..], after, c, all)
      ensures out.Valid() && out.Kept()
    {
      hide BitWriter.Valid, TableHolds, RestBits, FlagsValue, Reading;
      ghost var rest := tokens.codeBuf[p..end];
      FlagsSpent(flagBits);
      NextToken(rest, flagBits, group, after);
      NextBits(c, group, after, out.sent, ItemBits(c, ItemOf(group[0])));
      RestCoded(c, group, after);
      if flags % 2 == 1 {
        var matchLen, matchDist := tokens.codeBuf[p], tokens.codeBuf[p + 1] as nat + tokens.codeBuf[p + 2] as nat * 256;
        p' := p + 3;
        MatchData(group[0], rest);
        PutMatch(matchLen, matchDist, c);
      } else {
        p' := p + 1;
        LiteralData(c, group[0], rest);
        PutSym(lit, tokens.codeBuf[p], c.lit);
      }
      assert rest[p' - p..] == tokens.codeBuf[p'..end];
      flags' := flags / 2;
    }

    // ---- the writer with a 64-bit accumulator ----

    /** The accumulator of the fast writer. */
    ghost predicate Accumulated(bits64: nat, bitsIn64: nat)
      reads out, out.buf
    {
      && out.end + 16 <= out.buf.Length && out.pos <= out.end + 8 && bitsIn64 <= 64
      && Holding(out.buf[..out.pos], bits64, bitsIn64, out.sent)
    }

    method FastSym(t: EncTable, s: nat, bits64: nat, bitsIn64: nat, ghost codes: seq<seq<bool>>)
      returns (bits64': nat, bitsIn64': nat)
      requires Accumulated(bits64, bitsIn64) && TableHolds(t, codes) && Coded(codes, s) && bitsIn64 <= 49
      modifies out`sent
      ensures Accumulated(bits64', bitsIn64') && bitsIn64' <= bitsIn64 + 15 && out.sent == old(out.sent) + CodeOf(codes, s)
    {
      hide Holding;
      CodeValue(codes[s]);
      bits64', bitsIn64' := out.PutBitsFast(bits64, bitsIn64, t.codes[s], t.codeSizes[s]);
    }

    method FastExtra(v: nat, n: nat, bits64: nat, bitsIn64: nat) returns (bits64': nat, bitsIn64': nat)
      requires Accumulated(bits64, bitsIn64) && bitsIn64 + n <= 64
      modifies out`sent
      ensures Accumulated(bits64', bitsIn64') && bitsIn64' == bitsIn64 + n && out.sent == old(out.sent) + ToBits(v % Pow2(n), n)
    {
      hide Holding;
      LowBits(v, n);
      bits64', bitsIn64' := out.PutBitsFast(bits64, bitsIn64, v % Pow2(n), n);
    }

    /** A match adds at most 48 bits to the 7 that can be left. */
    method FastMatch(matchLen: nat, matchDist: nat, bits64: nat, bitsIn64: nat, ghost c: Codes)
      returns (bits64': nat, bitsIn64': nat)
      requires Accumulated(bits64, bitsIn64) && bitsIn64 < 8 && TableHolds(lit, c.lit) && TableHolds(dist, c.dist)
      requires TokenCoded(c, Match(matchLen + 3, matchDist + 1))
      modifies out`sent
      ensures Accumulated(bits64', bitsIn64') && bitsIn64' <= 55
      ensures out.sent == old(out.sent) + ItemBits(c, ItemOf(Match(matchLen + 3, matchDist + 1)))
    {
      hide Accumulated, TableHolds, LenSym, LenExtra, DistSym, DistExtra, CodeOf, Coded, ItemOf, ItemBits, ToBits, Pow2;
      SmallExtra(matchLen, matchDist);
      bits64', bitsIn64' := FastSym(lit, LenSym(matchLen), bits64, bitsIn64, c.lit);
      bits64', bitsIn64' := FastExtra(matchLen, LenExtra(matchLen), bits64', bitsIn64');
      var sym, n := DistEntry(matchDist);
      bits64', bitsIn64' := FastSym(dist, sym, bits64', bitsIn64', c.dist);
      bits64', bitsIn64' := FastExtra(matchDist, n, bits64', bitsIn64');
      MatchSent(c, matchLen, matchDist, old(out.sent));
    }

    /** One literal. */
    method FastLiteral(p: nat, end: nat, flags: nat, bits64: nat, bitsIn64: nat, ghost flagBits: seq<bool>,
                       ghost group: seq<Token>, ghost after: seq<Token>, ghost c: Codes, ghost all: seq<bool>)
      returns (bits64': nat, bitsIn64': nat)
      requires Accumulated(bits64, bitsIn64) && TableHolds(lit, c.lit) && bitsIn64 <= 49
      requires p < end && Going(p, end, flags, flagBits, group, after, c, all)
      requires flagBits != [] && !flagBits[0]
      modifies out`sent
      ensures Accumulated(bits64', bitsIn64') && bitsIn64' <= bitsIn64 + 15
      ensures group != [] && Going(p + 1, end, flags / 2, flagBits[1..], group[1..], after, c, all)
    {
      hide Accumulated, TableHolds, RestBits, FlagsValue, Reading;
      ghost var rest := tokens.codeBuf[p..end];
      FlagsSpent(flagBits);
      NextToken(rest, flagBits, group, after);
      NextBits(c, group, after, out.sent, ItemBits(c, ItemOf(group[0])));
      RestCoded(c, group, after);
      LiteralData(c, group[0], rest);
      bits64', bitsIn64' := FastSym(lit, tokens.codeBuf[p], bits64, bitsIn64, c.lit);
      assert rest[1..] == tokens.codeBuf[p + 1..end];
    }

    /** One match, or up to three literals in a row. */
    method FastTokens(p: nat, end: nat, flags: nat, bits64: nat, bitsIn64: nat, ghost flagBits: seq<bool>,
                      ghost group: seq<Token>, ghost after: seq<Token>, ghost c: Codes, ghost all: seq<bool>)
      returns (p': nat, flags': nat, bits64': nat, bitsIn64': nat, ghost flagBits': seq<bool>, ghost group': seq<Token>)
      requires Accumulated(bits64, bitsIn64) && TableHolds(lit, c.lit) && TableHolds(dist, c.dist) && bitsIn64 < 8
      requires p < end && Going(p, end, flags, flagBits, group, after, c, all)
      requires flagBits != []
      modifies out`sent
      ensures Accumulated(bits64', bitsIn64') && bitsIn64' <= 55
      ensures p < p' && Going(p', end, flags', flagBits', group', after, c, all)
    {
      hide Accumulated, TableHolds, RestBits, FlagsValue, Reading;
      FlagsSpent(flagBits);
      flagBits', group' := flagBits[1..], group[..0];
      if flags % 2 == 1 {
        ghost var rest := tokens.codeBuf[p..end];
        NextToken(rest, flagBits, group, after);
        NextBits(c, group, after, out.sent, ItemBits(c, ItemOf(group[0])));
        RestCoded(c, group, after);
        MatchData(group[0], rest);
        var matchLen, matchDist := tokens.codeBuf[p], tokens.codeBuf[p + 1] as nat + tokens.codeBuf[p + 2] as nat * 256;
        bits64', bitsIn64' := FastMatch(matchLen, matchDist, bits64, bitsIn64, c);
        p', flags', group' := p + 3, flags / 2, group[1..];
        assert rest[3..] == tokens.codeBuf[p'..end];
      } else {
        bits64', bitsIn64' := FastLiteral(p, end, flags, bits64, bitsIn64, flagBits, group, after, c, all);
        p', flags', group' := p + 1, flags / 2, group[1..];
        SecondFlag(flagBits);
        if flags' % 2 == 0 && p' < end {
          p', flags', bits64', bitsIn64', flagBits', group' :=
            MoreLiterals(p', end, flags', bits64', bitsIn64', flagBits', group', after, c, all);
        }
      }
    }

    /** The second literal, and perhaps a third. */
    method MoreLiterals(p: nat, end: nat, flags: nat, bits64: nat, bitsIn64: nat, ghost flagBits: seq<bool>,
                        ghost group: seq<Token>, ghost after: seq<Token>, ghost c: Codes, ghost all: seq<bool>)
      returns (p': nat, flags': nat, bits64': nat, bitsIn64': nat, ghost flagBits': seq<bool>, ghost group': seq<Token>)
      requires Accumulated(bits64, bitsIn64) && TableHolds(lit, c.lit) && bitsIn64 <= 22
      requires p < end && Going(p, end, flags, flagBits, group, after, c, all)
      requires flagBits != [] && !flagBits[0]
      modifies out`sent
      ensures Accumulated(bits64', bitsIn64') && bitsIn64' <= 55
      ensures p < p' && Going(p', end, flags', flagBits', group', after, c, all)
    {
      hide Accumulated, TableHolds, RestBits, FlagsValue, Reading;
      bits64', bitsIn64' := FastLiteral(p, end, flags, bits64, bitsIn64, flagBits, group, after, c, all);
      p', flags', flagBits', group' := p + 1, flags / 2, flagBits[1..], group[1..];
      SecondFlag(flagBits);
      if flags' % 2 == 0 && p' < end {
        bits64', bitsIn64' := FastLiteral(p', end, flags', bits64', bitsIn64', flagBits', group', after, c, all);
        p', flags', flagBits', group' := p' + 1, flags' / 2, flagBits'[1..], group'[1..];
      }
    }

    lemma AccumulatedLen(bits64: nat, bitsIn64: nat)
      requires Accumulated(bits64, bitsIn64)
      ensures |out.sent| == 8 * out.pos + bitsIn64
    {
    }

    method FastRound(p: nat, end: nat, flags: nat, bits64: nat, bitsIn64: nat, ghost flagBits: seq<bool>,
                     ghost group: seq<Token>, ghost after: seq<Token>, ghost c: Codes, ghost all: seq<bool>)
      returns (stored: bool, p': nat, flags': nat, bits64': nat, bitsIn64': nat, ghost flagBits': seq<bool>,
               ghost group': seq<Token>)
      requires Separate() && Accumulated(bits64, bitsIn64) && TableHolds(lit, c.lit) && TableHolds(dist, c.dist) && bitsIn64 < 8
      requires p < end && Going(p, end, flags, flagBits, group, after, c, all)
      requires flagBits != []
      modifies out`pos, out`sent, out.buf
      ensures out.Kept() && p < p' && Going(p', end, flags', flagBits', group', after, c, all)
      ensures if stored then Accumulated(bits64', bitsIn64') && bitsIn64' < 8 else 8 * out.end <= |out.sent|
    {
      hide TableHolds, Reading, RestBits, FlagsValue, TokenCoded, Holding;
      p', flags', bits64', bitsIn64', flagBits', group' :=
        FastTokens(p, end, flags, bits64, bitsIn64, flagBits, group, after, c, all);
      stored := out.pos < out.end;
      AccumulatedLen(bits64', bitsIn64');
      if stored {
        bits64', bitsIn64' := out.Store64(bits64', bitsIn64');
      }
    }

    /** The writer that collects the bits of a match, or of three literals, before it stores them. */
    method WriteFast(ghost c: Codes, ghost ts: seq<Token>) returns (ok: bool)
      requires out.Valid() && out.pushed <= out.end && Ready(c, ts)
      modifies out`pos, out`bitBuffer, out`bitsIn, out`sent, out`pushed, out.buf
      ensures ok ==> out.Valid() && out.sent == old(out.sent) + ItemsBits(c, Items(ts)) && out.pos < out.end
      ensures out.Kept() && (ok <==> |old(out.sent) + ItemsBits(c, Items(ts))| < 8 * out.end)
    {
      hide TableHolds, Reading, RestBits, FlagsValue, TokenCoded, Holding, Items, ItemsBits;
      hide BitWriter.Valid;
      ghost var flagBits, group, after := [], [], ts;
      ghost var all := out.sent + RestBits(c, [], ts);
      StartGoing(c, ts, all);
      StartFast();
      var p, flags, end := 0, 1, tokens.codePos;
      var bits64, bitsIn64, start := out.bitBuffer, out.bitsIn, out.pos;
      while p < end
        invariant Separate() && TableHolds(lit, c.lit) && TableHolds(dist, c.dist) && Accumulated(bits64, bitsIn64)
        invariant Going(p, end, flags, flagBits, group, after, c, all) && bitsIn64 < 8 && out.Kept()
      {
        if flags == 1 {
          flags, flagBits, group, after := LoadFlags(p, end, flags, flagBits, group, after, c, all);
          p := p + 1;
        }
        var stored;
        stored, p, flags, bits64, bitsIn64, flagBits, group :=
          FastRound(p, end, flags, bits64, bitsIn64, flagBits, group, after, c, all);
        if !stored {
          // The output position is a local variable here, and only written back at the end.
          out.pos := start;
          return false;
        }
      }
      EndGoing(p, end, flags, flagBits, group, after, c, all);
      ok := EndFast(bits64, bitsIn64, c);
    }

    lemma StartFast()
      requires out.Valid() && out.pushed <= out.end
      ensures Accumulated(out.bitBuffer, out.bitsIn) && out.bitsIn < 8
    {
      hide Holding;
    }

    /** With no room left, nothing more is stored and the block has failed. */
    method EndFast(bits64: nat, bitsIn64: nat, ghost c: Codes) returns (ok: bool)
      requires Accumulated(bits64, bitsIn64) && bitsIn64 < 8 && TableHolds(lit, c.lit) && Coded(c.lit, 256)
      requires lit.codes as object != out.buf && lit.codeSizes as object != out.buf
      modifies out`pos, out`bitBuffer, out`bitsIn, out`sent, out`pushed, out.buf
      ensures ok ==> out.Valid() && out.sent == old(out.sent) + CodeOf(c.lit, 256) && out.pos < out.end
      ensures out.Kept() && (ok <==> |old(out.sent) + CodeOf(c.lit, 256)| < 8 * out.end)
    {
      hide TableHolds, Holding;
      AccumulatedLen(bits64, bitsIn64);
      ok := out.pos < out.end;
      if ok {
        out.TakeBack(bits64, bitsIn64);
        PutSym(lit, 256, c.lit);
        out.RoomLeft();
        ok := out.pos < out.end;
      }
    }
  }

  lemma MatchSent(c: Codes, l: nat, d: nat, sent: seq<bool>)
    requires Recordable(Match(l + 3, d + 1))
    ensures sent + CodeOf(c.lit, LenSym(l)) + ToBits(l % Pow2(LenExtra(l)), LenExtra(l)) + CodeOf(c.dist, DistSym(d))
          + ToBits(d % Pow2(DistExtra(d)), DistExtra(d))
         == sent + ItemBits(c, ItemOf(Match(l + 3, d + 1)))
  {
    hide LenSym, LenExtra, DistSym, DistExtra, CodeOf, ToBits, LengthExtra, DistanceExtra;
    ItemMeaning(Match(l + 3, d + 1));
    FourParts(sent, CodeOf(c.lit, LenSym(l)), ToBits(l % Pow2(LenExtra(l)), LenExtra(l)), CodeOf(c.dist, DistSym(d)),
              ToBits(d % Pow2(DistExtra(d)), DistExtra(d)));
  }

  lemma FourParts(s: seq<bool>, a: seq<bool>, b: seq<bool>, c: seq<bool>, d: seq<bool>)
    ensures s + a + b + c + d == s + (a + (b + (c + d)))
  {
  }

  lemma WholeBlock(c: Codes, ts: seq<Token>)
    requires AllRecordable(ts)
    ensures RestBits(c, [], ts) == ItemsBits(c, Items(ts))
  {
    assert [] + ts == ts;
  }

  lemma RestCoded(c: Codes, group: seq<Token>, after: seq<Token>)
    requires group != [] && AllCoded(c, group + after)
    ensures TokenCoded(c, group[0]) && AllCoded(c, group[1..] + after)
  {
    hide TokenCoded;
    assert (group + after)[0] == group[0] && group[1..] + after == (group + after)[1..];
  }

  /** The length and distance as they are read back from three bytes. */
  lemma MatchData(t: Token, rest: seq<Byte>)
    requires Recordable(t) && t.Match? && TokenData(t) <= rest
    ensures |rest| >= 3 && t == Match(rest[0] as nat + 3, (rest[1] as nat + rest[2] as nat * 256) + 1)
  {
    assert TokenData(t)[0] == rest[0] && TokenData(t)[1] == rest[1] && TokenData(t)[2] == rest[2];
  }

  lemma LiteralData(c: Codes, t: Token, rest: seq<Byte>)
    requires Recordable(t) && t.Lit? && TokenData(t) <= rest && TokenCoded(c, t)
    ensures |rest| >= 1 && t == Lit(rest[0]) && Coded(c.lit, rest[0]) && ItemBits(c, ItemOf(t)) == CodeOf(c.lit, rest[0])
  {
    assert TokenData(t)[0] == rest[0];
  }
}
