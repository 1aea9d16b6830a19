/** m_lz_code_buf: tokens packed in groups of eight behind a byte of flags, and the counts of their symbols. */
module TokenBuffers {
  import opened Bits
  import opened LenDist
  import opened Lz
  import opened MergeTrace
  import Canonical

  const LZ_CODE_BUF_SIZE: nat := 65536

  // ---- the packed form ----

  /** A token that can be recorded: its length and distance fit a byte and two bytes. */
  predicate Recordable(t: Token) {
    t.Match? ==> MIN_MATCH_LEN <= t.len <= MAX_MATCH_LEN && 1 <= t.dist <= LZ_DICT_SIZE
  }

  function TokenData(t: Token): (data: seq<Byte>)
    requires Recordable(t)
    ensures |data| == if t.Match? then 3 else 1
  {
    if t.Match? then [t.len - 3, (t.dist - 1) % 256, (t.dist - 1) / 256] else [t.b]
  }

  predicate AllRecordable(ts: seq<Token>) {
    forall i :: 0 <= i < |ts| ==> Recordable(ts[i])
  }

  function Data(ts: seq<Token>): seq<Byte>
    requires AllRecordable(ts)
  {
    if ts == [] then [] else TokenData(ts[0]) + Data(ts[1..])
  }

  function Flags(ts: seq<Token>): (fs: seq<bool>)
    ensures |fs| == |ts|
  {
    seq(|ts|, i requires 0 <= i < |ts| => ts[i].Match?)
  }

  function FlagByte(ts: seq<Token>): Byte
    requires |ts| <= 8
  {
    FlagsBelow(Flags(ts));
    FromBits(Flags(ts))
  }

  lemma FlagsBelow(fs: seq<bool>)
    requires |fs| <= 8
    ensures FromBits(fs) < 256
  {
    FromBitsBound(fs);
    Pow2Monotone(|fs|, 8);
    Pow2Values();
  }

  function Pack(ts: seq<Token>): seq<Byte>
    requires AllRecordable(ts)
  {
    if ts == [] then []
    else
      var n := if |ts| < 8 then |ts| else 8;
      [FlagByte(ts[..n])] + Data(ts[..n]) + Pack(ts[n..])
  }

  lemma {:induction false} DataAppend(ts: seq<Token>, t: Token)
    requires AllRecordable(ts) && Recordable(t)
    ensures Data(ts + [t]) == Data(ts) + TokenData(t)
  {
    if ts == [] {
      assert [t][1..] == [];
      assert ts + [t] == [t];
    } else {
      DataAppend(ts[1..], t);
      assert (ts + [t])[1..] == ts[1..] + [t];
    }
  }

  /** A group behind full groups. */
  lemma {:induction false} PackAppend(full: seq<Token>, group: seq<Token>)
    requires |full| % 8 == 0 && 1 <= |group| <= 8 && AllRecordable(full) && AllRecordable(group)
    ensures Pack(full + group) == Pack(full) + ([FlagByte(group)] + Data(group))
  {
    hide Data, FlagByte, Pack;
    var all := full + group;
    if full == [] {
      assert all == group;
      LastGroup(group);
      NoGroups();
    } else {
      assert |full| >= 8;
      PackAppend(full[8..], group);
      assert all[..8] == full[..8] && all[8..] == full[8..] + group;
      OneGroup(full);
      OneGroup(all);
    }
  }

  lemma OneGroup(ts: seq<Token>)
    requires AllRecordable(ts) && |ts| >= 8
    ensures Pack(ts) == [FlagByte(ts[..8])] + Data(ts[..8]) + Pack(ts[8..])
  {
    hide Data, FlagByte;
  }

  lemma LastGroup(ts: seq<Token>)
    requires AllRecordable(ts) && 1 <= |ts| <= 8
    ensures Pack(ts) == [FlagByte(ts)] + Data(ts)
  {
    hide Data, FlagByte;
    assert ts[..|ts|] == ts && ts[|ts|..] == [];
  }

  lemma NoGroups()
    ensures Pack([]) == []
  {
  }

  /** Eight tokens take nine bytes or more. */
  lemma {:induction false} DataLen(ts: seq<Token>)
    requires AllRecordable(ts)
    ensures |Data(ts)| >= |ts|
  {
    if ts != [] {
      DataLen(ts[1..]);
    }
  }

  lemma {:induction false} PackLen(ts: seq<Token>)
    requires AllRecordable(ts)
    ensures 8 * |Pack(ts)| >= 9 * |ts|
  {
    if ts != [] {
      var n := if |ts| < 8 then |ts| else 8;
      PackLen(ts[n..]);
      DataLen(ts[..n]);
    }
  }

  lemma {:induction false} DataShort(ts: seq<Token>)
    requires AllRecordable(ts)
    ensures |Data(ts)| <= TokensLen(ts) && |ts| <= TokensLen(ts)
  {
    if ts != [] {
      DataShort(ts[1..]);
    }
  }

  lemma {:induction false} LenConcat(a: seq<Token>, b: seq<Token>)
    ensures TokensLen(a + b) == TokensLen(a) + TokensLen(b)
  {
    if a == [] {
      assert a + b == b;
    } else {
      LenConcat(a[1..], b);
      assert (a + b)[1..] == a[1..] + b;
    }
  }

  function DataSize(ts: seq<Token>): nat {
    if ts == [] then 0 else (if ts[0].Match? then 3 else 1) + DataSize(ts[1..])
  }

  /** Where the next byte goes when these tokens have been recorded: behind the flags of the next token. */
  function CodeSize(ts: seq<Token>): nat { 1 + |ts| / 8 + DataSize(ts) }

  lemma {:induction false} DataSizeConcat(a: seq<Token>, b: seq<Token>)
    ensures DataSize(a + b) == DataSize(a) + DataSize(b)
  {
    if a == [] {
      assert a + b == b;
    } else {
      DataSizeConcat(a[1..], b);
      assert (a + b)[1..] == a[1..] + b;
    }
  }

  lemma {:induction false} DataSizeIs(ts: seq<Token>)
    requires AllRecordable(ts)
    ensures |Data(ts)| == DataSize(ts)
  {
    if ts != [] {
      DataSizeIs(ts[1..]);
    }
  }

  lemma {:induction false} GroupsSize(ts: seq<Token>)
    requires AllRecordable(ts) && |ts| % 8 == 0
    ensures |Pack(ts)| == |ts| / 8 + DataSize(ts)
  {
    hide Data, FlagByte, DataSize;
    if ts == [] {
      NoSize();
    } else {
      GroupsSize(ts[8..]);
      DataSizeIs(ts[..8]);
      DataSizeConcat(ts[..8], ts[8..]);
      assert ts[..8] + ts[8..] == ts;
    }
  }

  lemma NoSize()
    ensures DataSize([]) == 0
  {
  }

  /** Whole groups take nine bytes at most for eight that they stand for. */
  lemma {:induction false} GroupsShort(ts: seq<Token>)
    requires AllRecordable(ts) && |ts| % 8 == 0
    ensures 8 * |Pack(ts)| <= 9 * TokensLen(ts)
  {
    hide Data, FlagByte;
    if ts != [] {
      GroupsShort(ts[8..]);
      DataShort(ts[..8]);
      LenConcat(ts[..8], ts[8..]);
      assert ts[..8] + ts[8..] == ts;
    }
  }

  // ---- symbols ----

  function LitSymOf(t: Token): nat
    requires Recordable(t)
  {
    if t.Match? then LenSym(t.len - 3) else t.b
  }

  function DistSymOf(t: Token): nat
    requires Recordable(t) && t.Match?
  {
    DistSym(t.dist - 1)
  }

  predicate Counted(t: Token, lit: seq<nat>, dist: seq<nat>) {
    && Recordable(t) && LitSymOf(t) < |lit| && lit[LitSymOf(t)] > 0
    && (t.Match? ==> DistSymOf(t) < |dist| && dist[DistSymOf(t)] > 0)
  }

  // ---- how often each symbol occurs ----

  function Bump(c: seq<nat>, s: nat): (r: seq<nat>)
    ensures |r| == |c|
  {
    if s < |c| then c[s := c[s] + 1] else c
  }

  /** The counts of the literal and length symbols of these tokens. */
  function LitCounts(ts: seq<Token>): (c: seq<nat>)
    ensures |c| == 288
  {
    if ts == [] then seq(288, _ => 0) else Bump(LitCounts(ts[1..]), if Recordable(ts[0]) then LitSymOf(ts[0]) else 288)
  }

  /** The counts of the distance symbols. */
  function DistCounts(ts: seq<Token>): (c: seq<nat>)
    ensures |c| == 32
  {
    if ts == [] then seq(32, _ => 0)
    else Bump(DistCounts(ts[1..]), if Recordable(ts[0]) && ts[0].Match? then DistSymOf(ts[0]) else 32)
  }

  lemma BumpTwice(c: seq<nat>, x: nat, y: nat)
    ensures Bump(Bump(c, x), y) == Bump(Bump(c, y), x)
  {
  }

  lemma {:induction false} CountsAppend(ts: seq<Token>, t: Token)
    requires Recordable(t)
    ensures LitCounts(ts + [t]) == Bump(LitCounts(ts), LitSymOf(t))
    ensures DistCounts(ts + [t]) == Bump(DistCounts(ts), if t.Match? then DistSymOf(t) else 32)
  {
    hide LenSym, DistSym, Bump;
    var ts' := ts + [t];
    if ts == [] {
      assert ts' == [t] && ts'[1..] == [];
    } else {
      assert ts'[1..] == ts[1..] + [t] && ts'[0] == ts[0];
      CountsAppend(ts[1..], t);
      BumpTwice(LitCounts(ts[1..]), LitSymOf(t), if Recordable(ts[0]) then LitSymOf(ts[0]) else 288);
      BumpTwice(DistCounts(ts[1..]), if t.Match? then DistSymOf(t) else 32,
                if Recordable(ts[0]) && ts[0].Match? then DistSymOf(ts[0]) else 32);
    }
  }

  /** The counts of the symbols of these tokens, what they sum up to, and that each symbol is counted. */
  ghost predicate TokenCounts(ts: seq<Token>, lit: seq<nat>, dist: seq<nat>) {
    && |lit| == 288 && |dist| == 288 && Sum(lit) == |ts| && Sum(dist) <= |ts|
    && lit == LitCounts(ts) && dist[..32] == DistCounts(ts)
    && (forall i :: 0 <= i < |ts| ==> Counted(ts[i], lit, dist))
    && (forall s :: 0 <= s < 288 && (s == 256 || s >= 286) ==> lit[s] == 0)
    && (forall s :: 30 <= s < 288 ==> dist[s] == 0)
  }

  lemma LiteralCounted(ts: seq<Token>, lit: seq<nat>, dist: seq<nat>, b: Byte)
    requires TokenCounts(ts, lit, dist)
    ensures TokenCounts(ts + [Lit(b)], lit[b := lit[b] + 1], dist)
  {
    SumUpdate(lit, b, lit[b] + 1);
    CountsAppend(ts, Lit(b));
    var ts', lit' := ts + [Lit(b)], lit[b := lit[b] + 1];
    forall i | 0 <= i < |ts'| ensures Counted(ts'[i], lit', dist) {
      if i < |ts| {
        assert Counted(ts[i], lit, dist);
      }
    }
  }

  lemma MatchCounted(ts: seq<Token>, lit: seq<nat>, dist: seq<nat>, t: Token)
    requires TokenCounts(ts, lit, dist) && t.Match? && Recordable(t)
    ensures LitSymOf(t) < 286 && DistSymOf(t) < 30
    ensures TokenCounts(ts + [t], lit[LitSymOf(t) := lit[LitSymOf(t)] + 1], dist[DistSymOf(t) := dist[DistSymOf(t)] + 1])
  {
    hide LenSym, DistSym;
    SymbolRange(t);
    var l, d := LitSymOf(t), DistSymOf(t);
    SumUpdate(lit, l, lit[l] + 1);
    SumUpdate(dist, d, dist[d] + 1);
    CountsAppend(ts, t);
    assert dist[d := dist[d] + 1][..32] == dist[..32][d := dist[d] + 1];
    var ts', lit', dist' := ts + [t], lit[l := lit[l] + 1], dist[d := dist[d] + 1];
    forall i | 0 <= i < |ts'| ensures Counted(ts'[i], lit', dist') {
      if i < |ts| {
        assert Counted(ts[i], lit, dist);
      }
    }
  }

  // ---- facts about one group ----

  lemma ShiftBits(b: Byte, m: bool)
    ensures b / 2 + (if m then 128 else 0) < 256
    ensures ToBits(b / 2 + (if m then 128 else 0), 8) == ToBits(b, 8)[1..] + [m]
  {
    Pow2Values();
    var w: nat := if m then 1 else 0;
    ToBitsAppend(b / 2, 7, w, 1);
    assert ToBits(w, 1) == [m];
  }

  lemma ShiftedFlags(bits: seq<bool>, left: nat, group: seq<Token>)
    requires |bits| == 8 && left < 8 && |group| == 8 - left && bits[left + 1..] == Flags(group[..|group| - 1])
    ensures (bits[1..] + [group[|group| - 1].Match?])[left..] == Flags(group)
  {
  }

  lemma FullFlags(b: Byte, group: seq<Token>)
    requires |group| == 8 && ToBits(b, 8)[0..] == Flags(group)
    ensures FlagByte(group) == b
  {
    FromToBits(b, 8);
    Pow2Values();
    DivModUnique(b, 256, 0, b);
  }

  /** A full group joins the groups before it. */
  lemma GroupPacked(buf: seq<Byte>, flagsPos: nat, codePos: nat, full: seq<Token>, group: seq<Token>)
    requires flagsPos < codePos <= |buf| && |full| % 8 == 0 && |group| == 8 && AllRecordable(full) && AllRecordable(group)
    requires buf[..flagsPos] == Pack(full) && buf[flagsPos + 1..codePos] == Data(group)
    requires ToBits(buf[flagsPos], 8)[0..] == Flags(group)
    ensures AllRecordable(full + group) && |full + group| % 8 == 0 && buf[..codePos] == Pack(full + group)
  {
    hide Pack, Data, ToBits, Flags;
    FullFlags(buf[flagsPos], group);
    PackAppend(full, group);
    assert buf[..codePos] == buf[..flagsPos] + ([buf[flagsPos]] + buf[flagsPos + 1..codePos]);
  }

  /** The flags of a group that is not full, once they are shifted down. */
  lemma LastFlags(b: Byte, left: nat, group: seq<Token>)
    requires 1 <= left <= 8 && |group| == 8 - left && ToBits(b, 8)[left..] == Flags(group)
    ensures Shr(b, left) == FlagByte(group)
  {
    ToBitsSplit(b, left, 8);
    assert ToBits(Shr(b, left), 8 - left) == Flags(group);
    FromToBits(Shr(b, left), 8 - left);
    Pow2Values();
    Canonical.ShrBound(b, left, 8 - left);
    DivModUnique(Shr(b, left), Pow2(8 - left), 0, Shr(b, left));
  }

  lemma TokenTotal(ts: seq<Token>, t: Token)
    ensures TokensLen(ts + [t]) == TokensLen(ts) + TokenLen(t)
  {
    if ts == [] {
      assert [t][1..] == [];
      assert ts + [t] == [t];
    } else {
      TokenTotal(ts[1..], t);
      assert (ts + [t])[1..] == ts[1..] + [t];
    }
  }

  lemma SymbolRange(t: Token)
    requires Recordable(t)
    ensures LitSymOf(t) <= 285 && LitSymOf(t) != 256 && (t.Match? ==> DistSymOf(t) < 30)
  {
    if t.Match? {
      LengthsAgree(t.len - 3);
      DistancesAgree(t.dist - 1);
    }
  }

  lemma {:induction false} SumUpdate(s: seq<nat>, i: nat, v: nat)
    requires i < |s|
    ensures Sum(s[i := v]) == Sum(s) - s[i] + v
  {
    var n := |s| - 1;
    if i == n {
      assert s[i := v][..n] == s[..n];
    } else {
      SumUpdate(s[..n], i, v);
      assert s[i := v][..n] == s[..n][i := v];
    }
  }

  lemma {:induction false} SumZeros(s: seq<nat>)
    requires forall i :: 0 <= i < |s| ==> s[i] == 0
    ensures Sum(s) == 0
  {
    if s != [] {
      SumZeros(s[..|s| - 1]);
    }
  }

  // ---- recording ----

  class TokenBuffer {
    const codeBuf: array<Byte>
    const litCount: array<nat>
    const distCount: array<nat>
    var codePos: nat
    var flagsPos: nat
    var numFlagsLeft: nat
    var totalLzBytes: nat
    /** The tokens in full groups, and those of the group that is being filled. */
    ghost var full: seq<Token>
    ghost var group: seq<Token>

    ghost function Tokens(): seq<Token>
      reads this
    {
      full + group
    }

    ghost predicate Shape() {
      && codeBuf.Length == LZ_CODE_BUF_SIZE && litCount.Length == 288 && distCount.Length == 288 && litCount != distCount
    }

    /** The bytes of the group that is being filled, behind its flags. */
    ghost predicate Packed()
      reads this, codeBuf
    {
      && codeBuf.Length == LZ_CODE_BUF_SIZE && flagsPos < codePos <= LZ_CODE_BUF_SIZE
      && AllRecordable(full) && AllRecordable(group) && |full| % 8 == 0
      && codeBuf[..flagsPos] == Pack(full) && codeBuf[flagsPos + 1..codePos] == Data(group)
    }

    /** The flags of the group are the high bits of its flag byte. */
    ghost predicate Flagged()
      reads this, codeBuf
    {
      && codeBuf.Length == LZ_CODE_BUF_SIZE && flagsPos < LZ_CODE_BUF_SIZE
      && |group| == 8 - numFlagsLeft && 1 <= numFlagsLeft <= 8
      && ToBits(codeBuf[flagsPos], 8)[numFlagsLeft..] == Flags(group)
    }

    ghost predicate Valid()
      reads this, codeBuf, litCount, distCount
    {
      Shape() && Packed() && Flagged() && TokenCounts(Tokens(), litCount[..], distCount[..]) && totalLzBytes == TokensLen(Tokens())
    }

    /** A full buffer stands for more than 31 KB. */
    lemma FullMeans()
      requires Valid() && codePos > LZ_CODE_BUF_SIZE - 8
      ensures totalLzBytes > 31 * 1024
    {
      hide Pack, Data, TokenCounts, Flags, TokensLen;
      GroupsShort(full);
      DataShort(group);
      LenConcat(full, group);
    }

    /** How much of the buffer is used follows from the tokens. */
    lemma SizeIs()
      requires Valid()
      ensures codePos == CodeSize(Tokens()) && totalLzBytes == TokensLen(Tokens())
    {
      hide Pack, Data, TokenCounts, Flags, TokensLen, DataSize;
      GroupsSize(full);
      DataSizeIs(group);
      DataSizeConcat(full, group);
    }

    constructor (litCount: array<nat>, distCount: array<nat>)
      requires litCount.Length == 288 && distCount.Length == 288 && litCount != distCount
      requires (forall s :: 0 <= s < 288 ==> litCount[s] == 0) && forall s :: 0 <= s < 288 ==> distCount[s] == 0
      ensures Valid() && Tokens() == [] && codePos == 1 && fresh(codeBuf) && this.litCount == litCount && this.distCount == distCount
    {
      codeBuf := new Byte[LZ_CODE_BUF_SIZE];
      this.litCount, this.distCount := litCount, distCount;
      codePos, flagsPos, numFlagsLeft, totalLzBytes, full, group := 1, 0, 8, 0, [], [];
      new;
      SumZeros(litCount[..]);
      SumZeros(distCount[..]);
    }

    /** tdefl_record_literal */
    method RecordLiteral(lit: Byte)
      requires Valid() && codePos + 2 <= LZ_CODE_BUF_SIZE
      modifies this, codeBuf, litCount
      ensures Valid() && Tokens() == old(Tokens()) + [Lit(lit)]
      ensures totalLzBytes == old(totalLzBytes) + 1 && codePos <= old(codePos) + 2
    {
      hide Pack, Data, Flags, ToBits, Sum, TokensLen, Counted, TokenCounts;
      ghost var t := Lit(lit);
      TokenTotal(Tokens(), t);
      totalLzBytes := totalLzBytes + 1;
      PutByte(lit);
      Joined(t, old(codeBuf[flagsPos + 1..codePos]));
      ShiftFlag(false);
      CountLiteral(lit, old(Tokens()));
    }

    /** tdefl_record_match */
    method RecordMatch(matchLen: nat, matchDist: nat)
      requires Valid() && codePos + 4 <= LZ_CODE_BUF_SIZE && Recordable(Match(matchLen, matchDist)) && matchLen >= 3
      modifies this, codeBuf, litCount, distCount
      ensures Valid() && Tokens() == old(Tokens()) + [Match(matchLen, matchDist)]
      ensures totalLzBytes == old(totalLzBytes) + matchLen && codePos <= old(codePos) + 4
    {
      hide Pack, Data, Flags, ToBits, Sum, TokensLen, LenSym, DistSym, Counted, TokenCounts;
      TokenTotal(Tokens(), Match(matchLen, matchDist));
      totalLzBytes := totalLzBytes + matchLen;
      AppendMatch(matchLen, matchDist - 1);
      CountMatch(matchLen, matchDist - 1, old(Tokens()));
    }

    method AppendMatch(matchLen: nat, dist: nat)
      requires Shape() && Packed() && Flagged() && codePos + 4 <= LZ_CODE_BUF_SIZE
      requires matchLen >= 3 && Recordable(Match(matchLen, dist + 1))
      modifies this`codePos, this`flagsPos, this`numFlagsLeft, this`full, this`group, codeBuf
      ensures Packed() && Flagged() && Tokens() == old(Tokens()) + [Match(matchLen, dist + 1)] && codePos <= old(codePos) + 4
    {
      hide Pack, Data, Flags, ToBits;
      PutByte(matchLen - 3);
      PutByte(dist % 256);
      PutByte(dist / 256);
      Joined(Match(matchLen, dist + 1), old(codeBuf[flagsPos + 1..codePos]));
      ShiftFlag(true);
    }

    method PutByte(b: Byte)
      requires codeBuf.Length == LZ_CODE_BUF_SIZE && flagsPos < codePos < LZ_CODE_BUF_SIZE
      modifies this`codePos, codeBuf
      ensures codePos == old(codePos) + 1 && codeBuf[..flagsPos] == old(codeBuf[..flagsPos])
      ensures codeBuf[flagsPos] == old(codeBuf[flagsPos])
      ensures codeBuf[flagsPos + 1..codePos] == old(codeBuf[flagsPos + 1..codePos]) + [b]
    {
      codeBuf[codePos] := b;
      codePos := codePos + 1;
      assert codeBuf[flagsPos + 1..codePos] == codeBuf[flagsPos + 1..codePos - 1] + [b];
    }

    /** The bytes of a token have been put behind those of its group. */
    ghost method Joined(t: Token, before: seq<Byte>)
      requires codeBuf.Length == LZ_CODE_BUF_SIZE && flagsPos < codePos <= LZ_CODE_BUF_SIZE && Recordable(t)
      requires AllRecordable(full) && AllRecordable(group) && |full| % 8 == 0 && codeBuf[..flagsPos] == Pack(full)
      requires before == Data(group) && codeBuf[flagsPos + 1..codePos] == before + TokenData(t)
      modifies this`group
      ensures Packed() && group == old(group) + [t] && Tokens() == old(Tokens()) + [t]
    {
      hide Pack, Data;
      DataAppend(group, t);
      group := group + [t];
      assert full + group == old(full + group) + [t];
    }

    /** The flag of the last token is shifted in; a full group is followed by a new one. */
    method ShiftFlag(isMatch: bool)
      requires Shape() && Packed() && 1 <= numFlagsLeft <= 8 && |group| == 9 - numFlagsLeft
      requires isMatch == group[|group| - 1].Match? && codePos < LZ_CODE_BUF_SIZE
      requires ToBits(codeBuf[flagsPos], 8)[numFlagsLeft..] == Flags(group[..|group| - 1])
      modifies this`codePos, this`flagsPos, this`numFlagsLeft, this`full, this`group, codeBuf
      ensures Packed() && Flagged() && Tokens() == old(Tokens()) && codePos <= old(codePos) + 1
    {
      hide Pack, Data, TokenData, Recordable, ToBits, Flags, AllRecordable;
      ghost var b := codeBuf[flagsPos];
      ShiftBits(b, isMatch);
      codeBuf[flagsPos] := codeBuf[flagsPos] / 2 + (if isMatch then 128 else 0);
      assert codeBuf[flagsPos + 1..codePos] == old(codeBuf[flagsPos + 1..codePos]);
      assert codeBuf[..flagsPos] == old(codeBuf[..flagsPos]);
      numFlagsLeft := numFlagsLeft - 1;
      ShiftedFlags(ToBits(b, 8), numFlagsLeft, group);
      if numFlagsLeft == 0 {
        NextGroup();
      }
    }

    method NextGroup()
      requires Shape() && Packed() && numFlagsLeft == 0 && |group| == 8 && codePos < LZ_CODE_BUF_SIZE
      requires ToBits(codeBuf[flagsPos], 8)[0..] == Flags(group)
      modifies this`codePos, this`flagsPos, this`numFlagsLeft, this`full, this`group
      ensures Packed() && Flagged() && Tokens() == old(Tokens()) && codePos == old(codePos) + 1
    {
      hide Pack, Data, AllRecordable, Flags, ToBits;
      GroupPacked(codeBuf[..], flagsPos, codePos, full, group);
      numFlagsLeft, flagsPos, codePos := 8, codePos, codePos + 1;
      full, group := full + group, [];
      assert full + group == old(full + group);
      NoData(codeBuf[flagsPos]);
    }

    method CountLiteral(lit: Byte, ghost ts: seq<Token>)
      requires Shape() && TokenCounts(ts, litCount[..], distCount[..])
      modifies litCount
      ensures TokenCounts(ts + [Lit(lit)], litCount[..], distCount[..])
    {
      ghost var before := litCount[..];
      LiteralCounted(ts, before, distCount[..], lit);
      litCount[lit] := litCount[lit] + 1;
      assert litCount[..] == before[lit := before[lit] + 1];
    }

    method CountMatch(len: nat, dist: nat, ghost ts: seq<Token>)
      requires Shape() && TokenCounts(ts, litCount[..], distCount[..]) && Recordable(Match(len, dist + 1))
      modifies litCount, distCount
      ensures TokenCounts(ts + [Match(len, dist + 1)], litCount[..], distCount[..])
    {
      hide LenSym, SmallDistSym, LargeDistSym, Counted;
      ghost var lit, dst := litCount[..], distCount[..];
      MatchCounted(ts, lit, dst, Match(len, dist + 1));
      var s := if dist < 512 then SmallDistSym(dist) else LargeDistSym(dist / 256);
      distCount[s] := distCount[s] + 1;
      litCount[LenSym(len - 3)] := litCount[LenSym(len - 3)] + 1;
      assert distCount[..] == dst[s := dst[s] + 1];
      assert litCount[..] == lit[LenSym(len - 3) := lit[LenSym(len - 3)] + 1];
    }

    /** What tdefl_flush_block does to the buffer before it is read: the flags of the last group are shifted down. */
    method Close()
      requires Valid()
      modifies this`codePos, codeBuf
      ensures codePos <= LZ_CODE_BUF_SIZE && codeBuf[..codePos] == Pack(Tokens()) && TokenCounts(Tokens(), litCount[..], distCount[..])
      ensures totalLzBytes == TokensLen(Tokens())
    {
      hide Data, Pack, Flags, ToBits, Sum, TokensLen, Counted;
      LastFlags(codeBuf[flagsPos], numFlagsLeft, group);
      codeBuf[flagsPos] := Shr(codeBuf[flagsPos], numFlagsLeft);
      assert codeBuf[flagsPos + 1..codePos] == old(codeBuf[flagsPos + 1..codePos]);
      assert codeBuf[..flagsPos] == old(codeBuf[..flagsPos]);
      if numFlagsLeft == 8 {
        NoGroup(group, codeBuf[flagsPos + 1..codePos]);
        assert full + group == full;
        codePos := codePos - 1;
      } else {
        PackAppend(full, group);
        assert codeBuf[..codePos] == codeBuf[..flagsPos] + ([codeBuf[flagsPos]] + codeBuf[flagsPos + 1..codePos]);
      }
    }

    method Reset()
      requires Shape()
      modifies this, litCount, distCount
      ensures Valid() && Tokens() == [] && codePos == 1
    {
      for s := 0 to 288
        invariant forall j :: 0 <= j < s ==> litCount[j] == 0 && distCount[j] == 0
      {
        litCount[s], distCount[s] := 0, 0;
      }
      SumZeros(litCount[..]);
      SumZeros(distCount[..]);
      codePos, flagsPos, numFlagsLeft, totalLzBytes, full, group := 1, 0, 8, 0, [], [];
      assert codeBuf[..0] == [] && codeBuf[1..1] == [];
    }
  }

  lemma NoData(flags: Byte)
    ensures AllRecordable([]) && Data([]) == [] && ToBits(flags, 8)[8..] == Flags([])
  {
  }

  lemma NoGroup(group: seq<Token>, data: seq<Byte>)
    requires group == [] && data == Data(group)
    ensures data == []
  {
  }
}
