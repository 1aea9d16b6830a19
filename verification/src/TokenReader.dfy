/** Reading the packed tokens back, as both block writers do. */
module TokenReaders {
  import opened Bits
  import opened Lz
  import opened TokenBuffers

  /**
    The rest of a buffer holds the rest of the current group, whose flags are the first bits of flagBits, and then the groups
    after it.
   */
  ghost predicate Reading(rest: seq<Byte>, flagBits: seq<bool>, group: seq<Token>, after: seq<Token>) {
    && AllRecordable(group) && AllRecordable(after) && |flagBits| <= 8
    && Flags(group) <= flagBits && (|group| < |flagBits| ==> after == [])
    && rest == Data(group) + Pack(after)
  }

  /** The variable "flags": the flags left, and a one above them that tells when they are used up. */
  function FlagsValue(flagBits: seq<bool>): nat {
    FromBits(flagBits + [true])
  }

  lemma FlagsSpent(flagBits: seq<bool>)
    ensures FlagsValue(flagBits) == 1 <==> flagBits == []
    ensures flagBits != [] ==> FlagsValue(flagBits) / 2 == FlagsValue(flagBits[1..])
    ensures flagBits != [] ==> (FlagsValue(flagBits) % 2 == 1 <==> flagBits[0])
  {
    FromBitsConcat(flagBits, [true]);
    assert [true][1..] == [];
    if flagBits != [] {
      assert (flagBits + [true])[1..] == flagBits[1..] + [true];
      FromBitsConcat(flagBits[1..], [true]);
    }
  }

  /** flags & 2: whether the token after the next is a match, or there is none in this group. */
  lemma SecondFlag(flagBits: seq<bool>)
    requires flagBits != []
    ensures FlagsValue(flagBits) / 2 % 2 == 0 <==> |flagBits| >= 2 && !flagBits[1]
  {
    FlagsSpent(flagBits);
    if |flagBits| >= 2 {
      FlagsSpent(flagBits[1..]);
    } else {
      assert flagBits[1..] == [];
      FlagsSpent(flagBits[1..]);
    }
  }

  /** byte | 0x100 */
  lemma FlagsLoaded(b: Byte)
    ensures b + 256 == FlagsValue(ToBits(b, 8))
  {
    FromBitsConcat(ToBits(b, 8), [true]);
    FromToBits(b, 8);
    Pow2Values();
    assert [true][1..] == [];
    DivModUnique(b, 256, 0, b);
  }

  lemma {:induction false} FlagsPadded(fs: seq<bool>, n: nat)
    requires |fs| <= n
    ensures fs <= ToBits(FromBits(fs), n)
  {
    ToBitsSplit(FromBits(fs), |fs|, n);
    ToFromBits(fs);
  }

  lemma StartReading(ts: seq<Token>)
    requires AllRecordable(ts)
    ensures Reading(Pack(ts), [], [], ts)
  {
    assert Data([]) + Pack(ts) == Pack(ts);
  }

  /** At a group's end the flags of the next group follow. */
  lemma NextFlags(rest: seq<Byte>, after: seq<Token>)
    requires Reading(rest, [], [], after) && rest != []
    ensures after != []
    ensures var n := if |after| < 8 then |after| else 8;
      Reading(rest[1..], ToBits(rest[0], 8), after[..n], after[n..]) && rest[1..] != []
  {
    hide Data, ToBits, FromBits;
    AtBoundary(rest, after);
    NextGroup(after);
    var n := if |after| < 8 then |after| else 8;
    var group := after[..n];
    FlagsPadded(Flags(group), 8);
    DataLen(group);
  }

  lemma AtBoundary(rest: seq<Byte>, after: seq<Token>)
    requires Reading(rest, [], [], after) && rest != []
    ensures rest == Pack(after) && after != []
  {
    assert Data([]) + Pack(after) == Pack(after);
  }

  lemma NextGroup(after: seq<Token>)
    requires AllRecordable(after) && after != []
    ensures var n := if |after| < 8 then |after| else 8;
      Pack(after)[0] == FromBits(Flags(after[..n])) && Pack(after)[1..] == Data(after[..n]) + Pack(after[n..])
  {
    hide Data, FlagByte;
    var n := if |after| < 8 then |after| else 8;
    HeadAndTail(FlagByte(after[..n]), Data(after[..n]), Pack(after[n..]));
    FlagByteOf(after[..n]);
  }

  lemma HeadAndTail(b: Byte, d: seq<Byte>, p: seq<Byte>)
    ensures ([b] + d + p)[0] == b && ([b] + d + p)[1..] == d + p
  {
  }

  lemma FlagByteOf(group: seq<Token>)
    requires |group| <= 8
    ensures FlagByte(group) == FromBits(Flags(group))
  {
  }

  lemma NothingLeft(rest: seq<Byte>, flagBits: seq<bool>, after: seq<Token>)
    requires Reading(rest, flagBits, [], after) && flagBits != []
    ensures rest == []
  {
    assert Data([]) == [] && Pack([]) == [];
  }

  /** The next token of the group. */
  lemma NextToken(rest: seq<Byte>, flagBits: seq<bool>, group: seq<Token>, after: seq<Token>)
    requires Reading(rest, flagBits, group, after) && rest != [] && flagBits != []
    ensures group != [] && flagBits[0] == group[0].Match? && TokenData(group[0]) <= rest
    ensures Reading(rest[|TokenData(group[0])|..], flagBits[1..], group[1..], after)
  {
    if group == [] {
      NothingLeft(rest, flagBits, after);
    } else {
      var data := TokenData(group[0]);
      assert Flags(group)[0] == flagBits[0];
      assert rest == data + (Data(group[1..]) + Pack(after));
      assert Flags(group[1..]) == Flags(group)[1..];
    }
  }
}
