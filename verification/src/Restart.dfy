/** Blocks behind a full flush: they can be decoded without what comes before them. */
module Restarts {
  import opened Bits
  import opened Lz
  import opened Deflate
  import opened TokenBuffers
  import opened TokenItems
  import opened StreamFacts

  // ---- decoding behind more bytes ----

  lemma {:induction false} CopyShift(p: seq<Byte>, out: seq<Byte>, len: nat, dist: nat)
    requires 1 <= dist <= |out|
    ensures CopyMatch(p + out, len, dist) == p + CopyMatch(out, len, dist)
    decreases len
  {
    if len > 0 {
      var next := [out[|out| - dist]];
      assert (p + out)[|p + out| - dist] == next[0] && p + out + next == p + (out + next);
      CopyShift(p, out + next, len - 1, dist);
    }
  }

  lemma ApplyShift(p: seq<Byte>, out: seq<Byte>, t: Token)
    requires TokenOk(t, |out|)
    ensures TokenOk(t, |p + out|) && Apply(p + out, t) == p + Apply(out, t)
  {
    if t.Lit? {
      assert p + out + [t.b] == p + (out + [t.b]);
    } else {
      CopyShift(p, out, t.len, t.dist);
    }
  }

  lemma {:induction false} ItemsShift(c: Codes, items: seq<Item>, p: seq<Byte>, out: seq<Byte>)
    requires ItemsOk(c, items, |out|)
    ensures ItemsOk(c, items, |p + out|) && ItemsOut(c, items, p + out) == p + ItemsOut(c, items, out)
  {
    hide ItemOk, Meaning, Apply;
    if items != [] {
      var t := Meaning(items[0]);
      ApplyShift(p, out, t);
      ItemsShift(c, items[1..], p, Apply(out, t));
    }
  }

  /** Bytes before those that a block refers to make no difference. */
  lemma BlockShift(b: Block, p: seq<Byte>, out: seq<Byte>)
    requires BlockOk(b, |out|)
    ensures BlockOk(b, |p + out|) && BlockOut(b, p + out) == p + BlockOut(b, out)
  {
    hide ItemsOk, ItemsOut, WellFormed, FixedCodes;
    match b
    case Stored(_, data) => assert p + out + data == p + (out + data);
    case Fixed(items) => ItemsShift(FixedCodes(), items, p, out);
    case Dynamic(h, items) =>
      HeaderIsOk(h, items);
      ItemsShift(DynamicCodes(h), items, p, out);
  }

  lemma HeaderIsOk(h: Header, items: seq<Item>)
    requires WellFormed(Dynamic(h, items))
    ensures HeaderOk(h)
  {
  }

  /** What a block refers to is what its tokens refer to. */
  lemma {:induction false} ItemsNearer(c: Codes, ts: seq<Token>, n: nat, m: nat)
    requires AllRecordable(ts) && ItemsOk(c, Items(ts), n) && TokensOk(ts, m)
    ensures ItemsOk(c, Items(ts), m)
  {
    hide ItemOk, ItemOf, Meaning;
    if ts != [] {
      ItemMeaning(ts[0]);
      assert Items(ts)[0] == ItemOf(ts[0]) && Items(ts)[1..] == Items(ts[1..]);
      ItemsNearer(c, ts[1..], n + TokenLen(ts[0]), m + TokenLen(ts[0]));
    }
  }

  lemma BlockNearer(b: Block, ts: seq<Token>, n: nat, m: nat)
    requires BlockOk(b, n) && TokensOk(ts, m) && (b.Stored? || (AllRecordable(ts) && b.items == Items(ts)))
    ensures BlockOk(b, m)
  {
    hide ItemsOk, Items, TokensOk, WellFormed, FixedCodes;
    match b
    case Stored(_, _) =>
    case Fixed(_) => ItemsNearer(FixedCodes(), ts, n, m);
    case Dynamic(h, items) =>
      HeaderIsOk(h, items);
      ItemsNearer(DynamicCodes(h), ts, n, m);
  }

  // ---- a stream with a point to start from ----

  /** The blocks from mark on do not refer to what is before them, and stand for the bytes from reset on. */
  ghost predicate Restarted(blocks: seq<Block>, mark: nat, reset: nat, decoded: seq<Byte>) {
    && mark <= |blocks| && reset <= |decoded|
    && BlocksOk(blocks[..mark], []) && BlocksOut(blocks[..mark], []) == decoded[..reset]
    && BlocksOk(blocks[mark..], []) && BlocksOut(blocks[mark..], []) == decoded[reset..]
  }

  lemma RestartHere(blocks: seq<Block>, decoded: seq<Byte>)
    requires BlocksOk(blocks, []) && BlocksOut(blocks, []) == decoded
    ensures Restarted(blocks, |blocks|, |decoded|, decoded)
  {
    hide BlockOk, BlockOut;
    assert blocks[..|blocks|] == blocks && blocks[|blocks|..] == [];
    assert decoded[..|decoded|] == decoded && decoded[|decoded|..] == [];
  }

  lemma StartHere()
    ensures Restarted([], 0, 0, [])
  {
  }

  /** The next block. */
  lemma RestartedMore(blocks: seq<Block>, mark: nat, reset: nat, decoded: seq<Byte>, b: Block)
    requires Restarted(blocks, mark, reset, decoded) && BlockOk(b, |decoded| - reset)
    ensures BlockOk(b, |decoded|) && Restarted(blocks + [b], mark, reset, BlockOut(b, decoded))
  {
    hide BlockOk, BlockOut;
    var old', new' := decoded[..reset], decoded[reset..];
    assert old' + new' == decoded;
    BlockShift(b, old', new');
    AppendOk(blocks[mark..], b, []);
    assert (blocks + [b])[..mark] == blocks[..mark] && (blocks + [b])[mark..] == blocks[mark..] + [b];
    var all := BlockOut(b, decoded);
    assert all == old' + BlockOut(b, new');
    assert all[..reset] == old' && all[reset..] == BlockOut(b, new');
  }

  lemma {:induction false} BlocksBehind(bs: seq<Block>, p: seq<Byte>, out: seq<Byte>)
    requires BlocksOk(bs, out)
    ensures BlocksOk(bs, p + out) && BlocksOut(bs, p + out) == p + BlocksOut(bs, out)
  {
    hide BlockOk, BlockOut;
    if bs != [] {
      BlockShift(bs[0], p, out);
      BlocksBehind(bs[1..], p, BlockOut(bs[0], out));
    }
  }

  lemma {:induction false} BlocksJoined(a: seq<Block>, b: seq<Block>, out: seq<Byte>)
    requires BlocksOk(a, out) && BlocksOk(b, BlocksOut(a, out))
    ensures BlocksOk(a + b, out) && BlocksOut(a + b, out) == BlocksOut(b, BlocksOut(a, out))
  {
    hide BlockOk, BlockOut;
    if a == [] {
      assert a + b == b;
    } else {
      assert (a + b)[0] == a[0] && (a + b)[1..] == a[1..] + b;
      BlocksJoined(a[1..], b, BlockOut(a[0], out));
    }
  }

  /** A place to start from stays one when there is another behind it. */
  lemma RestartsStay(blocks: seq<Block>, mark: nat, reset: nat, mark': nat, reset': nat, decoded: seq<Byte>)
    requires Restarted(blocks, mark', reset', decoded) && Restarted(blocks[..mark'], mark, reset, decoded[..reset'])
    ensures Restarted(blocks, mark, reset, decoded)
  {
    hide BlocksOk, BlocksOut;
    var first, later, old' := blocks[..mark'][mark..], blocks[mark'..], decoded[..reset'][reset..];
    BlocksBehind(later, old', []);
    assert old' + [] == old';
    BlocksJoined(first, later, []);
    assert blocks[mark..] == first + later && decoded[reset..] == old' + decoded[reset'..];
    assert blocks[..mark'][..mark] == blocks[..mark] && decoded[..reset'][..reset] == decoded[..reset];
  }

  /** Where the bits of these blocks begin, in bytes. */
  ghost predicate StartsAt(blocks: seq<Block>, hdr: seq<bool>, mark: nat, start: nat) {
    && AllWellFormed(blocks) && mark <= |blocks|
    && if mark == 0 then start == 0 else 8 * start == |hdr| + |BlocksBits(blocks[..mark], false)|
  }

  lemma StartStays(blocks: seq<Block>, hdr: seq<bool>, mark: nat, start: nat, due: seq<bool>, b: Block)
    requires StartsAt(blocks, hdr, mark, start) && WellFormed(b) && (due == [] || blocks == [])
    ensures StartsAt(blocks + [b], hdr + due, mark, start)
  {
    hide WellFormed, BlocksBits;
    if mark > 0 {
      assert (blocks + [b])[..mark] == blocks[..mark] && hdr + due == hdr;
    }
  }

  // ---- what a flush adds ----

  /** A block behind others, and an empty stored one behind that for a sync or full flush. */
  predicate Follows(before: seq<Block>, after: seq<Block>, b: Block, synced: bool) {
    && before + [b] <= after && |after| == |before| + (if synced then 2 else 1)
    && (synced ==> after[|before| + 1].Stored? && after[|before| + 1].data == [])
  }

  lemma FollowsSplit(before: seq<Block>, after: seq<Block>, b: Block, synced: bool)
    requires Follows(before, after, b, synced)
    ensures after == before + [b] || after == (before + [b]) + [after[|before| + 1]]
  {
  }

  lemma MarkBelow(before: seq<Block>, after: seq<Block>, b: Block, synced: bool, mark: nat, hdr: seq<bool>, start: nat)
    requires StartsAt(before, hdr, mark, start) && Follows(before, after, b, synced)
    ensures mark < |after|
  {
    hide WellFormed, BlocksBits;
  }

  lemma RestartedFollows(before: seq<Block>, after: seq<Block>, b: Block, synced: bool, mark: nat, reset: nat, decoded: seq<Byte>)
    requires Restarted(before, mark, reset, decoded) && BlockOk(b, |decoded| - reset) && Follows(before, after, b, synced)
    requires AllWellFormed(after)
    ensures BlockOk(b, |decoded|) && Restarted(after, mark, reset, BlockOut(b, decoded))
  {
    hide Restarted, BlockOk, WellFormed;
    RestartedMore(before, mark, reset, decoded, b);
    FollowsSplit(before, after, b, synced);
    if synced {
      var e, next := after[|before| + 1], BlockOut(b, decoded);
      ResetBelow(before + [b], mark, reset, next);
      NothingStored(e, next, |next| - reset);
      RestartedMore(before + [b], mark, reset, next, e);
    }
  }

  lemma ResetBelow(blocks: seq<Block>, mark: nat, reset: nat, decoded: seq<Byte>)
    requires Restarted(blocks, mark, reset, decoded)
    ensures reset <= |decoded|
  {
  }

  lemma NothingStored(e: Block, out: seq<Byte>, n: nat)
    requires WellFormed(e) && e.Stored? && e.data == []
    ensures BlockOk(e, n) && BlockOk(e, |out|) && BlockOut(e, out) == out
  {
    assert out + [] == out;
  }

  lemma StartFollows(before: seq<Block>, after: seq<Block>, b: Block, synced: bool, hdr: seq<bool>, due: seq<bool>, mark: nat,
                     start: nat)
    requires StartsAt(before, hdr, mark, start) && Follows(before, after, b, synced) && AllWellFormed(after)
    requires due == [] || before == []
    ensures StartsAt(after, hdr + due, mark, start)
  {
    hide StartsAt, WellFormed;
    assert after[|before|] == b;
    StartStays(before, hdr, mark, start, due, b);
    FollowsSplit(before, after, b, synced);
    if synced {
      StartStays(before + [b], hdr + due, mark, start, [], after[|before| + 1]);
      assert hdr + due + [] == hdr + due;
    }
  }
}
