/** A stream grows by whole blocks. */
module StreamFacts {
  import opened Bits
  import opened Deflate

  lemma {:induction false} AppendBits(bs: seq<Block>, b: Block, ended: bool)
    requires AllWellFormed(bs) && WellFormed(b)
    ensures AllWellFormed(bs + [b])
    ensures BlocksBits(bs + [b], ended) == BlocksBits(bs, false) + BlockBits(b, ended)
  {
    hide WellFormed, BlockBits;
    var all := bs + [b];
    if bs == [] {
      assert all == [b] && all[1..] == [];
    } else {
      assert all[0] == bs[0] && all[1..] == bs[1..] + [b];
      AppendBits(bs[1..], b, ended);
      Associate(BlockBits(bs[0], false), BlocksBits(bs[1..], false), BlockBits(b, ended));
    }
  }

  lemma {:induction false} AppendOk(bs: seq<Block>, b: Block, out: seq<Byte>)
    requires BlocksOk(bs, out) && BlockOk(b, |BlocksOut(bs, out)|)
    ensures BlocksOk(bs + [b], out) && BlocksOut(bs + [b], out) == BlockOut(b, BlocksOut(bs, out))
  {
    hide BlockOk, BlockOut;
    var all := bs + [b];
    if bs == [] {
      assert all == [b] && all[1..] == [];
    } else {
      assert all[0] == bs[0] && all[1..] == bs[1..] + [b];
      AppendOk(bs[1..], b, BlockOut(bs[0], out));
    }
  }

  lemma {:induction false} AppendAligned(bs: seq<Block>, b: Block, pos: nat, ended: bool)
    requires AllWellFormed(bs) && WellFormed(b) && Aligned(bs, pos, false)
    requires b.Stored? ==> (pos + |BlocksBits(bs, false)| + 3 + |b.pad|) % 8 == 0
    ensures AllWellFormed(bs + [b]) && Aligned(bs + [b], pos, ended)
  {
    hide WellFormed, BlockBits;
    var all := bs + [b];
    if bs == [] {
      assert all == [b] && all[1..] == [];
    } else {
      assert all[0] == bs[0] && all[1..] == bs[1..] + [b];
      AppendAligned(bs[1..], b, pos + |BlockBits(bs[0], false)|, ended);
    }
  }

  /** The blocks sent so far, behind a header of hdrLen bits, and what they stand for. */
  ghost predicate SoFar(blocks: seq<Block>, ended: bool, hdr: seq<bool>, bits: seq<bool>, decoded: seq<Byte>) {
    && AllWellFormed(blocks) && BlocksOk(blocks, []) && BlocksOut(blocks, []) == decoded
    && Aligned(blocks, |hdr|, ended) && bits == hdr + BlocksBits(blocks, ended)
  }

  lemma NoBlocks(hdr: seq<bool>)
    ensures SoFar([], false, hdr, hdr, [])
  {
  }

  lemma NextBlock(blocks: seq<Block>, hdr: seq<bool>, bits: seq<bool>, decoded: seq<Byte>, b: Block, ended: bool)
    requires SoFar(blocks, false, hdr, bits, decoded) && WellFormed(b) && BlockOk(b, |decoded|)
    requires b.Stored? ==> (|bits| + 3 + |b.pad|) % 8 == 0
    ensures SoFar(blocks + [b], ended, hdr, bits + BlockBits(b, ended), BlockOut(b, decoded))
  {
    hide WellFormed, BlockOk, BlockOut, BlockBits;
    AppendBits(blocks, b, ended);
    AppendOk(blocks, b, []);
    AppendAligned(blocks, b, |hdr|, ended);
    Associate(hdr, BlocksBits(blocks, false), BlockBits(b, ended));
  }

  // ---- a stream that is being written ----

  /** The header and the blocks so far, and the end once it is there. */
  datatype Parts = Parts(blocks: seq<Block>, ended: bool, hdr: seq<bool>, body: seq<bool>, endPad: seq<bool>, endBytes: seq<Byte>)

  function Joined(p: Parts): seq<bool> {
    p.body + (p.endPad + Bytes(p.endBytes))
  }

  ghost predicate PartsOk(p: Parts, decoded: seq<Byte>) {
    && SoFar(p.blocks, p.ended, p.hdr, p.body, decoded)
    && (if p.ended then p.blocks != [] && |p.endPad| < 8 && |Joined(p)| % 8 == 0 else p.endPad == [] && p.endBytes == [])
  }

  function NoParts(): Parts {
    Parts([], false, [], [], [], [])
  }

  lemma NoPartsOk()
    ensures PartsOk(NoParts(), []) && Joined(NoParts()) == []
  {
    NoBlocks([]);
  }

  /** A block is added, with the header before it if that is due. */
  function AddBlock(p: Parts, due: seq<bool>, b: Block, final: bool): Parts
    requires WellFormed(b)
  {
    Parts(p.blocks + [b], final, p.hdr + due, (p.body + due) + BlockBits(b, final), [], [])
  }

  lemma BlockAdded(p: Parts, decoded: seq<Byte>, due: seq<bool>, b: Block)
    requires PartsOk(p, decoded) && !p.ended && WellFormed(b) && BlockOk(b, |decoded|) && (due == [] || p == NoParts())
    requires b.Stored? ==> (|Joined(p)| + |due| + 3 + |b.pad|) % 8 == 0
    ensures Joined(p) == p.body && PartsOk(AddBlock(p, due, b, false), BlockOut(b, decoded))
    ensures Joined(AddBlock(p, due, b, false)) == (Joined(p) + due) + BlockBits(b, false)
  {
    hide WellFormed, BlockOk, BlockBits, BlockOut;
    FirstBlock(p, decoded, due);
    NextBlock(p.blocks, p.hdr + due, p.body + due, decoded, b, false);
  }

  lemma FirstBlock(p: Parts, decoded: seq<Byte>, due: seq<bool>)
    requires PartsOk(p, decoded) && !p.ended && (due == [] || p == NoParts())
    ensures Joined(p) == p.body && SoFar(p.blocks, false, p.hdr + due, p.body + due, decoded)
  {
    hide Aligned, BlocksBits;
    if due == [] {
      assert p.hdr + due == p.hdr && p.body + due == p.body;
    } else {
      assert p.hdr + due == due && p.body + due == due;
      NoBlocks(due);
    }
  }

  /** The last block, and the end of the stream behind it. */
  function AddLast(p: Parts, due: seq<bool>, b: Block, pad: seq<bool>, endBytes: seq<Byte>): Parts
    requires WellFormed(b)
  {
    AddBlock(p, due, b, true).(endPad := pad, endBytes := endBytes)
  }

  lemma LastAdded(p: Parts, decoded: seq<Byte>, due: seq<bool>, b: Block, pad: seq<bool>, endBytes: seq<Byte>)
    requires PartsOk(p, decoded) && !p.ended && WellFormed(b) && BlockOk(b, |decoded|) && (due == [] || p == NoParts())
    requires b.Stored? ==> (|Joined(p)| + |due| + 3 + |b.pad|) % 8 == 0
    requires |pad| < 8 && |((Joined(p) + due) + BlockBits(b, true)) + (pad + Bytes(endBytes))| % 8 == 0
    ensures PartsOk(AddLast(p, due, b, pad, endBytes), BlockOut(b, decoded))
    ensures Joined(AddLast(p, due, b, pad, endBytes)) == ((Joined(p) + due) + BlockBits(b, true)) + (pad + Bytes(endBytes))
  {
    hide WellFormed, BlockOk, BlockBits, BlockOut;
    FirstBlock(p, decoded, due);
    NextBlock(p.blocks, p.hdr + due, p.body + due, decoded, b, true);
  }
}
