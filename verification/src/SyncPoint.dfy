/** A decoder that has been given everything up to the end of a block has decoded everything up to there. */
module SyncPoints {
  import opened Bits
  import opened Deflate
  import opened StreamFacts
  import opened InflateSteps
  import opened Inflaters

  /** How many bits the first j blocks take. */
  function EndOf(all: seq<Block>, j: nat): int
    requires AllWellFormed(all) && j <= |all|
  {
    |BlocksBits(all, true)| - |BlocksBits(all[j..], true)|
  }

  lemma OneBlock(all: seq<Block>, j: nat)
    requires AllWellFormed(all) && j < |all|
    ensures EndOf(all, j + 1) == EndOf(all, j) + 3 + |BodyBits(all[j])|
  {
    hide BodyBits, WellFormed;
    var rest := all[j..];
    assert rest[0] == all[j] && rest[1..] == all[j + 1..];
  }

  lemma {:induction false} LaterEnds(all: seq<Block>, i: nat, j: nat)
    requires AllWellFormed(all) && i <= j <= |all|
    ensures EndOf(all, j) >= EndOf(all, i) + 3 * (j - i)
    decreases j - i
  {
    hide BodyBits, WellFormed, EndOf;
    if i < j {
      LaterEnds(all, i, j - 1);
      OneBlock(all, j - 1);
    }
  }

  lemma {:induction false} FirstBlocks(all: seq<Block>, k: nat)
    requires AllWellFormed(all) && k < |all|
    ensures AllWellFormed(all[..k]) && |BlocksBits(all[..k], false)| == EndOf(all, k)
  {
    hide BodyBits, WellFormed;
    if k == 0 {
      assert all[0..] == all && all[..0] == [];
    } else {
      FirstBlocks(all, k - 1);
      AppendBits(all[..k - 1], all[k - 1], false);
      assert all[..k] == all[..k - 1] + [all[k - 1]];
      OneBlock(all, k - 1);
    }
  }

  lemma {:induction false} OutGrows(all: seq<Block>, out: seq<Byte>, k: nat)
    requires BlocksOk(all, out) && k <= |all|
    ensures BlocksOk(all[..k], out) && BlocksOut(all[..k], out) <= BlocksOut(all, out)
  {
    hide BlockOk, BlockOut;
    if k == 0 {
      assert all[..0] == [];
    } else {
      OutGrows(all[1..], BlockOut(all[0], out), k - 1);
      assert all[..k][0] == all[0] && all[..k][1..] == all[1..][..k - 1];
    }
  }

  /** Until the end of the blocks, the end of the stream is what it was. */
  lemma TailStays(d: Inflater)
    requires d.Inv() && (d.bits != [] || d.blocks != [])
    ensures d.TailOk()
  {
    hide Inflater.Stream, Inflater.Framing, Inflater.Shape, Inflater.TailOk, AtData, AtStoredHeader, AtHeader, HeaderOk;
    hide TableReady, AtItems, AtMatch, AtMatchHead, Inflater.SizesRead;
  }

  /** Where the current block ends, by the bits read and by the blocks. */
  lemma Position(d: Inflater)
    requires d.Inv() && d.Whole() && (d.bits != [] || d.blocks != [])
    ensures |d.blocks| <= |d.all| && d.reader.taken + |d.bits| == 8 * |d.hdr| + EndOf(d.all, |d.all| - |d.blocks|)
  {
    hide Inflater.AtState, Inflater.Framing, Inflater.Shape, BlocksDone, BlockRoom, BlocksBits, BlocksOk, BlocksOut;
    TailStays(d);
  }

  /** The current block has begun behind its first three bits. */
  lemma Begins(d: Inflater)
    requires d.Inv() && d.Whole()
    ensures var j := |d.all| - |d.blocks|;
      j >= 0 && BlocksDone(d.all, j, d.goal) && |d.bits| <= BlockRoom(d.all, j)
  {
    hide Inflater.AtState, Inflater.Framing, Inflater.Shape, BlocksDone, BlockRoom, BlocksBits, BlocksOk, BlocksOut;
  }

  lemma RoomIs(all: seq<Block>, j: nat)
    requires AllWellFormed(all) && 1 <= j <= |all|
    ensures BlockRoom(all, j) == |BodyBits(all[j - 1])|
  {
  }

  /**
    When the decoder asks for more, and what it has read so far ends where the first k blocks end, it has decoded all that
    these stand for.
   */
  lemma CaughtUp(d: Inflater, k: nat)
    requires d.Inv() && d.Whole() && d.Starved() && k < |d.all|
    requires AllWellFormed(d.all[..k]) && 8 * d.reader.fed == 8 * |d.hdr| + |BlocksBits(d.all[..k], false)|
    ensures BlocksOk(d.all[..k], []) && BlocksOut(d.all[..k], []) <= d.window.out
  {
    hide Inflater.Inv, EndOf, BlockRoom, BodyBits, WellFormed, BlocksBits, BlockOk, BlockOut;
    d.FedIs();
    FirstBlocks(d.all, k);
    OutGrows(d.all, [], k);
    Begins(d);
    var j := |d.all| - |d.blocks|;
    if d.bits == [] && d.blocks == [] {
      assert d.all[..j] == d.all;
    } else {
      Position(d);
      if d.reader.numBits < |d.bits| {
        if k >= j {
          LaterEnds(d.all, j, k);
        } else {
          RoomIs(d.all, j);
          OneBlock(d.all, j - 1);
          LaterEnds(d.all, k, j - 1);
        }
        assert false;
      } else if k > j {
        LaterEnds(d.all, j, k);
      } else if k < j {
        LaterEnds(d.all, k, j);
      }
    }
  }
}
