/** tinfl_decompress: the decoder as a coroutine that can be left and resumed wherever input or room for output runs out. */
module Inflaters {
  import opened Bits
  import opened Canonical
  import opened TableBound
  import opened HuffTables
  import opened BitReaders
  import opened Windows
  import opened LenDist
  import opened Lz
  import opened Deflate
  import opened InflateSteps
  import opened Adler32
  import Rle = CodeLengthRle

  datatype Status = Running | Done | NeedsMoreInput | HasMoreOutput | Failed | AdlerMismatch

  /** The points at which the coroutine can be resumed, and those that its loops go back to. */
  datatype State =
    | ZlibHeader | BlockHeader | RawHeader | RawBits | RawByteOut | RawCopy | TableSizes | ClenSizes | BuildTable
    | RleSym | RleExtra | LitSym | LitOut | LenExtra | DistSym | DistExtra | CopyOut | BlockEnd | Trailer | Finished

  /** The table decodes these codes, none of which is longer than 15 bits. */
  ghost predicate TableReady(t: HuffTable, codes: seq<seq<bool>>)
    reads t.lookUp, t.tree
  {
    t.Decodes(codes) && forall s :: 0 <= s < |codes| ==> |codes[s]| <= 15
  }

  lemma ReadyTable(t: HuffTable, lens: seq<nat>)
    requires t.Ready(lens)
    ensures TableReady(t, CodesOf(lens))
  {
  }

  predicate ZlibHeaderOk(hdr: seq<Byte>) {
    && |hdr| == 2 && (hdr[0] as int * 256 + hdr[1]) % 31 == 0 && hdr[1] / 32 % 2 == 0 && hdr[0] % 16 == 8
    && hdr[0] / 16 <= 7
  }

  /** Four bytes, the most significant first. */
  function BigEndian(s: seq<Byte>): nat {
    if s == [] then 0 else BigEndian(s[..|s| - 1]) * 256 + s[|s| - 1]
  }

  lemma NoDigits()
    ensures BigEndian([]) == 0
  {
  }

  lemma NoneRead(trailer: seq<Byte>)
    ensures trailer[0..] == trailer && (Pow2(8 * 0) + BigEndian(trailer[..0])) % WORD == 1
  {
    NoDigits();
    assert trailer[..0] == [];
  }

  /** m_tables, m_raw_header, m_len_codes and m_table_sizes. */
  class TableSet {
    const table0: HuffTable
    const table1: HuffTable
    const table2: HuffTable
    const rawHeader: array<nat>
    const lenCodes: array<nat>
    const tableSizes: array<nat>

    ghost function Arrays(): set<object> {
      {rawHeader as object, lenCodes, tableSizes, table0.codeSize, table1.codeSize, table2.codeSize,
       table0.lookUp, table0.tree, table1.lookUp, table1.tree, table2.lookUp, table2.tree}
    }

    ghost predicate Valid() {
      && table0.Valid() && table1.Valid() && table2.Valid()
      && rawHeader.Length == 4 && lenCodes.Length == 457 && tableSizes.Length == 3
      && rawHeader != lenCodes && rawHeader != tableSizes && lenCodes != tableSizes
      && table0.codeSize != rawHeader && table0.codeSize != lenCodes && table0.codeSize != tableSizes
      && table1.codeSize != rawHeader && table1.codeSize != lenCodes && table1.codeSize != tableSizes
      && table2.codeSize != rawHeader && table2.codeSize != lenCodes && table2.codeSize != tableSizes
      && table0.codeSize != table1.codeSize && table0.codeSize != table2.codeSize && table1.codeSize != table2.codeSize
      && table0.lookUp != table1.lookUp && table0.lookUp != table1.tree && table0.tree != table1.lookUp
      && table0.lookUp != table2.lookUp && table0.lookUp != table2.tree && table0.tree != table2.lookUp
      && table1.lookUp != table2.lookUp && table1.lookUp != table2.tree && table1.tree != table2.lookUp
      && table0.tree != table1.tree && table0.tree != table2.tree && table1.tree != table2.tree
    }

    constructor ()
      ensures Valid() && fresh(Arrays())
    {
      table0 := new HuffTable();
      table1 := new HuffTable();
      table2 := new HuffTable();
      rawHeader := new nat[4];
      lenCodes := new nat[457];
      tableSizes := new nat[3];
    }
  }

  /** m_check_adler32 */
  class RunningSum {
    var value: nat

    constructor ()
      ensures value == 1
    {
      value := 1;
    }
  }

  /** A stream: in the zlib form with a header and a checksum around the blocks. */
  datatype ZStream = ZStream(zlib: bool, hdr: seq<Byte>, blocks: seq<Block>, pad: seq<bool>, trailer: seq<Byte>)

  function ZTail(s: ZStream): seq<bool> {
    if s.zlib then s.pad + Bytes(s.trailer) else []
  }

  function ZStreamBits(s: ZStream): seq<bool>
    requires AllWellFormed(s.blocks)
  {
    Bytes(s.hdr) + (BlocksBits(s.blocks, true) + ZTail(s))
  }

  lemma InitialSum()
    ensures Value(Checksum(INIT, [])) == 1
  {
  }

  /** What a stream needs at its start, and the size of what precedes its blocks. */
  lemma StreamStart(s: ZStream)
    requires ZStreamOk(s)
    ensures Following(s.blocks, s.blocks, ZTail(s), BlocksBits(s.blocks, true) + ZTail(s), |Bytes(s.hdr)|, |Bytes(s.hdr)|, [],
                      BlocksOut(s.blocks, []))
    ensures !s.zlib ==> Bytes(s.hdr) == []
    ensures s.hdr[0..] == s.hdr && |s.hdr| == (if s.zlib then 2 else 0)
  {
  }

  /** A valid stream. */
  ghost predicate ZStreamOk(s: ZStream) {
    && s.blocks != [] && AllWellFormed(s.blocks) && BlocksOk(s.blocks, []) && Aligned(s.blocks, 8 * |s.hdr|, true)
    && if s.zlib then
         && ZlibHeaderOk(s.hdr) && |s.pad| < 8 && |s.trailer| == 4 && |ZStreamBits(s)| % 8 == 0
         && BigEndian(s.trailer) == Value(Checksum(INIT, BlocksOut(s.blocks, [])))
       else s.hdr == []
  }

  class Inflater {
    const reader: BitReader
    const window: Window
    const t: TableSet
    const checkAdler: RunningSum
    /** TINFL_FLAG_PARSE_ZLIB_HEADER */
    const zlib: bool

    var state: State
    var final: nat
    var blockType: int
    var counter: nat
    var dist: nat
    var numExtra: nat
    var distFrom: nat
    var zhdr0: nat
    var zAdler: nat

    /** What is left of the stream: of the current block, the blocks after it, and the end of the stream. */
    ghost var bits: seq<bool>
    ghost var more: seq<bool>
    ghost var blocks: seq<Block>
    ghost var tail: seq<bool>
    /** What will have been decoded at the end of the block, and at the end of the stream. */
    ghost var goal: seq<Byte>
    ghost const target: seq<Byte>
    ghost const hdr: seq<Byte>
    ghost const pad: seq<bool>
    ghost const trailer: seq<Byte>
    ghost const total: nat
    /** All blocks of the stream. */
    ghost const all: seq<Block>
    /** What the current block still holds, as far as the state needs it. */
    ghost var data: seq<Byte>
    ghost var header: Header
    ghost var codes: Codes
    ghost var items: seq<Item>
    ghost var item: Item
    ghost var litLens: seq<nat>
    ghost var distLens: seq<nat>
    ghost var k: nat
    ghost var lap: nat

    constructor (reader: BitReader, window: Window, zlib: bool, ghost s: ZStream)
      requires ZStreamOk(s) && s.zlib == zlib
      requires reader.Valid() && reader.rem == ZStreamBits(s) && reader.taken == 0 && reader.numBits == 0 && !reader.filling
      requires window.Valid() && window.out == [] && (window.wrapping ==> window.buf.Length >= LZ_DICT_SIZE)
      ensures Inv() && target == BlocksOut(s.blocks, []) && this.reader == reader && this.window == window
      ensures this.zlib == zlib && fresh(t.Arrays()) && fresh(checkAdler) && AdlerOk()
      ensures Whole() && all == s.blocks && hdr == s.hdr
    {
      hide Following, BitReader.Valid, Window.Valid, Bytes, BlocksBits, BlocksOut, Aligned, BigEndian, Checksum;
      hide BlocksOk, ZlibHeaderOk, AllWellFormed, AtRawHeader, AtRawBits, AtRawByteOut, AtRawCopy, AtTableSizes, AtClenSizes;
      hide AtBuildTable, AtRleSym, AtRleExtraBits, AtLitSym, AtLitOut, AtLenExtraBits, AtDistSym, AtDistExtraBits, AtCopyOut;
      hide AtBlockEnd, AtTrailer, AtFinished;
      StreamStart(s);
      this.reader, this.window := reader, window;
      t := new TableSet();
      checkAdler := new RunningSum();
      InitialSum();
      this.zlib := zlib;
      state := if zlib then ZlibHeader else BlockHeader;
      final, blockType, counter, dist, numExtra, distFrom, zhdr0, zAdler := 0, 0, 0, 0, 0, 0, 0, 1;
      bits, blocks, tail, goal := Bytes(s.hdr), s.blocks, ZTail(s), [];
      more := BlocksBits(s.blocks, true) + ZTail(s);
      target, hdr, pad, trailer, total, all := BlocksOut(s.blocks, []), s.hdr, s.pad, s.trailer, |ZStreamBits(s)|, s.blocks;
    }

    /** What the stream is made of. */
    ghost predicate Whole() {
      && AllWellFormed(all) && BlocksOk(all, [])
      && total == 8 * |hdr| + |BlocksBits(all, true)| + |if zlib then pad + Bytes(trailer) else []|
    }

    ghost predicate Shape() {
      && t.Valid()
      && (window.wrapping ==> window.buf.Length >= LZ_DICT_SIZE)
    }

    /** What surrounds the blocks of a zlib stream is right. */
    ghost predicate Framing() {
      && (zlib ==> ZlibHeaderOk(hdr) && |pad| < 8 && |trailer| == 4 && total % 8 == 0)
      && (zlib ==> BigEndian(trailer) == Value(Checksum(INIT, target)))
    }

    /** The bits not read yet and the bytes decoded so far add up to the stream and to its meaning. */
    ghost predicate Stream()
      reads this, reader, window, window.buf
    {
      && reader.Valid() && window.Valid()
      && reader.rem == bits + more && reader.taken + |reader.rem| == total
      && Following(all, blocks, tail, more, reader.taken + |bits|, |bits|, goal, target)
      && window.out <= goal
    }

    // ---- what each state means ----

    ghost predicate FinalOk()
      reads this
    {
      (final % 2 == 1 <==> blocks == []) && TailOk()
    }

    ghost predicate TailOk()
      reads this
    {
      tail == if zlib then pad + Bytes(trailer) else []
    }

    ghost predicate AtZlibHeader()
      reads this, reader`numBits, reader`filling, window`out
    {
      && zlib && counter < 2 == |hdr| && bits == Bytes(hdr[counter..]) && goal == window.out && blocks != [] && TailOk()
      && reader.numBits == 0 && !reader.filling && (counter == 1 ==> zhdr0 == hdr[0])
    }

    ghost predicate AtBlockHeader()
      reads this, reader`numBits, reader`filling, window`out
    {
      bits == [] && goal == window.out && blocks != [] && TailOk() && !reader.filling
    }

    ghost predicate AtRawHeader()
      reads this, reader`numBits, reader`filling, window`out, t.rawHeader
    {
      && FinalOk() && !reader.filling && reader.numBits % 8 == 0
      && t.rawHeader.Length == 4 && AtStoredHeader(bits, counter, data, window.out, goal)
      && t.rawHeader[..counter] == StoredHeader(|data|)[..counter]
    }

    ghost predicate AtRawBits()
      reads this, reader`numBits, reader`filling, window`out
    {
      FinalOk() && !reader.filling && reader.numBits % 8 == 0 && counter == |data| && AtData(bits, data, window.out, goal)
    }

    ghost predicate AtRawByteOut()
      reads this, reader`numBits, reader`filling, window`out
    {
      && FinalOk() && !reader.filling && reader.numBits % 8 == 0 && counter == |data| + 1 && dist < 256
      && AtData(bits, data, window.out + [dist], goal)
    }

    ghost predicate AtRawCopy()
      reads this, reader`numBits, reader`filling, window`out
    {
      && FinalOk() && !reader.filling && counter == |data| && (counter > 0 ==> reader.numBits == 0)
      && AtData(bits, data, window.out, goal)
    }

    ghost predicate AtHeaderPoint(p: HeaderPoint)
      reads this, reader`numBits, reader`filling, window`out
    {
      && FinalOk() && HeaderOk(header) && codes == DynamicCodes(header)
      && AtHeader(bits, p, header, ClenCodes(header), codes, items, window.out, goal)
    }

    ghost predicate SizesRead()
      reads this, t.tableSizes
    {
      t.tableSizes.Length == 3 && t.tableSizes[0] == header.nLit && t.tableSizes[1] == header.nDist
    }

    ghost predicate AtTableSizes()
      reads this, reader`numBits, reader`filling, window`out, t.tableSizes
    {
      && !reader.filling && blockType == 2 && counter < 3 && AtHeaderPoint(AtSize(counter)) && t.tableSizes.Length == 3
      && (counter > 0 ==> t.tableSizes[0] == header.nLit) && (counter > 1 ==> t.tableSizes[1] == header.nDist)
    }

    ghost predicate AtClenSizes()
      reads this, reader`numBits, reader`filling, window`out, t.tableSizes, t.table2.codeSize
    {
      && !reader.filling && blockType == 2 && counter <= |header.clens| && AtHeaderPoint(AtClen(counter))
      && SizesRead() && t.tableSizes[2] == |header.clens|
      && t.table2.codeSize.Length == 288 && t.table2.codeSize[..19] == ClenTable(header.clens[..counter])
    }

    ghost predicate AtBuildTable()
      reads this, reader`numBits, reader`filling, window`out, t.tableSizes, t.table0.codeSize, t.table1.codeSize,
            t.table2.codeSize, t.table1.lookUp, t.table1.tree
    {
      !reader.filling && if blockType == 2 then AtBuildClens() else 0 <= blockType < 2 && AtBuildCodes()
    }

    ghost predicate AtBuildClens()
      reads this, reader`numBits, reader`filling, window`out, t.tableSizes, t.table2.codeSize
    {
      && AtHeaderPoint(AtRle(0)) && SizesRead() && t.tableSizes[2] == 19
      && t.table2.codeSize.Length == 288 && t.table2.codeSize[..19] == ClenTable(header.clens)
    }

    ghost predicate AtBuildCodes()
      reads this, reader`numBits, reader`filling, window`out, t.tableSizes, t.table0.codeSize, t.table1.codeSize,
            t.table1.lookUp, t.table1.tree
    {
      && FinalOk() && AtItems(bits, codes, items, window.out, goal)
      && Decodable(litLens) && Decodable(distLens) && codes == Codes(CodesOf(litLens), CodesOf(distLens))
      && t.tableSizes.Length == 3 && t.tableSizes[0] == |litLens| <= 288 && t.tableSizes[1] == |distLens| <= 288
      && t.table0.codeSize.Length == t.table1.codeSize.Length == 288
      && t.table0.codeSize[..|litLens|] == litLens
      && (if blockType == 1 then t.table1.codeSize[..|distLens|] == distLens else TableReady(t.table1, codes.dist))
    }

    ghost predicate AtRlePoint(p: HeaderPoint)
      reads this, reader`numBits, reader`filling, window`out, t.tableSizes, t.lenCodes, t.table2.lookUp, t.table2.tree
    {
      && blockType == 2 && AtHeaderPoint(p) && SizesRead() && k <= |header.rle|
      && counter == |Rle.Expand(header.rle[..k])| && t.lenCodes.Length == 457 && counter <= 457
      && t.lenCodes[..counter] == Rle.Expand(header.rle[..k])
      && TableReady(t.table2, ClenCodes(header))
    }

    ghost predicate AtRleSym()
      reads this, reader`numBits, reader`filling, window`out, t.tableSizes, t.lenCodes, t.table2.lookUp, t.table2.tree
    {
      && AtRlePoint(AtRle(k))
      && (reader.filling ==> k < |header.rle| && reader.numBits < |CodeOf(ClenCodes(header), header.rle[k].sym)|)
    }

    ghost predicate AtRleExtraBits()
      reads this, reader`numBits, reader`filling, window`out, t.tableSizes, t.lenCodes, t.table2.lookUp, t.table2.tree
    {
      && AtRlePoint(AtRleExtra(k)) && !reader.filling && k < |header.rle|
      && dist == header.rle[k].sym && 16 <= dist <= 18 && numExtra == Rle.ExtraBits(dist)
    }

    ghost predicate Tables()
      reads this, t.table0.lookUp, t.table0.tree, t.table1.lookUp, t.table1.tree
    {
      FinalOk() && TableReady(t.table0, codes.lit) && TableReady(t.table1, codes.dist)
    }

    ghost predicate AtLitSym()
      reads this, reader`numBits, reader`filling, window`out, t.table0.lookUp, t.table0.tree, t.table1.lookUp, t.table1.tree
    {
      && Tables() && AtItems(bits, codes, items, window.out, goal)
      && (reader.filling ==> reader.numBits < |CodeOf(codes.lit, NextSym(items))|)
    }

    ghost predicate AtLitOut()
      reads this, reader`numBits, reader`filling, window`out, t.table0.lookUp, t.table0.tree, t.table1.lookUp, t.table1.tree
    {
      Tables() && !reader.filling && counter < 256 && AtItems(bits, codes, items, window.out + [counter], goal)
    }

    ghost predicate AtLenExtraBits()
      reads this, reader`numBits, reader`filling, window`out, t.table0.lookUp, t.table0.tree, t.table1.lookUp, t.table1.tree
    {
      && Tables() && !reader.filling && AtMatchHead(bits, AtLenExtra, codes, item, items, window.out, goal)
      && counter == LengthBase(item.lenSym) && numExtra == LengthExtra(item.lenSym)
    }

    ghost predicate AtDistSym()
      reads this, reader`numBits, reader`filling, window`out, t.table0.lookUp, t.table0.tree, t.table1.lookUp, t.table1.tree
    {
      && Tables() && AtMatchHead(bits, AtDist, codes, item, items, window.out, goal)
      && counter == LengthBase(item.lenSym) + item.lenExtra
      && (reader.filling ==> reader.numBits < |CodeOf(codes.dist, item.distSym)|)
    }

    ghost predicate AtDistExtraBits()
      reads this, reader`numBits, reader`filling, window`out, t.table0.lookUp, t.table0.tree, t.table1.lookUp, t.table1.tree
    {
      && Tables() && !reader.filling && AtMatchHead(bits, AtDistExtra, codes, item, items, window.out, goal)
      && counter == LengthBase(item.lenSym) + item.lenExtra
      && dist == DistanceBase(item.distSym) && numExtra == DistanceExtra(item.distSym)
    }

    /** A match is being copied: one byte is pending, counter more are to follow. */
    ghost predicate AtCopyOut()
      reads this, reader`numBits, reader`filling, window`out, t.table0.lookUp, t.table0.tree, t.table1.lookUp, t.table1.tree
    {
      && Tables() && !reader.filling && AtMatch(bits, codes, counter + 1, dist, items, window.out, goal)
      && FromOk()
    }

    /** m_dist_from_out_buf_start counts from the lap of the ring in which the match began. */
    ghost predicate FromOk()
      reads this, window`out
    {
      if window.wrapping then distFrom == |window.out| - lap * window.buf.Length else distFrom == |window.out|
    }

    ghost predicate AtBlockEnd()
      reads this, reader`numBits, reader`filling, window`out
    {
      FinalOk() && !reader.filling && bits == [] && goal == window.out
    }

    ghost predicate AtTrailer()
      reads this, reader`numBits, reader`filling, window`out
    {
      && zlib && counter <= 4 && bits == [] && goal == window.out && blocks == [] && !reader.filling
      && reader.numBits % 8 == 0 && |trailer| == 4 && tail == Bytes(trailer[counter..])
      && zAdler == (Pow2(8 * counter) + BigEndian(trailer[..counter])) % WORD
    }

    ghost predicate AtFinished()
      reads this, reader`numBits, reader`filling, window`out
    {
      && bits == [] && goal == window.out && blocks == [] && !reader.filling && more == []
      && (zlib ==> zAdler == BigEndian(trailer))
    }

    ghost predicate AtState()
      reads this, reader`numBits, reader`filling, window`out, t.Arrays()
    {
      match state
      case ZlibHeader => AtZlibHeader()
      case BlockHeader => AtBlockHeader()
      case RawHeader => AtRawHeader()
      case RawBits => AtRawBits()
      case RawByteOut => AtRawByteOut()
      case RawCopy => AtRawCopy()
      case TableSizes => AtTableSizes()
      case ClenSizes => AtClenSizes()
      case BuildTable => AtBuildTable()
      case RleSym => AtRleSym()
      case RleExtra => AtRleExtraBits()
      case LitSym => AtLitSym()
      case LitOut => AtLitOut()
      case LenExtra => AtLenExtraBits()
      case DistSym => AtDistSym()
      case DistExtra => AtDistExtraBits()
      case CopyOut => AtCopyOut()
      case BlockEnd => AtBlockEnd()
      case Trailer => AtTrailer()
      case Finished => AtFinished()
    }

    ghost predicate Inv()
      reads this, reader, window, window.buf, t.Arrays()
    {
      Shape() && Framing() && Stream() && AtState()
    }

    // ---- progress ----

    ghost function Rank(): nat
      reads this
    {
      match state
      case ClenSizes => 20
      case BuildTable => if blockType == 2 then 19 else if blockType == 1 then 17 else 16
      case RleSym => 18
      case LitSym => 15
      case RawHeader => 14
      case RawBits => 13
      case RawCopy => 12
      case LenExtra => 11
      case DistSym => 10
      case DistExtra => 9
      case BlockEnd => 8
      case BlockHeader => 7
      case Trailer => 6
      case _ => 0
    }

    /** Each step reads bits or writes bytes or comes closer to where it does. */
    twostate predicate Progress()
      reads this, reader, window
    {
      || |reader.rem| < old(|reader.rem|)
      || (&& |reader.rem| == old(|reader.rem|)
          && (|window.out| > old(|window.out|) || (|window.out| == old(|window.out|) && Rank() < old(Rank()))))
    }

    /** The block goes on, or another one follows, and the bits read so far are not enough to go on. */
    ghost predicate Starved()
      reads this, reader, window
    {
      reader.numBits < |bits| || (bits == [] && goal == window.out && (blocks == [] || reader.numBits < 3))
    }

    ghost predicate Dry()
      reads this, reader, window
    {
      reader.Exhausted() && Starved()
    }

    /** Why a step has stopped: the input has run out, or the room for output. */
    ghost predicate Stopped(status: Status)
      reads this, reader, window
    {
      match status
      case Running => true
      case NeedsMoreInput => Dry()
      case HasMoreOutput => window.pos == window.end && |window.out| < |goal|
      case Done => state == Finished
      case _ => false
    }

    // ---- reading ----

    lemma FewerBits(n: nat)
      requires Following(all, blocks, tail, more, reader.taken + |bits|, |bits|, goal, target) && n <= |bits|
      ensures Following(all, blocks, tail, more, reader.taken + |bits|, |bits| - n, goal, target)
    {
      hide Following;
      FewerLeft(all, blocks, tail, more, reader.taken + |bits|, |bits|, |bits| - n, goal, target);
    }

    method NextBits(n: nat) returns (ok: bool, b: nat)
      requires Stream() && 1 <= n <= 16 && n <= |bits|
      modifies this`bits, reader
      ensures Stream() && reader.SameCall() && reader.filling == old(reader.filling)
      ensures ok ==> b == FromBits(old(bits)[..n]) && bits == old(bits)[n..] && |reader.rem| == |old(reader.rem)| - n
      ensures !ok ==> Dry() && bits == old(bits) && |reader.rem| == |old(reader.rem)|
    {
      hide Following, BitReader.Valid, Window.Valid, FromBits;
      TakeHead(bits, more, reader.rem, n);
      FewerBits(n);
      ok, b := reader.GetBits(n);
      if ok {
        bits := bits[n..];
      }
    }

    method NextSymbol(table: HuffTable, ghost tableCodes: seq<seq<bool>>, ghost s: nat) returns (ok: bool, sym: nat)
      requires Stream() && table.Valid() && TableReady(table, tableCodes) && Coded(tableCodes, s) && tableCodes[s] <= bits
      requires reader.filling ==> reader.numBits < |tableCodes[s]|
      modifies this`bits, reader
      ensures Stream() && reader.SameCall()
      ensures ok ==> sym == s && !reader.filling && bits == old(bits)[|tableCodes[s]|..] && |reader.rem| < |old(reader.rem)|
      ensures !ok ==> Dry() && reader.filling && reader.numBits < |tableCodes[s]| && bits == old(bits)
    {
      hide Following, BitReader.Valid, Window.Valid;
      TakeHead(bits, more, reader.rem, |tableCodes[s]|);
      FewerBits(|tableCodes[s]|);
      ok, sym := reader.HuffDecode(table, tableCodes, s);
      if ok {
        bits := bits[|tableCodes[s]|..];
      }
    }

    method NextAlignedByte() returns (ok: bool, c: nat)
      requires Stream() && |bits| >= 8 && reader.numBits % 8 == 0
      modifies this`bits, reader
      ensures Stream() && reader.SameCall() && reader.filling == old(reader.filling) && reader.numBits % 8 == 0
      ensures ok ==> c == FromBits(old(bits)[..8]) && bits == old(bits)[8..] && |reader.rem| < |old(reader.rem)|
      ensures !ok ==> Dry() && bits == old(bits)
    {
      hide Following, BitReader.Valid, Window.Valid, FromBits;
      TakeHead(bits, more, reader.rem, 8);
      FewerBits(8);
      ok, c := reader.GetAlignedByte();
      if ok {
        bits := bits[8..];
      }
    }

    method Emit(b: Byte)
      requires Stream() && window.pos < window.end && window.out + [b] <= goal
      modifies window`pos, window`out, window.buf
      ensures Stream() && window.out == old(window.out) + [b] && window.pos == old(window.pos) + 1
    {
      hide Following, BitReader.Valid, Window.Valid;
      window.Put(b);
    }

    method NextDirectByte() returns (ok: bool, c: nat)
      requires Stream() && |bits| >= 8 && reader.numBits == 0
      modifies this`bits, reader
      ensures Stream() && reader.SameCall() && reader.filling == old(reader.filling) && reader.numBits == 0
      ensures ok ==> c == FromBits(old(bits)[..8]) && bits == old(bits)[8..] && |reader.rem| < |old(reader.rem)|
      ensures !ok ==> Dry() && bits == old(bits)
    {
      hide Following, BitReader.Valid, Window.Valid, FromBits;
      TakeHead(bits, more, reader.rem, 8);
      FewerBits(8);
      ok, c := reader.GetDirectByte();
      if ok {
        bits := bits[8..];
      }
    }

    /** What every step leaves as it is. */
    twostate predicate SameRun()
      reads this, reader, window
    {
      && reader.SameCall() && old(window.out) <= window.out
      && window.end == old(window.end) && window.base == old(window.base)
    }

    twostate predicate Stepped(status: Status)
      reads this, reader, window
    {
      SameRun() && Stopped(status) && (status == Running ==> Progress())
    }

    // ---- the start of the stream and of a block ----

    method StepZlibHeader() returns (status: Status)
      requires Shape() && Framing() && Stream() && state == ZlibHeader && AtZlibHeader()
      modifies this, reader
      ensures Stream() && Stepped(status)
      ensures (state == ZlibHeader && AtZlibHeader()) || (state == BlockHeader && AtBlockHeader())
    {
      hide Following, BitReader.Valid, Window.Valid, FromBits, Bytes, BigEndian, Checksum;
      assert bits == Bytes(hdr[counter..]) + [];
      NextByte(bits, hdr, counter, []);
      var ok, c := NextDirectByte();
      status := if ok then Running else NeedsMoreInput;
      if ok {
        if counter == 0 {
          zhdr0, counter := c, 1;
        } else {
          var windowSize := Pow2(8 + zhdr0 / 16);
          WindowSize(zhdr0 / 16);
          if (zhdr0 * 256 + c) % 31 != 0 || c / 32 % 2 != 0 || zhdr0 % 16 != 8
             || (window.wrapping && (windowSize > 32768 || window.buf.Length < windowSize)) {
            status := Failed;
          }
          ghost var none: seq<Byte> := hdr[2..];
          NoBytes(none);
          state := BlockHeader;
        }
      }
    }

    /** The three bits at the start of a block; from then on its own bits are in bits. */
    method ReadBlockHeader() returns (ok: bool, ghost b: Block)
      requires Stream() && AtBlockHeader()
      modifies this, reader
      ensures Stream() && SameRun() && reader.SameCall() && !reader.filling && TailOk()
      ensures ok ==> blockType == BlockType(b) && FinalOk() && WellFormed(b) && BlockOk(b, |window.out|)
      ensures ok ==> bits == BodyBits(b) && goal == BlockOut(b, window.out) && |reader.rem| < |old(reader.rem)|
      ensures ok ==> (b.Stored? ==> |b.pad| < 8 && (reader.taken + |b.pad|) % 8 == 0)
      ensures !ok ==> Dry() && state == old(state) && AtBlockHeader()
    {
      hide BitReader.Valid, Window.Valid, FromBits, BodyBits, WellFormed, BlockOk, BlockOut, Following;
      b := blocks[0];
      assert bits + more == more;
      BlockBegins(all, blocks, tail, reader.rem, reader.taken, 0, window.out, target);
      ghost var last, rem := |blocks| == 1, reader.rem;
      var value;
      ok, value := reader.GetBits(3);
      if ok {
        ReadHead(value, last, BlockType(b));
        final, blockType := value, value / 2;
        AfterHead(rem, BodyBits(b));
        bits, more := BodyBits(b), rem[3 + |BodyBits(b)|..];
        goal, blocks := BlockOut(b, window.out), blocks[1..];
      }
    }

    method StepBlockHeader() returns (status: Status)
      requires Shape() && Stream() && state == BlockHeader && AtBlockHeader()
      modifies this, reader, t.tableSizes, t.table0.codeSize, t.table1.codeSize
      ensures Stream() && Stepped(status)
      ensures (state == BlockHeader && AtBlockHeader()) || (state == RawHeader && AtRawHeader())
           || (state == TableSizes && AtTableSizes()) || (state == BuildTable && AtBuildTable())
    {
      hide Stream, AtBlockHeader, AtRawHeader, AtTableSizes, AtBuildTable, FinalOk, TailOk, HuffTable.Valid;
      hide BodyBits, WellFormed, BlockOk, BlockOut;
      var ok;
      ghost var b;
      ok, b := ReadBlockHeader();
      status := if ok then Running else NeedsMoreInput;
      if ok {
        if blockType == 0 {
          BeginStored(b.pad, b.data);
        } else if blockType == 3 {
          status := Failed;
        } else if blockType == 1 {
          BeginFixed(b.items);
        } else {
          BeginDynamic(b.header, b.items);
        }
      }
    }

    method BeginStored(ghost p: seq<bool>, ghost d: seq<Byte>)
      requires Shape() && Stream() && FinalOk() && !reader.filling && |p| < 8 && (reader.taken + |p|) % 8 == 0
      requires WellFormed(Stored(p, d)) && BlockOk(Stored(p, d), |window.out|)
      requires bits == BodyBits(Stored(p, d)) && goal == BlockOut(Stored(p, d), window.out)
      modifies this, reader
      ensures Stream() && SameRun() && |reader.rem| <= |old(reader.rem)| && state == RawHeader && AtRawHeader()
    {
      hide BitReader.Valid, Window.Valid, Following, StoredHeader, AtStoredHeader, BodyBits, BlockOut, BlockOk, Bytes;
      StoredBegins(p, d, window.out);
      PadLength(reader.taken, |p|);
      TakeHead(bits, more, reader.rem, |p|);
      FewerBits(|p|);
      reader.SkipToByte();
      bits, data := bits[|p|..], d;
      counter, state := 0, RawHeader;
      assert t.rawHeader[..0] == StoredHeader(|data|)[..0];
    }

    /** The fixed code lengths. */
    method FillFixed()
      requires t.Valid()
      modifies t.tableSizes, t.table0.codeSize, t.table1.codeSize
      ensures t.table0.codeSize[..288] == FixedLitLens() && t.table1.codeSize[..32] == FixedDistLens()
      ensures t.tableSizes[0] == 288 && t.tableSizes[1] == 32
    {
      t.tableSizes[0], t.tableSizes[1] := 288, 32;
      for i := 0 to 32
        invariant t.tableSizes[0] == 288 && t.tableSizes[1] == 32
        invariant forall j :: 0 <= j < i ==> t.table1.codeSize[j] == 5
      {
        t.table1.codeSize[i] := 5;
      }
      for i := 0 to 288
        invariant t.tableSizes[0] == 288 && t.tableSizes[1] == 32
        invariant forall j :: 0 <= j < 32 ==> t.table1.codeSize[j] == 5
        invariant forall j :: 0 <= j < i ==> t.table0.codeSize[j] == FixedLitLens()[j]
      {
        t.table0.codeSize[i] := if i <= 143 then 8 else if i <= 255 then 9 else if i <= 279 then 7 else 8;
      }
    }

    method BeginFixed(ghost its: seq<Item>)
      requires Shape() && Stream() && FinalOk() && !reader.filling && blockType == 1
      requires BlockOk(Fixed(its), |window.out|)
      requires bits == BodyBits(Fixed(its)) && goal == BlockOut(Fixed(its), window.out)
      modifies this, t.tableSizes, t.table0.codeSize, t.table1.codeSize
      ensures Stream() && SameRun() && state == BuildTable && AtBuildTable()
    {
      hide Inflater.Stream, Inflater.FinalOk, FixedLitLens, FixedDistLens, BodyBits, BlockOut, BlockOk, Inflater.AtBuildTable;
      FillFixed();
      BuildFixed(its);
    }

    method BuildFixed(ghost its: seq<Item>)
      requires Shape() && Stream() && FinalOk() && !reader.filling && blockType == 1
      requires BlockOk(Fixed(its), |window.out|)
      requires bits == BodyBits(Fixed(its)) && goal == BlockOut(Fixed(its), window.out)
      requires t.table0.codeSize[..288] == FixedLitLens() && t.table1.codeSize[..32] == FixedDistLens()
      requires t.tableSizes[0] == 288 && t.tableSizes[1] == 32
      modifies this`items, this`codes, this`litLens, this`distLens, this`state
      ensures Stream() && SameRun() && state == BuildTable && AtBuildTable()
    {
      hide BitReader.Valid, Window.Valid, Following, AtItems, CodesOf, FixedLitLens, FixedDistLens, FixedCodes, Decodable;
      hide BodyBits, BlockOut, BlockOk, Inflater.AtBuildClens, Bytes, TableReady;
      FixedBegins(its, window.out);
      FixedDecodable();
      items, codes, litLens, distLens := its, FixedCodes(), FixedLitLens(), FixedDistLens();
      state := BuildTable;
    }

    method BeginDynamic(ghost h: Header, ghost its: seq<Item>)
      requires Stream() && FinalOk() && !reader.filling && blockType == 2 && t.tableSizes.Length == 3
      requires BlockOk(Dynamic(h, its), |window.out|)
      requires bits == BodyBits(Dynamic(h, its)) && goal == BlockOut(Dynamic(h, its), window.out)
      modifies this
      ensures Stream() && SameRun() && state == TableSizes && AtTableSizes()
    {
      hide BitReader.Valid, Window.Valid, Following, AtHeader, HeaderOk, BodyBits, BlockOut, BlockOk, DynamicCodes, ClenCodes;
      DynamicBegins(h, its, window.out);
      header, items, codes := h, its, DynamicCodes(h);
      counter, state := 0, TableSizes;
    }

    // ---- stored blocks ----

    method StepRawHeader() returns (status: Status)
      requires Shape() && Stream() && state == RawHeader && AtRawHeader()
      modifies this, reader, t.rawHeader
      ensures Stream() && Stepped(status)
      ensures (state == RawHeader && AtRawHeader()) || (state == RawBits && AtRawBits())
    {
      hide AtStoredHeader, AtData, BitReader.Valid, Window.Valid, Following;
      status := Running;
      if counter < 4 {
        var ok := ReadHeaderByte();
        status := if ok then Running else NeedsMoreInput;
      } else {
        status := EndRawHeader();
      }
    }

    method ReadHeaderByte() returns (ok: bool)
      requires Shape() && Stream() && AtRawHeader() && counter < 4
      modifies this, reader, t.rawHeader
      ensures Stream() && SameRun() && AtRawHeader() && state == old(state)
      ensures if ok then |reader.rem| < |old(reader.rem)| else Dry()
    {
      hide BitReader.Valid, Window.Valid, Following, Bytes, FromBits, StoredHeader, TableSet.Valid;
      ghost var sent := StoredHeader(|data|);
      StoredHeaderByte(bits, counter, data, window.out, goal);
      var c;
      ok, c := NextAlignedByte();
      if ok {
        ghost var before := t.rawHeader[..counter];
        t.rawHeader[counter] := c;
        counter := counter + 1;
        assert t.rawHeader[..counter] == before + [c] && sent[..counter] == sent[..counter - 1] + [sent[counter - 1]];
      }
    }

    method EndRawHeader() returns (status: Status)
      requires Shape() && Stream() && AtRawHeader() && counter >= 4
      modifies this
      ensures Stream() && SameRun() && state == RawBits && AtRawBits() && |reader.rem| == |old(reader.rem)|
      ensures status == Running
    {
      hide BitReader.Valid, Window.Valid, Following, Bytes;
      ghost var sent := StoredHeader(|data|);
      StoredHeaderEnd(bits, data, window.out, goal);
      assert t.rawHeader[..4] == sent[..4];
      counter := t.rawHeader[0] + t.rawHeader[1] * 256;
      status := if counter != 65535 - (t.rawHeader[2] + t.rawHeader[3] * 256) then Failed else Running;
      state := RawBits;
    }

    /** Bytes that are already in the bit buffer. */
    method StepRawBits() returns (status: Status)
      requires Shape() && Stream() && state == RawBits && AtRawBits()
      modifies this, reader
      ensures Stream() && Stepped(status)
      ensures (state == RawByteOut && AtRawByteOut()) || (state == RawCopy && AtRawCopy())
    {
      hide BitReader.Valid, Window.Valid, Following, Bytes, FromBits, AtData, TableSet.Valid, HuffTable.Valid;
      status := Running;
      if counter != 0 && reader.numBits != 0 {

        DataByte(bits, data, window.out, goal);
        dist := FirstByte();
        data := data[1..];
        state := RawByteOut;
      } else {
        state := RawCopy;
      }
    }

    /** The bit buffer holds whole bytes, so that no input is needed. */
    method FirstByte() returns (c: nat)
      requires Stream() && |bits| >= 8 && reader.numBits % 8 == 0 && reader.numBits > 0
      modifies this`bits, reader
      ensures Stream() && reader.SameCall() && reader.filling == old(reader.filling) && reader.numBits % 8 == 0
      ensures c == FromBits(old(bits)[..8]) && bits == old(bits)[8..] && |reader.rem| < |old(reader.rem)|
    {
      hide Following, BitReader.Valid, Window.Valid, FromBits;
      TakeHead(bits, more, reader.rem, 8);
      FewerBits(8);
      c := reader.Take(8);
      bits := bits[8..];
    }

    method StepRawByteOut() returns (status: Status)
      requires Shape() && Stream() && state == RawByteOut && AtRawByteOut()
      modifies this, window, window.buf
      ensures Stream() && Stepped(status)
      ensures (state == RawByteOut && AtRawByteOut()) || (state == RawBits && AtRawBits())
    {
      hide BitReader.Valid, Following, Bytes;
      status := Running;
      if window.pos >= window.end {
        status := HasMoreOutput;
      } else {
        Emit(dist);
        counter := counter - 1;
        state := RawBits;
      }
    }

    lemma MoreNeeded()
      requires Stream() && |bits| >= 1 && reader.numBits == 0 && reader.inPos >= |reader.inBuf|
      ensures Dry()
    {
      hide Following, Window.Valid, Holds;
      NeedsInput(reader.bitBuf, 0, reader.inBuf, reader.inPos, reader.later, reader.rem);
      assert reader.inPos <= |reader.inBuf| by {
        InputBound(reader.bitBuf, 0, reader.inBuf, reader.inPos, reader.later, reader.rem);
      }
    }

    method CopyInput()
      requires Stream() && AtRawCopy() && counter > 0
      requires window.pos < window.end && reader.inPos < |reader.inBuf|
      modifies this, reader, window, window.buf
      ensures Stream() && SameRun() && AtRawCopy() && state == old(state) && |reader.rem| < |old(reader.rem)|
    {
      hide Following, BitReader.Valid, Window.Valid, Bytes;
      var n := window.end - window.pos;
      if |reader.inBuf| - reader.inPos < n {
        n := |reader.inBuf| - reader.inPos;
      }
      if counter < n {
        n := counter;
      }
      assert |bits| == 8 * |data|;
      TakeHead(bits, more, reader.rem, 8 * n);
      FewerBits(8 * n);
      var run := reader.GetRun(n);
      DataRun(bits, data, n, run, window.out, goal);
      window.PutAll(run);
      bits, data, counter := bits[8 * n..], data[n..], counter - n;
    }

    /** Bytes straight from the input to the output. */
    method StepRawCopy() returns (status: Status)
      requires Shape() && Stream() && state == RawCopy && AtRawCopy()
      modifies this, reader, window, window.buf
      ensures Stream() && Stepped(status)
      ensures (state == RawCopy && AtRawCopy()) || (state == BlockEnd && AtBlockEnd())
    {
      hide Following, Bytes, Holds;
      status := Running;
      if counter == 0 {
        NoBytes(data);
        state := BlockEnd;
      } else if window.pos >= window.end {
        status := HasMoreOutput;
      } else if reader.inPos >= |reader.inBuf| {
        MoreNeeded();
        status := if reader.hasMore then NeedsMoreInput else Failed;
      } else {
        CopyInput();
      }
    }

    // ---- the header of a block with its own codes ----

    method StepTableSizes() returns (status: Status)
      requires Shape() && Stream() && state == TableSizes && AtTableSizes()
      modifies this, reader, t.tableSizes, t.table2.codeSize
      ensures Stream() && Stepped(status)
      ensures (state == TableSizes && AtTableSizes()) || (state == ClenSizes && AtClenSizes())
    {
      hide BitReader.Valid, Window.Valid, Following, AtHeader, HeaderOk;
      var ok := ReadSize();
      status := if ok then Running else NeedsMoreInput;
      if counter == 3 {
        EndTableSizes();
      }
    }

    method ReadSize() returns (ok: bool)
      requires Shape() && Stream() && AtTableSizes()
      modifies this, reader, t.tableSizes
      ensures Stream() && SameRun() && state == old(state) && !reader.filling && blockType == 2
      ensures counter <= 3 && AtHeaderPoint(AtSize(counter)) && (counter > 0 ==> t.tableSizes[0] == header.nLit)
      ensures (counter > 1 ==> t.tableSizes[1] == header.nDist) && (counter > 2 ==> t.tableSizes[2] == |header.clens|)
      ensures if ok then |reader.rem| < |old(reader.rem)| else Dry() && counter == old(counter)
    {
      hide BitReader.Valid, Window.Valid, Following, AtHeader, DynamicCodes, ClenCodes, HeaderOk, FromBits;
      NextSize(bits, counter, header, ClenCodes(header), codes, items, window.out, goal);
      var b;
      ok, b := NextBits(if counter < 2 then 5 else 4);
      if ok {
        t.tableSizes[counter] := b + (if counter == 0 then 257 else if counter == 1 then 1 else 4);
        counter := counter + 1;
      }
    }

    method EndTableSizes()
      requires Shape() && Stream() && !reader.filling && blockType == 2 && AtHeaderPoint(AtSize(3)) && SizesRead()
      requires t.tableSizes[2] == |header.clens|
      modifies this, t.table2.codeSize
      ensures Stream() && SameRun() && |reader.rem| == |old(reader.rem)| && state == ClenSizes && AtClenSizes()
    {
      hide BitReader.Valid, Window.Valid, Following, AtHeader, DynamicCodes, ClenCodes, PointBits, RleOk, Decodable, LitLens;
      hide DistLens, ClenTable;
      SizesEnd(header, ClenCodes(header));
      HeaderStep(bits, AtSize(3), AtClen(0), [], header, ClenCodes(header), codes, items, window.out, goal);
      assert bits[0..] == bits;
      ClearCodeSizes();
      NoClens(header.clens, t.table2.codeSize[..]);
      counter, state := 0, ClenSizes;
    }

    method ClearCodeSizes()
      requires t.Valid()
      modifies t.table2.codeSize
      ensures forall s :: 0 <= s < 288 ==> t.table2.codeSize[s] == 0
    {
      for s := 0 to 288
        invariant forall j :: 0 <= j < s ==> t.table2.codeSize[j] == 0
      {
        t.table2.codeSize[s] := 0;
      }
    }

    method StepClenSizes() returns (status: Status)
      requires Shape() && Stream() && state == ClenSizes && AtClenSizes()
      modifies this, reader, t.tableSizes, t.table2.codeSize
      ensures Stream() && Stepped(status)
      ensures (state == ClenSizes && AtClenSizes()) || (state == BuildTable && AtBuildTable())
    {
      hide AtClenSizes, AtBuildTable, Stream, HuffTable.Valid;
      status := Running;
      if counter < t.tableSizes[2] {
        var ok := ReadClen();
        status := if ok then Running else NeedsMoreInput;
      } else {
        EndClens();
      }
    }

    method EndClens()
      requires Shape() && Stream() && AtClenSizes() && counter >= t.tableSizes[2]
      modifies this`state, t.tableSizes
      ensures Stream() && SameRun() && |reader.rem| == |old(reader.rem)| && |window.out| == |old(window.out)|
      ensures state == BuildTable && AtBuildTable() && blockType == 2
    {
      hide BitReader.Valid, Window.Valid, Following, AtHeader, DynamicCodes, ClenCodes, HeaderOk, PointBits, AtBuildCodes;
      hide ClenTable;
      ClensEnd(header, ClenCodes(header));
      HeaderStep(bits, AtClen(counter), AtRle(0), [], header, ClenCodes(header), codes, items, window.out, goal);
      assert bits[0..] == bits && header.clens[..counter] == header.clens;
      t.tableSizes[2] := 19;
      state := BuildTable;
    }

    method ReadClen() returns (ok: bool)
      requires Shape() && Stream() && AtClenSizes() && counter < t.tableSizes[2]
      modifies this`bits, this`counter, reader, t.table2.codeSize
      ensures Stream() && SameRun() && AtClenSizes() && state == old(state)
      ensures if ok then |reader.rem| < |old(reader.rem)| else Dry()
    {
      hide BitReader.Valid, Window.Valid, Following, AtHeader, DynamicCodes, ClenCodes, PointBits, ClenTable, HeaderOk;
      hide TableSet.Valid;
      ClenBits(header, ClenCodes(header), counter);
      SmallClen(header, counter);
      HeaderStep(bits, AtClen(counter), AtClen(counter + 1), ToBits(header.clens[counter], 3), header, ClenCodes(header), codes,
                 items, window.out, goal);
      FieldRead(bits, header.clens[counter], 3);
      var s;
      ok, s := NextBits(3);
      if ok {
        PutClen(header.clens, counter, s);
        counter := counter + 1;
      }
    }

    method PutClen(ghost clens: seq<nat>, i: nat, s: nat)
      requires t.Valid() && i < |clens| && i < 19 && s == clens[i] && t.table2.codeSize[..19] == ClenTable(clens[..i])
      modifies t.table2.codeSize
      ensures t.table2.codeSize[..19] == ClenTable(clens[..i + 1])
    {
      ClenPut(clens, i);
      ghost var before := t.table2.codeSize[..19];
      t.table2.codeSize[ZIGZAG[i]] := s;
      assert t.table2.codeSize[..19] == before[ZIGZAG[i] := s];
    }

    // ---- building the tables ----

    method StepBuildTable() returns (status: Status)
      requires Shape() && Stream() && state == BuildTable && AtBuildTable()
      modifies this, t.table0.lookUp, t.table0.tree, t.table1.lookUp, t.table1.tree, t.table2.lookUp, t.table2.tree
      ensures Stream() && Stepped(status)
      ensures (state == BuildTable && AtBuildTable()) || (state == RleSym && AtRleSym()) || (state == LitSym && AtLitSym())
    {
      hide AtBuildClens, AtBuildCodes, AtRleSym, AtLitSym, Stream;
      if blockType == 2 {
        status := BuildClens();
      } else if blockType == 1 {
        status := BuildDistances();
      } else {
        status := BuildLiterals();
      }
    }

    /** Valid lengths are not refused. */
    method BuildTableFor(table: HuffTable, n: nat, ghost lens: seq<nat>) returns (status: Status)
      requires table.Valid() && n == |lens| <= 288 && table.codeSize[..n] == lens && Decodable(lens)
      modifies table.lookUp, table.tree
      ensures status == Running && TableReady(table, CodesOf(lens))
    {
      hide Decodable, CodesOf, HuffTable.Decodes;
      ShortLens(lens);
      var ok := table.Build(n);
      status := if ok then Running else Failed;
      ReadyTable(table, lens);
    }

    method BuildClens() returns (status: Status)
      requires Shape() && Stream() && blockType == 2 && !reader.filling && AtBuildClens()
      modifies this`counter, this`k, this`state, t.table2.lookUp, t.table2.tree
      ensures Stream() && SameRun() && |reader.rem| == |old(reader.rem)| && |window.out| == |old(window.out)|
      ensures status == Running && state == RleSym && AtRleSym() && blockType == 2
    {
      hide BitReader.Valid, Window.Valid, Following, AtHeader, DynamicCodes, HeaderOk, ClenTable, Decodable, CodesOf, CodeOf;
      hide HuffTable.Valid;
      hide TableReady, ZIGZAG;
      HeaderClens(header);
      status := BuildTableFor(t.table2, t.tableSizes[2], ClenTable(header.clens));
      assert header.rle[..0] == [];
      counter, k := 0, 0;
      assert t.lenCodes[..0] == [];
      state := RleSym;
    }

    method BuildDistances() returns (status: Status)
      requires Shape() && Stream() && blockType == 1 && !reader.filling && AtBuildCodes()
      modifies this`blockType, t.table1.lookUp, t.table1.tree
      ensures Stream() && SameRun() && |reader.rem| == |old(reader.rem)| && |window.out| == |old(window.out)|
      ensures status == Running && blockType == 0 && state == old(state) && AtBuildCodes()
    {
      hide BitReader.Valid, Window.Valid, Following, AtItems, CodesOf, Decodable, TableReady;
      status := BuildTableFor(t.table1, t.tableSizes[1], distLens);
      blockType := 0;
    }

    method BuildLiterals() returns (status: Status)
      requires Shape() && Stream() && blockType == 0 && !reader.filling && AtBuildCodes()
      modifies this`blockType, this`state, t.table0.lookUp, t.table0.tree
      ensures Stream() && SameRun() && |reader.rem| == |old(reader.rem)| && |window.out| == |old(window.out)|
      ensures status == Running && state == LitSym && AtLitSym()
    {
      hide BitReader.Valid, Window.Valid, Following, AtItems, CodesOf, Decodable, TableReady;
      status := BuildTableFor(t.table0, t.tableSizes[0], litLens);
      blockType := -1;
      state := LitSym;
    }

    // ---- the packed code lengths ----

    method StepRleSym() returns (status: Status)
      requires Shape() && Stream() && state == RleSym && AtRleSym()
      modifies this, reader, t.lenCodes, t.table0.codeSize, t.table1.codeSize
      ensures Stream() && Stepped(status)
      ensures (state == RleSym && AtRleSym()) || (state == RleExtra && AtRleExtraBits()) || (state == BuildTable && AtBuildTable())
    {
      hide BitReader.Valid, Window.Valid, Following, AtHeader, HeaderOk, AtBuildCodes, AtBuildClens, TableReady, DynamicCodes;
      RleCount(header, k);
      if counter < t.tableSizes[0] + t.tableSizes[1] {
        status := ReadRleSym();
      } else {
        status := EndRle();
      }
    }

    method ReadRleSym() returns (status: Status)
      requires Shape() && Stream() && state == RleSym && AtRleSym() && k < |header.rle|
      modifies this, reader, t.lenCodes
      ensures Stream() && SameRun() && Stopped(status) && (status == Running ==> |reader.rem| < |old(reader.rem)|)
      ensures (state == RleSym && AtRleSym()) || (state == RleExtra && AtRleExtraBits())
    {
      hide BitReader.Valid, Window.Valid, Following, AtHeader, HeaderOk, DynamicCodes, ClenCodes, TableReady, Coded, Rle.Expand;
      NextRle(bits, header, k, codes, items, window.out, goal);
      var ok;
      ok, dist := NextSymbol(t.table2, ClenCodes(header), header.rle[k].sym);
      status := if ok then Running else NeedsMoreInput;
      if ok {
        status := TakeRleSym();
      }
    }

    method TakeRleSym() returns (status: Status)
      requires Shape() && Stream() && state == RleSym && k < |header.rle| && !reader.filling && dist == header.rle[k].sym
      requires AtRlePoint(if dist < 16 then AtRle(k + 1) else AtRleExtra(k))
      modifies this, t.lenCodes
      ensures Stream() && SameRun() && status == Running && |reader.rem| == |old(reader.rem)|
      ensures (state == RleSym && AtRleSym()) || (state == RleExtra && AtRleExtraBits())
    {
      hide BitReader.Valid, Window.Valid, Following, AtHeader, HeaderOk, DynamicCodes, ClenCodes, TableReady, Rle.Expand;
      status := Running;
      if dist < 16 {
        TakeLength();
      } else {
        RunSymbol();
        if dist == 16 && counter == 0 {
          status := Failed;
        }
        numExtra := if dist == 16 then 2 else if dist == 17 then 3 else 7;
        state := RleExtra;
      }
    }

    /** The symbol of a run is one of three, and the first item is not one that repeats. */
    lemma RunSymbol()
      requires k < |header.rle| && dist == header.rle[k].sym >= 16 && AtRlePoint(AtRleExtra(k))
      ensures dist <= 18 && (dist == 16 ==> counter > 0)
    {
      hide DynamicCodes, ClenCodes, TableReady, Rle.Expand, AtHeader;
      RleRun(header, k);
    }

    /** The symbol is the length itself. */
    method TakeLength()
      requires Shape() && Stream() && state == RleSym && k < |header.rle| && !reader.filling && dist == header.rle[k].sym < 16
      requires AtRlePoint(AtRle(k + 1))
      modifies this`counter, this`k, t.lenCodes
      ensures Stream() && SameRun() && AtRleSym()
    {
      hide BitReader.Valid, Window.Valid, Following, AtHeader, HeaderOk, DynamicCodes, ClenCodes, TableReady, Rle.Expand;
      RleRun(header, k);
      PutLength(dist);
      k := k + 1;
    }

    method PutLength(size: nat)
      requires t.Valid() && counter < 457
      modifies this`counter, t.lenCodes
      ensures counter == old(counter) + 1 && t.lenCodes[..counter] == old(t.lenCodes[..counter]) + [size]
    {
      t.lenCodes[counter] := size;
      counter := counter + 1;
      assert t.lenCodes[..counter] == old(t.lenCodes[..counter]) + [size];
    }

    method StepRleExtra() returns (status: Status)
      requires Shape() && Stream() && state == RleExtra && AtRleExtraBits()
      modifies this, reader, t.lenCodes
      ensures Stream() && Stepped(status)
      ensures (state == RleSym && AtRleSym()) || (state == RleExtra && AtRleExtraBits())
    {
      hide BitReader.Valid, Window.Valid, Following, AtHeader, HeaderOk, DynamicCodes, ClenCodes, TableReady, Rle.Expand;
      NextRleExtra(bits, header, k, codes, items, window.out, goal);
      var ok, s := NextBits(numExtra);
      status := if ok then Running else NeedsMoreInput;
      if ok {
        TakeRun(s);
      }
    }

    method TakeRun(s: nat)
      requires Shape() && Stream() && k < |header.rle| && !reader.filling && dist == header.rle[k].sym >= 16
      requires s == header.rle[k].extra && AtRlePoint(AtRle(k + 1))
      modifies this`counter, this`k, this`state, t.lenCodes
      ensures Stream() && SameRun() && |reader.rem| == |old(reader.rem)| && state == RleSym && AtRleSym()
    {
      hide BitReader.Valid, Window.Valid, Following, AtHeader, HeaderOk, DynamicCodes, ClenCodes, TableReady, Rle.Expand, Rle.Run;
      RleRun(header, k);
      AppendRun(s, header.rle[k]);
      k := k + 1;
      state := RleSym;
    }

    method AppendRun(s: nat, ghost item: Rle.RleItem)
      requires t.Valid() && item == Rle.RleItem(dist, s) && 16 <= dist <= 18 && counter <= 457
      requires var lens := t.lenCodes[..counter]; (dist == 16 ==> lens != []) && counter + |Rle.Run(lens, item)| <= 457
      modifies this`counter, t.lenCodes
      ensures counter == old(counter) + |Rle.Run(old(t.lenCodes[..counter]), item)| <= 457
      ensures t.lenCodes[..counter] == old(t.lenCodes[..counter]) + Rle.Run(old(t.lenCodes[..counter]), item)
    {
      hide Rle.Run;
      RunIs(t.lenCodes[..counter], item);
      Repeat(if dist == 16 then t.lenCodes[counter - 1] else 0, s + (if dist == 18 then 11 else 3));
    }

    /** memset of part of m_len_codes. */
    method Repeat(size: nat, n: nat)
      requires t.Valid() && counter + n <= 457
      modifies this`counter, t.lenCodes
      ensures counter == old(counter) + n && t.lenCodes[..counter] == old(t.lenCodes[..counter]) + Rle.Repeated(size, n)
    {
      for i := 0 to n
        invariant counter == old(counter) + i && t.lenCodes[..counter] == old(t.lenCodes[..counter]) + Rle.Repeated(size, i)
      {
        Rle.RepeatAppend(size, i);
        PutLength(size);
      }
    }

    method EndRle() returns (status: Status)
      requires Shape() && Stream() && AtRleSym() && k == |header.rle|
      modifies this, t.table0.codeSize, t.table1.codeSize
      ensures Stream() && SameRun() && |reader.rem| == |old(reader.rem)| && |window.out| == |old(window.out)|
      ensures status == Running && state == BuildTable && AtBuildTable() && blockType == 1
    {
      hide BitReader.Valid, Window.Valid, Following, AtHeader, TableReady, Rle.Expand, Decodable, AtItems, TableSet.Valid;
      hide HeaderOk, DynamicCodes, ClenCodes;
      HeaderEnd(bits, header, ClenCodes(header), codes, items, window.out, goal);
      TakeLengths();
      status := if t.tableSizes[0] + t.tableSizes[1] != counter then Failed else Running;
      blockType, state := 1, BuildTable;
    }

    method TakeLengths()
      requires Shape() && AtRlePoint(AtRle(k)) && k == |header.rle|
      modifies this`litLens, this`distLens, t.table0.codeSize, t.table1.codeSize
      ensures Decodable(litLens) && Decodable(distLens) && codes == Codes(CodesOf(litLens), CodesOf(distLens))
      ensures t.tableSizes.Length == 3 && t.tableSizes[0] == |litLens| <= 288 && t.tableSizes[1] == |distLens| <= 288
      ensures t.tableSizes[0] + t.tableSizes[1] == counter && t.table0.codeSize.Length == t.table1.codeSize.Length == 288
      ensures t.table0.codeSize[..|litLens|] == litLens && t.table1.codeSize[..|distLens|] == distLens
    {
      hide AtHeader, TableReady, Rle.Expand, Decodable, RleOk, ClenTable, HeaderOk, LitLens, DistLens, DynamicCodes, ClenCodes;
      assert header.rle[..k] == header.rle;
      LengthsSplit(header, t.lenCodes[..], counter);
      litLens, distLens := LitLens(header), DistLens(header);
      CopyLengths();
    }

    /** The lengths of both tables are taken from m_len_codes. */
    method CopyLengths()
      requires t.Valid() && t.tableSizes[0] <= 288 && t.tableSizes[1] <= 288 && t.tableSizes[0] + t.tableSizes[1] <= 457
      modifies t.table0.codeSize, t.table1.codeSize
      ensures t.table0.codeSize[..t.tableSizes[0]] == t.lenCodes[..t.tableSizes[0]]
      ensures t.table1.codeSize[..t.tableSizes[1]] == t.lenCodes[t.tableSizes[0]..t.tableSizes[0] + t.tableSizes[1]]
    {
      var nLit, nDist := t.tableSizes[0], t.tableSizes[1];
      for i := 0 to nLit
        invariant t.tableSizes[0] == nLit && t.tableSizes[1] == nDist
        invariant forall j :: 0 <= j < i ==> t.table0.codeSize[j] == t.lenCodes[j]
      {
        t.table0.codeSize[i] := t.lenCodes[i];
      }
      for i := 0 to nDist
        invariant t.tableSizes[0] == nLit && t.tableSizes[1] == nDist
        invariant forall j :: 0 <= j < nLit ==> t.table0.codeSize[j] == t.lenCodes[j]
        invariant forall j :: 0 <= j < i ==> t.table1.codeSize[j] == t.lenCodes[nLit + j]
      {
        t.table1.codeSize[i] := t.lenCodes[nLit + i];
      }
    }

    // ---- symbols and matches ----

    method StepLitSym() returns (status: Status)
      requires Shape() && Stream() && state == LitSym && AtLitSym()
      modifies this, reader, window, window.buf
      ensures Stream() && Stepped(status)
      ensures (state == LitSym && AtLitSym()) || (state == LitOut && AtLitOut()) || (state == LenExtra && AtLenExtraBits())
           || (state == BlockEnd && AtBlockEnd())
    {
      hide BitReader.Valid, Window.Valid, Following, AtItems, AtMatchHead, TableReady;
      if reader.filling || |reader.inBuf| - reader.inPos < 4 || window.end - window.pos < 2 {
        status := SlowSymbol();
      } else {
        status := FastSymbols();
      }
    }

    /** One symbol, reading no more input than it needs when the input is about to end. */
    method SlowSymbol() returns (status: Status)
      requires Shape() && Stream() && state == LitSym && AtLitSym()
      modifies this, reader
      ensures Stream() && SameRun() && Stopped(status) && (status == Running ==> |reader.rem| < |old(reader.rem)|)
      ensures (state == LitSym && AtLitSym()) || (state == LitOut && AtLitOut()) || (state == LenExtra && AtLenExtraBits())
           || (state == BlockEnd && AtBlockEnd())
    {
      hide BitReader.Valid, Window.Valid, Following, AtItems, AtMatchHead, TableReady, Coded, LengthBase, LengthExtra;
      hide AtLenExtraBits, AtBlockEnd, AtLitOut;
      ghost var before := bits;
      NextItem(bits, codes, items, window.out, goal);
      var ok;
      ok, counter := NextSymbol(t.table0, codes.lit, NextSym(items));
      status := if ok then Running else NeedsMoreInput;
      if ok {
        TakeSymbol(before);
      }
    }

    /** A literal, the head of a match, or the end of the block. */
    method TakeSymbol(ghost before: seq<bool>)
      requires Shape() && Stream() && Tables() && !reader.filling && AtItems(before, codes, items, window.out, goal)
      requires counter == NextSym(items) && |codes.lit[counter]| <= |before| && bits == before[|codes.lit[counter]|..]
      modifies this
      ensures Stream() && SameRun() && |reader.rem| == |old(reader.rem)|
      ensures (state == LitOut && AtLitOut()) || (state == LenExtra && AtLenExtraBits()) || (state == BlockEnd && AtBlockEnd())
    {
      hide BitReader.Valid, Window.Valid, Following, AtItems, AtMatchHead, TableReady, Coded, LengthBase, LengthExtra;
      hide AtLenExtraBits, AtBlockEnd, NextSym;
      AfterItem(before, codes, items, window.out, goal);
      if counter < 256 {
        items := items[1..];
        state := LitOut;
      } else {
        EndOrMatch();
      }
    }

    method NextBuffered(table: HuffTable, ghost tableCodes: seq<seq<bool>>, ghost s: nat) returns (sym: nat)
      requires Stream() && table.Valid() && TableReady(table, tableCodes) && Coded(tableCodes, s) && tableCodes[s] <= bits
      requires reader.numBits >= 15
      modifies this`bits, reader
      ensures Stream() && reader.SameCall() && sym == s && reader.filling == old(reader.filling)
      ensures bits == old(bits)[|tableCodes[s]|..] && |reader.rem| < |old(reader.rem)|
      ensures reader.numBits + 15 >= old(reader.numBits)
    {
      hide Following, BitReader.Valid, Window.Valid;
      TakeHead(bits, more, reader.rem, |tableCodes[s]|);
      FewerBits(|tableCodes[s]|);
      sym := reader.DecodeBuffered(table, tableCodes, s);
      bits := bits[|tableCodes[s]|..];
    }

    method Refill()
      requires Stream() && reader.inPos + 4 <= |reader.inBuf|
      modifies reader
      ensures Stream() && reader.SameCall() && reader.numBits >= 30 && reader.filling == old(reader.filling)
      ensures reader.rem == old(reader.rem)
    {
      hide Following, BitReader.Valid, Window.Valid;
      if reader.numBits < 30 {
        reader.AddBytes(4);
      }
    }

    /** Two symbols from one filling of the bit buffer, as long as they are literals. */
    method FastSymbols() returns (status: Status)
      requires Shape() && Stream() && state == LitSym && AtLitSym() && !reader.filling
      requires |reader.inBuf| - reader.inPos >= 4 && window.end - window.pos >= 2
      modifies this, reader, window, window.buf
      ensures Stream() && SameRun() && status == Running && |reader.rem| < |old(reader.rem)|
      ensures (state == LitSym && AtLitSym()) || (state == LenExtra && AtLenExtraBits()) || (state == BlockEnd && AtBlockEnd())
    {
      hide BitReader.Valid, Window.Valid, Following, AtItems, AtMatchHead, TableReady, Coded, LengthBase, LengthExtra;
      ghost var before := bits;
      Refill();
      NextItem(bits, codes, items, window.out, goal);
      counter := NextBuffered(t.table0, codes.lit, NextSym(items));
      AfterItem(before, codes, items, window.out, goal);
      status := Running;
      if counter >= 256 {
        EndOrMatch();
      } else {
        items := items[1..];
        SecondSymbol();
      }
    }

    method SecondSymbol()
      requires Shape() && Stream() && state == LitSym && Tables() && !reader.filling && reader.numBits >= 15
      requires counter < 256 && AtItems(bits, codes, items, window.out + [counter], goal) && window.end - window.pos >= 2
      modifies this, reader, window, window.buf
      ensures Stream() && SameRun() && |reader.rem| < |old(reader.rem)|
      ensures (state == LitSym && AtLitSym()) || (state == LenExtra && AtLenExtraBits()) || (state == BlockEnd && AtBlockEnd())
    {
      hide BitReader.Valid, Window.Valid, Following, AtItems, AtMatchHead, TableReady, Coded, LengthBase, LengthExtra, NextSym;
      ghost var before, out := bits, window.out + [counter];
      NextItem(bits, codes, items, out, goal);
      OutBelowGoal(bits, codes, items, out, goal);
      var sym2 := NextBuffered(t.table0, codes.lit, NextSym(items));
      AfterItem(before, codes, items, out, goal);
      Emit(counter);
      counter := sym2;
      if sym2 >= 256 {
        EndOrMatch();
      } else {
        EmitSecond(sym2);
      }
    }

    method EmitSecond(sym2: nat)
      requires Shape() && Stream() && state == LitSym && Tables() && !reader.filling && window.pos < window.end
      requires sym2 < 256 && items != [] && AtItems(bits, codes, items[1..], window.out + [sym2], goal)
      modifies this`items, window, window.buf
      ensures Stream() && SameRun() && |reader.rem| == |old(reader.rem)| && state == LitSym && AtLitSym()
    {
      hide BitReader.Valid, Window.Valid, Following, AtItems, TableReady;
      OutBelowGoal(bits, codes, items[1..], window.out + [sym2], goal);
      Emit(sym2);
      items := items[1..];
    }

    /** A symbol that is no literal ends the block or starts a match. */
    method EndOrMatch()
      requires Shape() && Stream() && Tables() && !reader.filling && counter == NextSym(items) >= 256
      requires items == [] || items[0].Copy?
      requires items == [] ==> bits == [] && window.out == goal
      requires items != [] ==> AtMatchHead(bits, AtLenExtra, codes, items[0], items[1..], window.out, goal)
      modifies this
      ensures Stream() && SameRun() && |reader.rem| == |old(reader.rem)|
      ensures (state == LenExtra && AtLenExtraBits()) || (state == BlockEnd && AtBlockEnd())
    {
      hide BitReader.Valid, Window.Valid, Following, AtMatchHead, TableReady, LengthBase, LengthExtra;
      if items != [] {
        CopySymbol(bits, codes, items[0], items[1..], window.out, goal);
      }
      if counter % 512 == 256 {
        state := BlockEnd;
      } else {
        BeginMatch();
      }
    }

    method BeginMatch()
      requires Stream() && Tables() && !reader.filling && items != [] && items[0].Copy?
      requires 257 <= counter == items[0].lenSym <= 285
      requires AtMatchHead(bits, AtLenExtra, codes, items[0], items[1..], window.out, goal)
      modifies this`state, this`item, this`items, this`numExtra, this`counter
      ensures Stream() && state == LenExtra && AtLenExtraBits()
    {
      hide BitReader.Valid, Window.Valid, Following, AtMatchHead, TableReady, LengthBase, LengthExtra, Bytes, Meaning, Coded;
      hide TableSet.Valid, HuffTable.Valid, AtItems;
      NextMatch();
      numExtra, counter := LengthEntry(counter);
      state := LenExtra;
    }

    ghost method NextMatch()
      requires Stream() && Tables() && items != [] && items[0].Copy?
      requires AtMatchHead(bits, AtLenExtra, codes, items[0], items[1..], window.out, goal)
      modifies this`item, this`items
      ensures Stream() && Tables() && item == old(items[0])
      ensures AtMatchHead(bits, AtLenExtra, codes, item, items, window.out, goal)
    {
      hide BitReader.Valid, Window.Valid, Following, AtMatchHead, TableReady;
      item, items := items[0], items[1..];
    }

    method StepLitOut() returns (status: Status)
      requires Shape() && Stream() && state == LitOut && AtLitOut()
      modifies this, window, window.buf
      ensures Stream() && Stepped(status)
      ensures (state == LitSym && AtLitSym()) || (state == LitOut && AtLitOut())
    {
      hide BitReader.Valid, Window.Valid, Following, TableReady, AtItems, TableSet.Valid, HuffTable.Valid, CodeOf, NextSym;
      OutBelowGoal(bits, codes, items, window.out + [counter], goal);
      window.PosBound();
      status := Running;
      if window.pos >= window.end {
        status := HasMoreOutput;
      } else {
        Emit(counter);
        state := LitSym;
      }
    }

    method StepLenExtra() returns (status: Status)
      requires Shape() && Stream() && state == LenExtra && AtLenExtraBits()
      modifies this, reader
      ensures Stream() && Stepped(status)
      ensures (state == LenExtra && AtLenExtraBits()) || (state == DistSym && AtDistSym())
    {
      hide BitReader.Valid, Window.Valid, Following, AtMatchHead, TableReady, LengthBase, LengthExtra, TableSet.Valid, Bytes;
      hide FromBits, HuffTable.Valid, CodeOf;
      status := Running;
      if numExtra != 0 {
        var ok := ReadLenExtra();
        if !ok {
          return NeedsMoreInput;
        }
      } else {
        LenExtraRead(bits, codes, item, items, window.out, goal);
        NoExtra(bits);
      }
      state := DistSym;
    }

    method ReadLenExtra() returns (ok: bool)
      requires Stream() && state == LenExtra && AtLenExtraBits() && numExtra != 0
      modifies this`bits, this`counter, reader
      ensures Stream() && SameRun() && Tables()
      ensures ok ==> AtMatchHead(bits, AtDist, codes, item, items, window.out, goal) && !reader.filling
                     && counter == LengthBase(item.lenSym) + item.lenExtra && |reader.rem| < |old(reader.rem)|
      ensures !ok ==> Dry() && AtLenExtraBits()
    {
      hide BitReader.Valid, Window.Valid, Following, AtMatchHead, TableReady, LengthBase, LengthExtra, Bytes, FromBits;
      hide HuffTable.Valid, TableSet.Valid;
      LenExtraRead(bits, codes, item, items, window.out, goal);
      LengthExtraSmall(item.lenSym);
      var extraBits;
      ok, extraBits := NextBits(numExtra);
      if ok {
        counter := counter + extraBits;
      }
    }

    method StepDistSym() returns (status: Status)
      requires Shape() && Stream() && state == DistSym && AtDistSym()
      modifies this, reader
      ensures Stream() && Stepped(status)
      ensures (state == DistSym && AtDistSym()) || (state == DistExtra && AtDistExtraBits())
    {
      hide BitReader.Valid, Window.Valid, Following, AtMatchHead, TableReady, LengthBase, LengthExtra, DistanceBase;
      hide DistanceExtra;
      hide Meaning, Coded;
      DistRead(bits, codes, item, items, window.out, goal);
      ItemDistSym(bits, AtDist, codes, item, items, window.out, goal);
      var ok;
      ok, dist := NextSymbol(t.table1, codes.dist, item.distSym);
      status := if ok then Running else NeedsMoreInput;
      if ok {
        BeginDistExtra();
      }
    }

    method BeginDistExtra()
      requires Shape() && Stream() && Tables() && !reader.filling && item.Copy? && dist == item.distSym < 30
      requires AtMatchHead(bits, AtDistExtra, codes, item, items, window.out, goal)
      requires counter == LengthBase(item.lenSym) + item.lenExtra
      modifies this`state, this`dist, this`numExtra
      ensures Stream() && state == DistExtra && AtDistExtraBits()
    {
      hide BitReader.Valid, Window.Valid, Following, AtMatchHead, TableReady, LengthBase, LengthExtra, DistanceBase;
      hide DistanceExtra;
      numExtra, dist := DistEntry(dist);
      state := DistExtra;
    }

    method StepDistExtra() returns (status: Status)
      requires Shape() && Stream() && state == DistExtra && AtDistExtraBits()
      modifies this, reader, window, window.buf
      ensures Stream() && Stepped(status)
      ensures (state == DistExtra && AtDistExtraBits()) || (state == CopyOut && AtCopyOut()) || (state == LitSym && AtLitSym())
    {
      hide BitReader.Valid, Window.Valid, Following, AtMatchHead, TableReady, LengthBase, LengthExtra, DistanceBase;
      hide DistanceExtra;
      hide AtItems, AtMatch;
      var ok := ReadDistExtra();
      status := if ok then Running else NeedsMoreInput;
      if ok {
        status := BeginCopy();
      }
    }

    /** The distance is complete. */
    method ReadDistExtra() returns (ok: bool)
      requires Shape() && Stream() && state == DistExtra && AtDistExtraBits()
      modifies this, reader
      ensures Stream() && SameRun() && state == DistExtra
      ensures if ok then |reader.rem| <= |old(reader.rem)| else Dry() && AtDistExtraBits()
      ensures ok ==> Tables() && !reader.filling && counter >= 3 && AtMatch(bits, codes, counter, dist, items, window.out, goal)
    {
      hide BitReader.Valid, Window.Valid, Following, AtMatchHead, TableReady, LengthBase, LengthExtra, DistanceBase;
      hide DistanceExtra;
      hide AtMatch, FromBits;
      DistExtraRead(bits, codes, item, items, window.out, goal);
      ItemDistSym(bits, AtDistExtra, codes, item, items, window.out, goal);
      ok := true;
      if numExtra != 0 {
        var extraBits;
        ok, extraBits := NextBits(numExtra);
        if ok {
          dist := dist + extraBits;
        }
      } else {
        NoExtra(bits);
      }
    }

    /** The whole match is copied at once if it ends before the buffer does, and byte by byte otherwise. */
    method BeginCopy() returns (status: Status)
      requires Shape() && Stream() && Tables() && !reader.filling && counter >= 3
      requires AtMatch(bits, codes, counter, dist, items, window.out, goal)
      modifies this`distFrom, this`lap, this`state, this`counter, window, window.buf
      ensures Stream() && SameRun() && status == Running && |reader.rem| == |old(reader.rem)|
      ensures if state == CopyOut then AtCopyOut() && |window.out| == |old(window.out)|
              else state == LitSym && AtLitSym() && |window.out| > |old(window.out)|
    {
      hide BitReader.Valid, Window.Valid, Following, TableReady, AtMatch, Masked;
      MatchReaches(bits, codes, counter, dist, items, window.out, goal);
      status := Running;
      distFrom, lap := window.pos, window.lap;
      window.PosBound();
      if dist > distFrom && !window.wrapping {
        status := Failed;
      }
      window.SourceSlot(distFrom, lap, dist);
      CopyOrBegin(Masked(distFrom - dist, window.buf.Length, window.wrapping));
    }

    method CopyOrBegin(src: int)
      requires Shape() && Stream() && Tables() && !reader.filling && counter >= 3 && FromOk() && window.IsSource(src, dist)
      requires AtMatch(bits, codes, counter, dist, items, window.out, goal)
      modifies this`state, this`counter, window, window.buf
      ensures Stream() && SameRun() && |reader.rem| == |old(reader.rem)|
      ensures if state == CopyOut then AtCopyOut() && |window.out| == |old(window.out)|
              else state == LitSym && AtLitSym() && |window.out| > |old(window.out)|
    {
      hide BitReader.Valid, Window.Valid, Following, TableReady, AtItems, AtMatch, Masked, TableSet.Valid, HuffTable.Valid;
      if (if window.pos > src then window.pos else src) + counter > window.end {
        counter := counter - 1;
        state := CopyOut;
      } else {
        CopyAll(src);
        state := LitSym;
      }
    }

    method CopyAll(src: int)
      requires Stream() && counter >= 3 && AtMatch(bits, codes, counter, dist, items, window.out, goal)
      requires window.IsSource(src, dist) && window.pos + counter <= window.end && src + counter <= window.end
      modifies window, window.buf
      ensures Stream() && SameRun() && AtItems(bits, codes, items, window.out, goal) && |window.out| > |old(window.out)|
    {
      hide BitReader.Valid, Following, AtItems, Window.Valid;
      OutBelowGoal(bits, codes, items, CopyMatch(window.out, counter, dist), goal);
      window.CopyRun(counter, dist, src);
    }

    /** Byte by byte, through the end of the ring and, on resuming, through its start. */
    method StepCopyOut() returns (status: Status)
      requires Shape() && Stream() && state == CopyOut && AtCopyOut()
      modifies this, window, window.buf
      ensures Stream() && Stepped(status)
      ensures (state == CopyOut && AtCopyOut()) || (state == LitSym && AtLitSym())
    {
      hide BitReader.Valid, Window.Valid, Following, TableReady, AtMatch;
      MatchBelowGoal(bits, codes, counter + 1, dist, items, window.out, goal);
      window.PosBound();
      status := Running;
      if window.pos >= window.end {
        status := HasMoreOutput;
      } else {
        CopyOne();
        ByteDone();
      }
    }

    method ByteDone()
      requires Shape() && Stream() && state == CopyOut && Tables() && !reader.filling && FromOk()
      requires AtMatch(bits, codes, counter, dist, items, window.out, goal)
      modifies this`state, this`counter
      ensures Stream() && ((state == CopyOut && AtCopyOut()) || (state == LitSym && AtLitSym()))
    {
      hide BitReader.Valid, Window.Valid, Following, TableReady, AtMatch, AtItems;
      if counter == 0 {
        MatchDone(bits, codes, dist, items, window.out, goal);
        state := LitSym;
      } else {
        counter := counter - 1;
      }
    }

    method CopyOne()
      requires Shape() && Stream() && AtCopyOut() && window.pos < window.end
      modifies this`distFrom, window, window.buf
      ensures Stream() && SameRun() && FromOk() && AtMatch(bits, codes, counter, dist, items, window.out, goal)
      ensures |window.out| == |old(window.out)| + 1 && |reader.rem| == |old(reader.rem)|
    {
      hide BitReader.Valid, Following, TableReady, AtItems, Bytes, TableSet.Valid, Window.Valid, CopyMatch, Masked;
      ByteCopied(bits, codes, counter + 1, dist, items, window.out, goal);
      ghost var next := window.out + [window.out[|window.out| - dist]];
      ByteBelowGoal(bits, codes, counter, dist, items, next, goal);
      window.SourceSlot(distFrom, lap, dist);
      window.CopyByte(Masked(distFrom - dist, window.buf.Length, window.wrapping), dist);
      distFrom := distFrom + 1;
    }

    // ---- the end of a block and of the stream ----

    method StepBlockEnd() returns (status: Status)
      requires Shape() && Framing() && Stream() && state == BlockEnd && AtBlockEnd()
      modifies this, reader
      ensures Stream() && Stepped(status)
      ensures (state == BlockHeader && AtBlockHeader()) || (state == Trailer && AtTrailer()) || (state == Finished && AtFinished())
    {
      hide BitReader.Valid, Window.Valid, Following, Bytes, Checksum, ZlibHeaderOk, AtTrailer, AtFinished;
      status := Running;
      if final % 2 == 0 {
        state := BlockHeader;
      } else {
        status := EndOfBlocks();
      }
    }

    method EndOfBlocks() returns (status: Status)
      requires Shape() && Framing() && Stream() && AtBlockEnd() && final % 2 == 1
      modifies this, reader
      ensures Stream() && SameRun() && status in {Running, Done} && |window.out| == |old(window.out)|
      ensures if status == Running then state == Trailer && AtTrailer() && |reader.rem| <= |old(reader.rem)|
              else state == Finished && AtFinished()
    {
      hide BitReader.Valid, Window.Valid, Checksum, ZlibHeaderOk, Bytes, Following, TableSet.Valid, BlocksDone;
      NothingFollows(all, blocks, tail, more, reader.taken + |bits|, |bits|, goal, target);
      assert bits + more == more;
      if zlib {
        BeginTrailer();
        status := Running;
      } else {
        state := Finished;
        status := Done;
      }
    }

    method BeginTrailer()
      requires Framing() && Stream() && zlib && bits == [] && goal == window.out && blocks == [] && !reader.filling
      requires more == tail == pad + Bytes(trailer) && goal == target && BlocksDone(all, |all|, goal)
      modifies this`tail, this`more, this`zAdler, this`counter, this`state, reader
      ensures Stream() && SameRun() && |window.out| == |old(window.out)| && |reader.rem| <= |old(reader.rem)|
      ensures state == Trailer && AtTrailer()
    {
      hide BitReader.Valid, Window.Valid, Bytes, Following, BigEndian, Pow2, Framing, BlocksDone;
      SkipPad();
      NoneRead(trailer);
      zAdler, counter := 1, 0;
      state := Trailer;
    }

    /** The checksum begins at the next byte. */
    method SkipPad()
      requires Framing() && Stream() && zlib && bits == [] && blocks == [] && goal == target && BlocksDone(all, |all|, goal)
      requires more == pad + Bytes(trailer)
      modifies this`tail, this`more, reader
      ensures Stream() && reader.SameCall() && |reader.rem| <= |old(reader.rem)| && reader.filling == old(reader.filling)
      ensures tail == Bytes(trailer) && reader.numBits % 8 == 0 && |trailer| == 4
    {
      hide BitReader.Valid, Window.Valid, Checksum, ZlibHeaderOk, Bytes, Following, BlocksDone, BigEndian, Value;
      assert bits + more == more;
      TrailerBits(pad, trailer, reader.taken, total);
      reader.SkipToByte();
      assert reader.rem == Bytes(trailer);
      tail, more := Bytes(trailer), Bytes(trailer);
      EmptyFollowing(all, tail, reader.taken, goal);
    }

    /** The checksum that ends the stream; the initial one is shifted out. */
    method StepTrailer() returns (status: Status)
      requires Shape() && Framing() && Stream() && state == Trailer && AtTrailer()
      modifies this, reader
      ensures Stream() && Stepped(status)
      ensures (state == Trailer && AtTrailer()) || (state == Finished && AtFinished())
    {
      hide BitReader.Valid, Window.Valid, Following, Checksum, ZlibHeaderOk, AtFinished;
      if counter < 4 {
        var ok := ReadTrailerByte();
        status := if ok then Running else NeedsMoreInput;
      } else {
        EndTrailer();
        status := Done;
      }
    }

    method ReadTrailerByte() returns (ok: bool)
      requires Shape() && Framing() && Stream() && AtTrailer() && counter < 4
      modifies this, reader
      ensures Stream() && SameRun() && AtTrailer() && state == old(state)
      ensures if ok then |reader.rem| < |old(reader.rem)| else Dry()
    {
      hide BitReader.Valid, Window.Valid, Checksum, ZlibHeaderOk, Bytes, FromBits, BigEndian, Following, TableSet.Valid;
      hide BlocksDone;
      hide Pow2, WORD, Value;
      TrailerAt();
      TrailerByte(more, trailer, counter);
      var s;
      ok, s := reader.GetAlignedByte();
      if ok {
        TakeTrailerByte(s);
      }
    }

    lemma TrailerAt()
      requires Stream() && AtTrailer()
      ensures more == tail == reader.rem && goal == target && BlocksDone(all, |all|, goal)
    {
      hide BitReader.Valid, Window.Valid, Bytes, BigEndian, Following, BlocksDone, Pow2;
      NothingFollows(all, blocks, tail, more, reader.taken + |bits|, |bits|, goal, target);
      assert bits + more == more;
    }

    /** One more byte of the checksum. */
    method TakeTrailerByte(s: nat)
      requires reader.Valid() && window.Valid() && bits == [] && goal == window.out == target && blocks == [] && !reader.filling
      requires zlib && counter < 4 && |trailer| == 4 && reader.numBits % 8 == 0 && more == tail && |tail| >= 8
      requires reader.rem == more[8..] && reader.taken + |reader.rem| == total && BlocksDone(all, |all|, goal)
      requires s < 256 && s == trailer[counter] && tail[8..] == Bytes(trailer[counter + 1..])
      requires zAdler == (Pow2(8 * counter) + BigEndian(trailer[..counter])) % WORD
      modifies this`zAdler, this`counter, this`tail, this`more
      ensures Stream() && AtTrailer()
    {
      hide BitReader.Valid, Window.Valid, Bytes, BigEndian, Following, BlocksDone, Pow2;
      TrailerValue(trailer, counter);
      zAdler, counter := (zAdler * 256 + s) % WORD, counter + 1;
      tail, more := tail[8..], more[8..];
      EmptyFollowing(all, tail, reader.taken, goal);
      assert bits + more == more;
    }

    method EndTrailer()
      requires Shape() && Framing() && Stream() && AtTrailer() && counter == 4
      modifies this`state
      ensures Stream() && state == Finished && AtFinished()
    {
      hide BitReader.Valid, Window.Valid, Checksum, ZlibHeaderOk, Following, BlocksDone, Bytes;
      NothingFollows(all, blocks, tail, more, reader.taken + |bits|, |bits|, goal, target);
      WholeTrailer(trailer);
      state := Finished;
    }

    // ---- whole calls ----

    /** The states outside of a block, and those of a stored one. */
    predicate Outside()
      reads this
    {
      state in {ZlibHeader, BlockHeader, RawHeader, RawBits, RawByteOut, RawCopy, BlockEnd, Trailer, Finished}
    }

    method Step() returns (status: Status)
      requires Inv()
      modifies this, reader, window, window.buf, t.Arrays()
      ensures Inv() && Stepped(status)
    {
      hide Shape, Framing, Stream, AtState, Progress, SameRun, Stopped;
      if Outside() {
        status := StepOutside();
      } else {
        status := StepInside();
      }
    }

    method StepOutside() returns (status: Status)
      requires Inv() && Outside()
      modifies this, reader, window, window.buf, t.Arrays()
      ensures Inv() && Stepped(status)
    {
      hide Shape, Framing, Stream, Progress, SameRun, Stopped, AtZlibHeader, AtBlockHeader, AtRawHeader, AtRawBits, AtRawByteOut;
      hide AtRawCopy, AtTableSizes, AtClenSizes, AtBuildTable, AtRleSym, AtRleExtraBits, AtLitSym, AtLitOut, AtLenExtraBits;
      hide AtDistSym, AtDistExtraBits, AtCopyOut, AtBlockEnd, AtTrailer, AtFinished;
      match state {
        case ZlibHeader => status := StepZlibHeader();
        case BlockHeader => status := StepBlockHeader();
        case RawHeader => status := StepRawHeader();
        case RawBits => status := StepRawBits();
        case RawByteOut => status := StepRawByteOut();
        case RawCopy => status := StepRawCopy();
        case BlockEnd => status := StepBlockEnd();
        case Trailer => status := StepTrailer();
        case Finished => status := StepFinished();
      }
    }

    method StepInside() returns (status: Status)
      requires Inv() && !Outside()
      modifies this, reader, window, window.buf, t.Arrays()
      ensures Inv() && Stepped(status)
    {
      hide Shape, Framing, Stream, Progress, SameRun, Stopped, AtZlibHeader, AtBlockHeader, AtRawHeader, AtRawBits, AtRawByteOut;
      hide AtRawCopy, AtTableSizes, AtClenSizes, AtBuildTable, AtRleSym, AtRleExtraBits, AtLitSym, AtLitOut, AtLenExtraBits;
      hide AtDistSym, AtDistExtraBits, AtCopyOut, AtBlockEnd, AtTrailer, AtFinished;
      match state {
        case TableSizes => status := StepTableSizes();
        case ClenSizes => status := StepClenSizes();
        case BuildTable => status := StepBuildTable();
        case RleSym => status := StepRleSym();
        case RleExtra => status := StepRleExtra();
        case LitSym => status := StepLitSym();
        case LitOut => status := StepLitOut();
        case LenExtra => status := StepLenExtra();
        case DistSym => status := StepDistSym();
        case DistExtra => status := StepDistExtra();
        case CopyOut => status := StepCopyOut();
      }
    }

    method StepFinished() returns (status: Status)
      requires Stream() && state == Finished && AtFinished()
      ensures Stepped(status)
    {
      status := Done;
    }

    /** The checksum covers what has been decoded when a call ends. */
    ghost predicate AdlerOk()
      reads checkAdler, window`out
    {
      checkAdler.value == Value(Checksum(INIT, window.out))
    }

    /**
      One call: decodes from the input into the room given until it has to stop. Whatever the input of this and earlier calls
      was cut into, and however much room each had, what has been decoded is a prefix of the same bytes.
     */
    method Decompress(input: seq<Byte>, hasMore: bool, next: nat, size: nat, ghost later: seq<Byte>)
      returns (status: Status, inUsed: nat, outUsed: nat)
      requires Inv() && AdlerOk() && input + later == reader.inBuf[reader.inPos..] + reader.later && (hasMore || later == [])
      requires next + size <= window.buf.Length && (window.wrapping ==> next + size == window.buf.Length)
      requires next == window.pos || (window.wrapping && window.pos == window.buf.Length && next == 0)
      modifies this, reader, window, window.buf, t.Arrays(), checkAdler
      ensures Inv() && AdlerOk()
      ensures inUsed == reader.inPos <= |input| && reader.inBuf == input && reader.later == later
      ensures reader.fed == old(reader.fed) + inUsed
      ensures outUsed <= size && window.pos == next + outUsed
      ensures window.out == old(window.out) + window.buf[next..next + outUsed] && window.out <= target
      ensures match status
        case Done => window.out == target
        case NeedsMoreInput => hasMore && later != [] && inUsed == |input| && Starved()
        case HasMoreOutput => outUsed == size && |window.out| < |target|
        case _ => false
    {
      hide AtState, Stream, Shape, Framing, Progress, Window.Valid, BitReader.Valid, Checksum, Value, TableSet.Valid, TableReady;
      StartCall(input, hasMore, next, size, later);
      ghost var before := window.out;
      InBounds();
      status := Run();
      InBounds();
      OutBound();
      FedIs();
      inUsed := reader.inPos;
      outUsed := AddToChecksum(next, before);
      if state == Finished {
        AtDone();
      }
      if status == Done && zlib && checkAdler.value != zAdler {
        status := AdlerMismatch;
      }
    }

    lemma FedIs()
      requires Inv()
      ensures reader.fed == reader.start + reader.inPos && 8 * reader.fed == reader.taken + reader.numBits
    {
      hide AtState, Shape, Framing, Window.Valid, Following;
    }

    /** The checksum of what this call has written is added to that of what earlier calls have. */
    method AddToChecksum(next: nat, ghost before: seq<Byte>) returns (outUsed: nat)
      requires Inv() && before <= window.out && window.base + next == |before| && next <= window.pos
      requires checkAdler.value == Value(Checksum(INIT, before))
      modifies checkAdler
      ensures Inv() && AdlerOk() && window.pos == next + outUsed <= window.buf.Length
      ensures window.out == before + window.buf[next..next + outUsed]
    {
      hide AtState, Stream, Shape, Framing, Window.Valid, BitReader.Valid, Checksum, Value, TableSet.Valid;
      InBounds();
      Written(before, next);
      outUsed := window.pos - next;
      var data := window.buf[next..next + outUsed];
      ChecksumReduced(INIT, before);
      ChecksumConcat(INIT, before, data);
      assert checkAdler as object !in t.Arrays();
      checkAdler.value := Update(checkAdler.value, data, Checksum(INIT, before));
    }

    method StartCall(input: seq<Byte>, hasMore: bool, next: nat, size: nat, ghost later: seq<Byte>)
      requires Inv() && input + later == reader.inBuf[reader.inPos..] + reader.later && (hasMore || later == [])
      requires next + size <= window.buf.Length && (window.wrapping ==> next + size == window.buf.Length)
      requires next == window.pos || (window.wrapping && window.pos == window.buf.Length && next == 0)
      modifies reader, window
      ensures Inv() && reader.inBuf == input && reader.inPos == 0 && reader.hasMore == hasMore && reader.later == later
      ensures window.pos == next && window.end == next + size && window.out == old(window.out)
      ensures reader.start == old(reader.fed)
    {
      hide AtState, Stream, Shape, Framing;
      SupplyInput(input, hasMore, later);
      SupplyRoom(next, size);
    }

    method SupplyInput(input: seq<Byte>, hasMore: bool, ghost later: seq<Byte>)
      requires Inv() && input + later == reader.inBuf[reader.inPos..] + reader.later && (hasMore || later == [])
      modifies reader
      ensures Inv() && reader.inBuf == input && reader.inPos == 0 && reader.hasMore == hasMore && reader.later == later
      ensures reader.start == old(reader.fed)
    {
      hide BitReader.Valid, Window.Valid, Following, Shape, Framing, AtState;
      assert reader as object !in t.Arrays();
      reader.Supply(input, hasMore, later);
    }

    method SupplyRoom(next: nat, size: nat)
      requires Inv() && next + size <= window.buf.Length && (window.wrapping ==> next + size == window.buf.Length)
      requires next == window.pos || (window.wrapping && window.pos == window.buf.Length && next == 0)
      modifies window
      ensures Inv() && window.pos == next && window.end == next + size && window.out == old(window.out)
    {
      hide BitReader.Valid, Window.Valid, Following, Shape, Framing, AtState;
      assert window as object !in t.Arrays();
      window.StartCall(next, size);
    }

    method Run() returns (status: Status)
      requires Inv()
      modifies this, reader, window, window.buf, t.Arrays()
      ensures Inv() && SameRun() && Stopped(status) && status != Running
    {
      hide AtState, Stream, Shape, Framing, Window.Valid, BitReader.Valid, Stopped;
      status := Running;
      while status == Running
        invariant Inv() && SameRun() && (status != Running ==> Stopped(status))
        decreases if status == Running then 1 else 0, |reader.rem|, |target| - |window.out|, Rank()
      {
        OutBound();
        status := Step();
        OutBound();
      }
    }

    lemma OutBound()
      requires Inv()
      ensures window.out <= goal <= target
    {
      hide AtState, Shape, Framing, Window.Valid, BitReader.Valid;
    }

    lemma InBounds()
      requires Inv()
      ensures window.Valid() && window.pos <= window.end <= window.buf.Length && window.base + window.pos == |window.out|
      ensures reader.inPos <= |reader.inBuf|
    {
      hide AtState, Shape, Framing, Following, Holds;
      InputBound(reader.bitBuf, reader.numBits, reader.inBuf, reader.inPos, reader.later, reader.rem);
    }

    /** What the caller finds in the buffer. */
    lemma Written(before: seq<Byte>, next: nat)
      requires window.Valid() && before <= window.out && window.base + next == |before| && next <= window.pos
      ensures window.out == before + window.buf[next..window.pos]
    {
    }

    lemma AtDone()
      requires Inv() && state == Finished
      ensures window.out == target && (zlib ==> zAdler == Value(Checksum(INIT, window.out)))
    {
      hide Shape, Window.Valid, BitReader.Valid, Checksum, Value, BigEndian;
      NothingFollows(all, blocks, tail, more, reader.taken + |bits|, |bits|, goal, target);
    }
  }

  lemma WindowSize(w: nat)
    requires w <= 7
    ensures Pow2(8 + w) <= 32768
  {
    Pow2Monotone(8 + w, 15);
    Pow2Values();
  }

  lemma NoBytes(s: seq<Byte>)
    requires s == []
    ensures Bytes(s) == []
  {
  }

  lemma ReadHead(value: nat, last: bool, blockType: nat)
    requires value == (if last then 1 else 0) + 2 * blockType
    ensures value / 2 == blockType && (value % 2 == 1 <==> last)
  {
  }

  lemma AfterHead(rem: seq<bool>, body: seq<bool>)
    requires |rem| >= 3 + |body| && rem[3..3 + |body|] == body
    ensures rem[3..] == body + rem[3 + |body|..]
  {
  }

  lemma PadLength(taken: nat, n: nat)
    requires n < 8 && (taken + n) % 8 == 0
    ensures (8 - taken % 8) % 8 == n
  {
  }

  lemma {:induction false} FixedCounts(n: nat, l: nat)
    requires n <= 288
    ensures Count(FixedLitLens()[..n], l) ==
      (if l == 8 then (if n <= 144 then n else if n <= 280 then 144 else n - 136)
       else if l == 9 then (if n <= 144 then 0 else if n <= 256 then n - 144 else 112)
       else if l == 7 then (if n <= 256 then 0 else if n <= 280 then n - 256 else 24) else 0)
  {
    if n > 0 {
      FixedCounts(n - 1, l);
      assert FixedLitLens()[..n][..n - 1] == FixedLitLens()[..n - 1];
    }
  }

  lemma {:induction false} FixedDistCounts(n: nat, l: nat)
    requires n <= 32
    ensures Count(FixedDistLens()[..n], l) == if l == 5 then n else 0
  {
    if n > 0 {
      FixedDistCounts(n - 1, l);
      assert FixedDistLens()[..n][..n - 1] == FixedDistLens()[..n - 1];
    }
  }

  lemma {:induction false} DoublingCodes(lens: seq<nat>, l: nat, m: nat)
    requires 1 <= l <= m && forall i :: l <= i < m ==> Count(lens, i) == 0
    ensures NextCode(lens, m) == NextCode(lens, l) * Pow2(m - l)
  {
    if l < m {
      DoublingCodes(lens, l, m - 1);
    }
  }

  /** The fixed codes are complete. */
  lemma FixedDecodable()
    ensures Decodable(FixedLitLens()) && Decodable(FixedDistLens())
  {
    var lit, dist := FixedLitLens(), FixedDistLens();
    assert lit[..288] == lit && dist[..32] == dist;
    forall l ensures Count(lit, l) == (if l == 8 then 152 else if l == 9 then 112 else if l == 7 then 24 else 0) {
      FixedCounts(288, l);
    }
    forall l ensures Count(dist, l) == if l == 5 then 32 else 0 {
      FixedDistCounts(32, l);
    }
    FixedComplete(lit);
    FixedDistComplete(dist);
  }

  lemma FixedComplete(lens: seq<nat>)
    requires forall l :: Count(lens, l) == (if l == 8 then 152 else if l == 9 then 112 else if l == 7 then 24 else 0)
    ensures NextCode(lens, 16) == 65536
  {
    hide Count;
    DoublingCodes(lens, 1, 7);
    assert NextCode(lens, 7) == 0 && NextCode(lens, 8) == 48 && NextCode(lens, 9) == 400 && NextCode(lens, 10) == 1024;
    DoublingCodes(lens, 10, 16);
    assert Pow2(6) == 64;
  }

  lemma FixedDistComplete(lens: seq<nat>)
    requires forall l :: Count(lens, l) == if l == 5 then 32 else 0
    ensures NextCode(lens, 16) == 65536
  {
    hide Count;
    DoublingCodes(lens, 1, 5);
    assert NextCode(lens, 5) == 0 && NextCode(lens, 6) == 64;
    DoublingCodes(lens, 6, 16);
    assert Pow2(10) == 1024 by {
      Pow2Values();
    }
  }

  lemma NextSize(bits: seq<bool>, k: nat, h: Header, clenCodes: seq<seq<bool>>, c: Codes, items: seq<Item>, out: seq<Byte>,
                 goal: seq<Byte>)
    requires k < 3 && HeaderOk(h) && AtHeader(bits, AtSize(k), h, clenCodes, c, items, out, goal)
    ensures h.nLit >= 257 && h.nDist >= 1 && |h.clens| >= 4
    ensures |bits| >= SizeWidth(k) && FromBits(bits[..SizeWidth(k)]) == SizeField(h, k)
    ensures AtHeader(bits[SizeWidth(k)..], AtSize(k + 1), h, clenCodes, c, items, out, goal)
  {
    hide RleOk, Decodable, AtItems, PointBits;
    SizeBits(h, clenCodes, k);
    Pow2Values();
    HeaderStep(bits, AtSize(k), AtSize(k + 1), ToBits(SizeField(h, k), SizeWidth(k)), h, clenCodes, c, items, out, goal);
    FieldRead(bits, SizeField(h, k), SizeWidth(k));
  }

  lemma NoClens(clens: seq<nat>, sizes: seq<nat>)
    requires |sizes| >= 19 && forall i :: 0 <= i < 19 ==> sizes[i] == 0
    ensures sizes[..19] == ClenTable(clens[..0])
  {
  }

  lemma SmallClen(h: Header, k: nat)
    requires HeaderOk(h) && k < |h.clens|
    ensures h.clens[k] < Pow2(3) && |h.clens| <= 19
  {
    Pow2Values();
  }

  lemma ClenPut(clens: seq<nat>, k: nat)
    requires k < |clens| && k < 19
    ensures ZIGZAG[k] < 19 && ClenTable(clens[..k + 1]) == ClenTable(clens[..k])[ZIGZAG[k] := clens[k]]
  {
    ZigzagInverse(k);
    var before, after := ClenTable(clens[..k]), ClenTable(clens[..k + 1]);
    forall s | 0 <= s < 19 ensures after[s] == if s == ZIGZAG[k] then clens[k] else before[s] {
      ZagInverse(s);
    }
  }

  lemma HeaderClens(h: Header)
    requires HeaderOk(h)
    ensures Decodable(ClenTable(h.clens)) && forall s :: 0 <= s < 19 ==> ClenTable(h.clens)[s] <= 15
  {
  }

  lemma ShortLens(lens: seq<nat>)
    requires Decodable(lens)
    ensures forall s :: 0 <= s < |lens| ==> lens[s] <= 15
  {
  }

  /** How many lengths there are after k packed items. */
  lemma RleCount(h: Header, k: nat)
    requires HeaderOk(h) && k <= |h.rle|
    ensures |Rle.Expand(h.rle[..k])| <= h.nLit + h.nDist <= 320 && h.nLit <= 288 && h.nDist <= 32
    ensures k < |h.rle| <==> |Rle.Expand(h.rle[..k])| < h.nLit + h.nDist
    ensures k == |h.rle| ==> h.rle[..k] == h.rle
  {
    hide RleOk, Decodable;
    Rle.ExpandPrefix(h.rle, k);
    if k == |h.rle| {
      assert h.rle[..k] == h.rle;
    }
  }

  /** What the next packed item adds to the lengths. */
  lemma RunIs(lens: seq<nat>, item: Rle.RleItem)
    requires 16 <= item.sym <= 18 && (item.sym == 16 ==> lens != [])
    ensures Rle.Run(lens, item)
         == Rle.Repeated(if item.sym == 16 then lens[|lens| - 1] else 0, item.extra + if item.sym == 18 then 11 else 3)
  {
  }

  lemma RleRun(h: Header, k: nat)
    requires HeaderOk(h) && k < |h.rle|
    ensures var item, lens := h.rle[k], Rle.Expand(h.rle[..k]);
      && item.sym < 19 && (item.sym == 16 ==> lens != [])
      && Rle.Expand(h.rle[..k + 1]) == lens + Rle.Run(lens, item)
      && |lens| + |Rle.Run(lens, item)| <= 320
  {
    hide Decodable;
    assert h.rle[..k + 1][..k] == h.rle[..k];
    RleCount(h, k + 1);
    if k > 0 {
      Rle.ExpandPrefix(h.rle[..k], k);
    }
  }

  lemma NextRle(bits: seq<bool>, h: Header, k: nat, c: Codes, items: seq<Item>, out: seq<Byte>, goal: seq<Byte>)
    requires HeaderOk(h) && k < |h.rle| && AtHeader(bits, AtRle(k), h, ClenCodes(h), c, items, out, goal)
    ensures h.rle[k].sym < 19 && Coded(ClenCodes(h), h.rle[k].sym) && ClenCodes(h)[h.rle[k].sym] <= bits
    ensures CodeOf(ClenCodes(h), h.rle[k].sym) == ClenCodes(h)[h.rle[k].sym]
    ensures var next := if h.rle[k].sym < 16 then AtRle(k + 1) else AtRleExtra(k);
      AtHeader(bits[|ClenCodes(h)[h.rle[k].sym]|..], next, h, ClenCodes(h), c, items, out, goal)
  {
    hide Decodable, AtItems, ClenCodes;
    RleSymBits(h, ClenCodes(h), k);
    var next := if h.rle[k].sym < 16 then AtRle(k + 1) else AtRleExtra(k);
    HeaderStep(bits, AtRle(k), next, CodeOf(ClenCodes(h), h.rle[k].sym), h, ClenCodes(h), c, items, out, goal);
  }

  lemma NextRleExtra(bits: seq<bool>, h: Header, k: nat, c: Codes, items: seq<Item>, out: seq<Byte>, goal: seq<Byte>)
    requires HeaderOk(h) && AtHeader(bits, AtRleExtra(k), h, ClenCodes(h), c, items, out, goal) && k < |h.rle|
    ensures var n := Rle.ExtraBits(h.rle[k].sym);
      && n <= |bits| && FromBits(bits[..n]) == h.rle[k].extra
      && AtHeader(bits[n..], AtRle(k + 1), h, ClenCodes(h), c, items, out, goal)
  {
    hide Decodable, AtItems, ClenCodes;
    var n := Rle.ExtraBits(h.rle[k].sym);
    RleExtraBits(h, ClenCodes(h), k);
    HeaderStep(bits, AtRleExtra(k), AtRle(k + 1), ToBits(h.rle[k].extra, n), h, ClenCodes(h), c, items, out, goal);
    FieldRead(bits, h.rle[k].extra, n);
  }

  // ---- facts about symbols ----

  lemma NextItem(bits: seq<bool>, c: Codes, items: seq<Item>, out: seq<Byte>, goal: seq<Byte>)
    requires AtItems(bits, c, items, out, goal)
    ensures Coded(c.lit, NextSym(items)) && c.lit[NextSym(items)] <= bits
    ensures CodeOf(c.lit, NextSym(items)) == c.lit[NextSym(items)]
  {
    hide Meaning;
    if items == [] {
      EndOfItems(bits, c, out, goal);
    } else if items[0].Literal? {
      LiteralRead(bits, c, items, out, goal);
    } else {
      LengthRead(bits, c, items, out, goal);
    }
  }

  lemma AfterItem(bits: seq<bool>, c: Codes, items: seq<Item>, out: seq<Byte>, goal: seq<Byte>)
    requires AtItems(bits, c, items, out, goal)
    ensures Coded(c.lit, NextSym(items)) && c.lit[NextSym(items)] <= bits
    ensures var after := bits[|c.lit[NextSym(items)]|..];
      if items == [] then after == [] && out == goal
      else if items[0].Literal? then AtItems(after, c, items[1..], out + [items[0].b], goal)
      else AtMatchHead(after, AtLenExtra, c, items[0], items[1..], out, goal)
    ensures NextSym(items) < 256 <==> items != [] && items[0].Literal?
    ensures items != [] ==> NextSym(items) == if items[0].Literal? then items[0].b else items[0].lenSym
  {
    hide Meaning, MatchBits, ItemsBits, ItemsOut, ItemsOk;
    if items == [] {
      EndOfItems(bits, c, out, goal);
    } else if items[0].Literal? {
      LiteralRead(bits, c, items, out, goal);
    } else {
      LengthRead(bits, c, items, out, goal);
    }
  }

  lemma CopySymbol(bits: seq<bool>, c: Codes, item: Item, items: seq<Item>, out: seq<Byte>, goal: seq<Byte>)
    requires AtMatchHead(bits, AtLenExtra, c, item, items, out, goal)
    ensures item.Copy? && 257 <= item.lenSym <= 285
  {
    hide Meaning, AtItems;
  }

  lemma OutBelowGoal(bits: seq<bool>, c: Codes, items: seq<Item>, out: seq<Byte>, goal: seq<Byte>)
    requires AtItems(bits, c, items, out, goal)
    ensures out <= goal
  {
    hide ItemsBits;
  }

  /** s_length_extra and s_length_base */
  method LengthEntry(sym: nat) returns (extra: nat, base: nat)
    requires 257 <= sym <= 285
    ensures extra == LengthExtra(sym) && base == LengthBase(sym)
  {
    extra, base := LENGTH_EXTRA[sym - 257], LENGTH_BASE[sym - 257];
  }

  /** s_dist_extra and s_dist_base */
  method DistEntry(sym: nat) returns (extra: nat, base: nat)
    requires sym < 30
    ensures extra == DistanceExtra(sym) && base == DistanceBase(sym)
  {
    extra, base := DIST_EXTRA[sym], DIST_BASE[sym];
  }

  lemma MatchReaches(bits: seq<bool>, c: Codes, len: nat, dist: nat, items: seq<Item>, out: seq<Byte>, goal: seq<Byte>)
    requires AtMatch(bits, c, len, dist, items, out, goal)
    ensures 1 <= dist <= |out| && dist <= LZ_DICT_SIZE
  {
  }

  lemma MatchBelowGoal(bits: seq<bool>, c: Codes, len: nat, dist: nat, items: seq<Item>, out: seq<Byte>, goal: seq<Byte>)
    requires AtMatch(bits, c, len, dist, items, out, goal)
    ensures |out| + len <= |goal|
  {
    OutBelowGoal(bits, c, items, CopyMatch(out, len, dist), goal);
  }

  lemma ByteBelowGoal(bits: seq<bool>, c: Codes, len: nat, dist: nat, items: seq<Item>, out: seq<Byte>, goal: seq<Byte>)
    requires AtMatch(bits, c, len, dist, items, out, goal)
    ensures out <= goal
  {
    OutBelowGoal(bits, c, items, CopyMatch(out, len, dist), goal);
  }

  lemma MatchDone(bits: seq<bool>, c: Codes, dist: nat, items: seq<Item>, out: seq<Byte>, goal: seq<Byte>)
    requires AtMatch(bits, c, 0, dist, items, out, goal)
    ensures AtItems(bits, c, items, out, goal)
  {
  }

  lemma LengthExtraSmall(sym: nat)
    ensures LengthExtra(sym) <= 5
  {
  }

  lemma NoExtra(bits: seq<bool>)
    ensures bits[0..] == bits && FromBits(bits[..0]) == 0
  {
  }

  lemma ItemDistSym(bits: seq<bool>, p: MatchPoint, c: Codes, item: Item, items: seq<Item>, out: seq<Byte>, goal: seq<Byte>)
    requires AtMatchHead(bits, p, c, item, items, out, goal)
    ensures item.Copy? && item.distSym < 30 && DistanceExtra(item.distSym) <= 13 && 257 <= item.lenSym <= 285
    ensures Meaning(item).len == LengthBase(item.lenSym) + item.lenExtra >= 3
    ensures Meaning(item).dist == DistanceBase(item.distSym) + item.distExtra
    ensures CodeOf(c.dist, item.distSym) == c.dist[item.distSym]
  {
    hide AtItems, MatchBits, LENGTH_BASE, LENGTH_EXTRA, Pow2, Apply;
    LengthBaseAtLeast(item.lenSym);
    DistanceExtraSmall(item.distSym);
  }

  lemma LengthBaseAtLeast(sym: nat)
    requires 257 <= sym <= 285
    ensures LengthBase(sym) >= 3
  {
  }

  lemma DistanceExtraSmall(sym: nat)
    ensures DistanceExtra(sym) <= 13
  {
  }

  // ---- facts about the end of the stream ----

  lemma LengthsSplit(h: Header, lens: seq<nat>, n: nat)
    requires HeaderOk(h) && n <= |lens| && lens[..n] == Rle.Expand(h.rle)
    ensures |Rle.Expand(h.rle)| == n == h.nLit + h.nDist && |LitLens(h)| == h.nLit <= 288 && |DistLens(h)| == h.nDist <= 32
    ensures lens[..h.nLit] == LitLens(h) && lens[h.nLit..h.nLit + h.nDist] == DistLens(h)
    ensures Decodable(LitLens(h)) && Decodable(DistLens(h))
    ensures DynamicCodes(h) == Codes(CodesOf(LitLens(h)), CodesOf(DistLens(h)))
  {
    hide Rle.Expand, Decodable, RleOk, ClenTable;
    assert lens[..h.nLit] == lens[..n][..h.nLit] && lens[h.nLit..n] == lens[..n][h.nLit..];
  }

  lemma NothingFollows(all: seq<Block>, blocks: seq<Block>, tail: seq<bool>, more: seq<bool>, pos: nat, n: nat, goal: seq<Byte>,
                       target: seq<Byte>)
    requires Following(all, blocks, tail, more, pos, n, goal, target) && blocks == []
    ensures more == tail && goal == target && BlocksDone(all, |all|, goal)
  {
    assert all[..|all|] == all;
  }

  lemma EmptyFollowing(all: seq<Block>, tail: seq<bool>, pos: nat, goal: seq<Byte>)
    requires BlocksDone(all, |all|, goal)
    ensures Following(all, [], tail, tail, pos, 0, goal, goal)
  {
    assert all[|all|..] == [];
  }

  lemma TrailerBits(pad: seq<bool>, trailer: seq<Byte>, taken: nat, total: nat)
    requires |pad| < 8 && |trailer| == 4 && total % 8 == 0 && taken + |pad + Bytes(trailer)| == total
    ensures (8 - taken % 8) % 8 == |pad| && (pad + Bytes(trailer))[|pad|..] == Bytes(trailer)
  {
    assert (taken + |pad|) % 8 == 0;
    PadLength(taken, |pad|);
  }

  lemma TrailerByte(bits: seq<bool>, trailer: seq<Byte>, k: nat)
    requires k < |trailer| && bits == Bytes(trailer[k..])
    ensures |bits| >= 8 && FromBits(bits[..8]) == trailer[k] && bits[8..] == Bytes(trailer[k + 1..])
  {
    BytesFrom(trailer, k);
    HeadOf(ToBits(trailer[k], 8), Bytes(trailer[k + 1..]));
    ByteValue(trailer[k]);
  }

  lemma TrailerValue(trailer: seq<Byte>, k: nat)
    requires k < |trailer| == 4
    ensures ((Pow2(8 * k) + BigEndian(trailer[..k])) % WORD * 256 + trailer[k]) % WORD
         == (Pow2(8 * (k + 1)) + BigEndian(trailer[..k + 1])) % WORD
  {
    assert trailer[..k + 1][..k] == trailer[..k];
    EightMore(8 * k);
    var v := Pow2(8 * k) + BigEndian(trailer[..k]);
    ModShift(v, trailer[k]);
  }

  lemma ModShift(v: nat, c: nat)
    ensures (v % WORD * 256 + c) % WORD == (v * 256 + c) % WORD
  {
    var q, r := v / WORD, v % WORD;
    assert v * 256 + c == (q * 256) * WORD + (r * 256 + c);
    var q', r' := (r * 256 + c) / WORD, (r * 256 + c) % WORD;
    DivModUnique(v * 256 + c, WORD, q * 256 + q', r');
  }

  lemma WholeTrailer(trailer: seq<Byte>)
    requires |trailer| == 4
    ensures trailer[..4] == trailer && trailer[4..] == [] && Bytes(trailer[4..]) == []
    ensures (Pow2(32) + BigEndian(trailer)) % WORD == BigEndian(trailer)
  {
    WordIsPow2();
    BigEndianBound(trailer);
    DivModUnique(Pow2(32) + BigEndian(trailer), WORD, 1, BigEndian(trailer));
  }

  lemma WordIsPow2()
    ensures Pow2(32) == WORD
  {
    Pow2Add(16, 16);
    Pow2Values();
  }

  lemma {:induction false} BigEndianBound(s: seq<Byte>)
    ensures BigEndian(s) < Pow2(8 * |s|)
  {
    if s != [] {
      BigEndianBound(s[..|s| - 1]);
      EightMore(8 * (|s| - 1));
    }
  }
}
