/** The DEFLATE format (RFC 1951): what a stream of blocks is made of, bit by bit, and which bytes it stands for. */
module Deflate {
  import opened Bits
  import opened Canonical
  import opened TableBound
  import opened LenDist
  import opened Lz
  import Rle = CodeLengthRle

  // ---- symbols of a compressed block ----

  datatype Item = Literal(b: Byte) | Copy(lenSym: nat, lenExtra: nat, distSym: nat, distExtra: nat)

  function LengthExtra(sym: nat): nat {
    if 257 <= sym <= 285 then LENGTH_EXTRA[sym - 257] else 0
  }

  function LengthBase(sym: nat): nat {
    if 257 <= sym <= 285 then LENGTH_BASE[sym - 257] else 0
  }

  function DistanceExtra(sym: nat): nat {
    if sym < 30 then DIST_EXTRA[sym] else 0
  }

  function DistanceBase(sym: nat): nat {
    if sym < 30 then DIST_BASE[sym] else 0
  }

  function Meaning(item: Item): Token {
    match item
    case Literal(b) => Lit(b)
    case Copy(ls, lx, ds, dx) => Match(LengthBase(ls) + lx, DistanceBase(ds) + dx)
  }

  /** The codes of the literal and length symbols and of the distance symbols. */
  datatype Codes = Codes(lit: seq<seq<bool>>, dist: seq<seq<bool>>)

  function CodeOf(codes: seq<seq<bool>>, s: nat): seq<bool> {
    if s < |codes| then codes[s] else []
  }

  predicate ItemOk(c: Codes, item: Item) {
    match item
    case Literal(b) => Coded(c.lit, b)
    case Copy(ls, lx, ds, dx) =>
      && 257 <= ls <= 285 && Coded(c.lit, ls) && lx < Pow2(LengthExtra(ls))
      && ds < 30 && Coded(c.dist, ds) && dx < Pow2(DistanceExtra(ds))
  }

  function ItemBits(c: Codes, item: Item): seq<bool> {
    match item
    case Literal(b) => CodeOf(c.lit, b)
    case Copy(ls, lx, ds, dx) =>
      CodeOf(c.lit, ls) + (ToBits(lx, LengthExtra(ls)) + (CodeOf(c.dist, ds) + ToBits(dx, DistanceExtra(ds))))
  }

  /** The items can be decoded behind n bytes. */
  predicate ItemsOk(c: Codes, items: seq<Item>, n: nat) {
    items == []
    || (ItemOk(c, items[0]) && TokenOk(Meaning(items[0]), n) && ItemsOk(c, items[1..], n + TokenLen(Meaning(items[0]))))
  }

  /** The items of a block, and the symbol 256 that ends it. */
  function ItemsBits(c: Codes, items: seq<Item>): seq<bool> {
    if items == [] then CodeOf(c.lit, 256) else ItemBits(c, items[0]) + ItemsBits(c, items[1..])
  }

  function ItemsOut(c: Codes, items: seq<Item>, out: seq<Byte>): (r: seq<Byte>)
    requires ItemsOk(c, items, |out|)
    ensures out <= r
  {
    if items == [] then out else ItemsOut(c, items[1..], Apply(out, Meaning(items[0])))
  }

  // ---- the header of a block with its own codes ----

  /** clens in the order in which they are sent; rle is the packed form of both tables' code lengths. */
  datatype Header = Header(nLit: nat, nDist: nat, clens: seq<nat>, rle: seq<Rle.RleItem>)

  /** s_length_dezigzag, s_tdefl_packed_code_size_syms_swizzle */
  const ZIGZAG: seq<nat> := [16, 17, 18, 0, 8, 7, 9, 6, 10, 5, 11, 4, 12, 3, 13, 2, 14, 1, 15]

  /** Where a symbol stands in that order. */
  function Zag(sym: nat): nat
    requires sym < 19
  {
    if sym >= 16 then sym - 16
    else if sym == 0 then 3
    else if sym < 8 then 19 - 2 * sym
    else 2 * sym - 12
  }

  lemma ZigzagInverse(i: nat)
    requires i < 19
    ensures ZIGZAG[i] < 19 && Zag(ZIGZAG[i]) == i
  {
  }

  lemma ZagInverse(sym: nat)
    requires sym < 19
    ensures Zag(sym) < 19 && ZIGZAG[Zag(sym)] == sym
  {
  }

  /** The lengths of the codes of the code length symbols; those not sent are 0. */
  function ClenTable(clens: seq<nat>): (lens: seq<nat>)
    ensures |lens| == 19
  {
    seq(19, s requires 0 <= s < 19 => if Zag(s) < |clens| then clens[Zag(s)] else 0)
  }

  function ClenCodes(h: Header): seq<seq<bool>> {
    CodesOf(ClenTable(h.clens))
  }

  function LitLens(h: Header): seq<nat>
    requires |Rle.Expand(h.rle)| == h.nLit + h.nDist
  {
    Rle.Expand(h.rle)[..h.nLit]
  }

  function DistLens(h: Header): seq<nat>
    requires |Rle.Expand(h.rle)| == h.nLit + h.nDist
  {
    Rle.Expand(h.rle)[h.nLit..]
  }

  predicate RleOk(h: Header) {
    && Rle.ItemsOk(h.rle)
    && (forall i :: 0 <= i < |h.rle| ==> Coded(ClenCodes(h), h.rle[i].sym))
  }

  predicate HeaderOk(h: Header) {
    && 257 <= h.nLit <= 288 && 1 <= h.nDist <= 32 && 4 <= |h.clens| <= 19
    && (forall i :: 0 <= i < |h.clens| ==> h.clens[i] < 8)
    && Decodable(ClenTable(h.clens)) && RleOk(h)
    && |Rle.Expand(h.rle)| == h.nLit + h.nDist
    && Decodable(LitLens(h)) && Decodable(DistLens(h))
  }

  function ClensBits(clens: seq<nat>): seq<bool> {
    if clens == [] then [] else ToBits(clens[0], 3) + ClensBits(clens[1..])
  }

  function RleBits(codes: seq<seq<bool>>, rle: seq<Rle.RleItem>): seq<bool> {
    if rle == [] then []
    else CodeOf(codes, rle[0].sym) + (ToBits(rle[0].extra, Rle.ExtraBits(rle[0].sym)) + RleBits(codes, rle[1..]))
  }

  /** HLIT, HDIST and HCLEN, from the k-th on. */
  function SizesBits(h: Header, k: nat): seq<bool>
    requires h.nLit >= 257 && h.nDist >= 1 && |h.clens| >= 4
    decreases 3 - k
  {
    if k == 0 then ToBits(h.nLit - 257, 5) + SizesBits(h, 1)
    else if k == 1 then ToBits(h.nDist - 1, 5) + SizesBits(h, 2)
    else if k == 2 then ToBits(|h.clens| - 4, 4)
    else []
  }

  function HeaderBits(h: Header): seq<bool>
    requires h.nLit >= 257 && h.nDist >= 1 && |h.clens| >= 4
  {
    SizesBits(h, 0) + (ClensBits(h.clens) + RleBits(ClenCodes(h), h.rle))
  }

  // ---- blocks ----

  datatype Block =
    | Stored(pad: seq<bool>, data: seq<Byte>)
    | Fixed(items: seq<Item>)
    | Dynamic(header: Header, items: seq<Item>)

  function FixedLitLens(): (lens: seq<nat>)
    ensures |lens| == 288
  {
    seq(288, i => if i <= 143 then 8 else if i <= 255 then 9 else if i <= 279 then 7 else 8)
  }

  function FixedDistLens(): (lens: seq<nat>)
    ensures |lens| == 32
  {
    seq(32, _ => 5)
  }

  function FixedCodes(): Codes {
    Codes(CodesOf(FixedLitLens()), CodesOf(FixedDistLens()))
  }

  function DynamicCodes(h: Header): Codes
    requires HeaderOk(h)
  {
    Codes(CodesOf(LitLens(h)), CodesOf(DistLens(h)))
  }

  predicate WellFormed(b: Block) {
    match b
    case Stored(pad, data) => |pad| < 8 && |data| < 65536
    case Fixed(items) => true
    case Dynamic(h, items) => HeaderOk(h) && Coded(DynamicCodes(h).lit, 256)
  }

  /** The block can be decoded behind n bytes. */
  predicate BlockOk(b: Block, n: nat) {
    && WellFormed(b)
    && match b
       case Stored(_, _) => true
       case Fixed(items) => ItemsOk(FixedCodes(), items, n)
       case Dynamic(h, items) => ItemsOk(DynamicCodes(h), items, n)
  }

  /** LEN and NLEN: the number of bytes, and its complement. */
  function StoredHeader(len: nat): (s: seq<Byte>)
    requires len < 65536
    ensures |s| == 4
  {
    [len % 256, len / 256, 255 - len % 256, 255 - len / 256]
  }

  function BodyBits(b: Block): seq<bool>
    requires WellFormed(b)
  {
    match b
    case Stored(pad, data) => pad + (Bytes(StoredHeader(|data|)) + Bytes(data))
    case Fixed(items) => ItemsBits(FixedCodes(), items)
    case Dynamic(h, items) => HeaderBits(h) + ItemsBits(DynamicCodes(h), items)
  }

  function BlockType(b: Block): nat {
    match b case Stored(_, _) => 0 case Fixed(_) => 1 case Dynamic(_, _) => 2
  }

  function BlockBits(b: Block, final: bool): seq<bool>
    requires WellFormed(b)
  {
    [final] + (ToBits(BlockType(b), 2) + BodyBits(b))
  }

  function BlockOut(b: Block, out: seq<Byte>): (r: seq<Byte>)
    requires BlockOk(b, |out|)
    ensures out <= r
  {
    match b
    case Stored(_, data) => out + data
    case Fixed(items) => ItemsOut(FixedCodes(), items, out)
    case Dynamic(h, items) => ItemsOut(DynamicCodes(h), items, out)
  }

  // ---- streams ----

  predicate AllWellFormed(blocks: seq<Block>) {
    forall i :: 0 <= i < |blocks| ==> WellFormed(blocks[i])
  }

  /** The blocks can be decoded behind out. */
  predicate BlocksOk(blocks: seq<Block>, out: seq<Byte>) {
    blocks == [] || (BlockOk(blocks[0], |out|) && BlocksOk(blocks[1..], BlockOut(blocks[0], out)))
  }

  /** The blocks; if ended, the last one is marked as the last of the stream. */
  function BlocksBits(blocks: seq<Block>, ended: bool): seq<bool>
    requires AllWellFormed(blocks)
  {
    if blocks == [] then [] else BlockBits(blocks[0], ended && |blocks| == 1) + BlocksBits(blocks[1..], ended)
  }

  function BlocksOut(blocks: seq<Block>, out: seq<Byte>): (r: seq<Byte>)
    requires BlocksOk(blocks, out)
    ensures out <= r
  {
    if blocks == [] then out else BlocksOut(blocks[1..], BlockOut(blocks[0], out))
  }

  /** The data of a stored block starts at a byte boundary. pos counts the bits before the blocks. */
  predicate Aligned(blocks: seq<Block>, pos: nat, ended: bool)
    requires AllWellFormed(blocks)
  {
    blocks == []
    || (&& (blocks[0].Stored? ==> (pos + 3 + |blocks[0].pad|) % 8 == 0)
        && Aligned(blocks[1..], pos + |BlockBits(blocks[0], ended && |blocks| == 1)|, ended))
  }
}
