/**
  Where the decoder can be within a stream. At each point, bits are those of the current block not read yet, out what has
  been decoded, and goal what will have been decoded at the end of the block.
 */
module InflateSteps {
  import opened Bits
  import opened TableBound
  import opened Lz
  import opened Deflate
  import opened StreamFacts
  import Rle = CodeLengthRle

  // ---- between blocks ----

  /** What is decoded when the first j blocks are done. */
  ghost predicate BlocksDone(all: seq<Block>, j: nat, out: seq<Byte>) {
    j <= |all| && BlocksOk(all[..j], []) && out == BlocksOut(all[..j], [])
  }

  /** How many bits the j-th block has behind the first three; before the first block, those of the zlib header. */
  function BlockRoom(all: seq<Block>, j: nat): nat {
    if j == 0 then 16 else if j <= |all| && WellFormed(all[j - 1]) then |BodyBits(all[j - 1])| else 0
  }

  /** All blocks but those left have begun, n bits of the last of them are left, and it ends with goal. */
  ghost predicate Begun(all: seq<Block>, blocks: seq<Block>, n: nat, goal: seq<Byte>) {
    && |blocks| <= |all| && blocks == all[|all| - |blocks|..] && BlocksDone(all, |all| - |blocks|, goal)
    && n <= BlockRoom(all, |all| - |blocks|)
  }

  /** After the current block, of which n bits are left: the other blocks, then the padding and checksum in tail. */
  ghost predicate Following(all: seq<Block>, blocks: seq<Block>, tail: seq<bool>, more: seq<bool>, pos: nat, n: nat,
                            goal: seq<Byte>, target: seq<Byte>) {
    && AllWellFormed(blocks) && more == BlocksBits(blocks, true) + tail
    && BlocksOk(blocks, goal) && BlocksOut(blocks, goal) == target && Aligned(blocks, pos, true)
    && Begun(all, blocks, n, goal)
  }

  /** Bits of the block have been read. */
  lemma FewerLeft(all: seq<Block>, blocks: seq<Block>, tail: seq<bool>, more: seq<bool>, pos: nat, n: nat, n': nat,
                  goal: seq<Byte>, target: seq<Byte>)
    requires Following(all, blocks, tail, more, pos, n, goal, target) && n' <= n
    ensures Following(all, blocks, tail, more, pos, n', goal, target)
  {
  }

  lemma NextBegun(all: seq<Block>, blocks: seq<Block>, n: nat, out: seq<Byte>)
    requires Begun(all, blocks, n, out) && blocks != [] && BlockOk(blocks[0], |out|)
    ensures Begun(all, blocks[1..], |BodyBits(blocks[0])|, BlockOut(blocks[0], out))
  {
    hide BodyBits, BlockOut;
    var j := |all| - |blocks|;
    AppendOk(all[..j], blocks[0], []);
    assert all[..j + 1] == all[..j] + [blocks[0]];
    assert all[j + 1..] == blocks[1..];
  }

  lemma TakeHead(bits: seq<bool>, more: seq<bool>, rem: seq<bool>, n: nat)
    requires rem == bits + more && n <= |bits|
    ensures rem[..n] == bits[..n] && rem[n..] == bits[n..] + more
  {
  }

  lemma HeadOf(head: seq<bool>, rest: seq<bool>)
    ensures (head + rest)[..|head|] == head && (head + rest)[|head|..] == rest
  {
  }

  // ---- stored blocks ----

  ghost predicate AtStoredHeader(bits: seq<bool>, k: nat, data: seq<Byte>, out: seq<Byte>, goal: seq<Byte>) {
    && k <= 4 && |data| < 65536 && goal == out + data
    && bits == Bytes(StoredHeader(|data|)[k..]) + Bytes(data)
  }

  ghost predicate AtData(bits: seq<bool>, data: seq<Byte>, out: seq<Byte>, goal: seq<Byte>) {
    bits == Bytes(data) && goal == out + data && |data| < 65536
  }

  lemma BytesFrom(data: seq<Byte>, k: nat)
    requires k < |data|
    ensures Bytes(data[k..]) == ToBits(data[k], 8) + Bytes(data[k + 1..])
  {
    assert data[k..][0] == data[k] && data[k..][1..] == data[k + 1..];
  }

  lemma ByteValue(b: Byte)
    ensures FromBits(ToBits(b, 8)) == b
  {
    FromToBits(b, 8);
    Pow2Values();
    DivModUnique(b, 256, 0, b);
  }

  lemma StoredHeaderByte(bits: seq<bool>, k: nat, data: seq<Byte>, out: seq<Byte>, goal: seq<Byte>)
    requires k < 4 && AtStoredHeader(bits, k, data, out, goal)
    ensures |bits| >= 8 && FromBits(bits[..8]) == StoredHeader(|data|)[k]
    ensures AtStoredHeader(bits[8..], k + 1, data, out, goal)
  {
    NextByte(bits, StoredHeader(|data|), k, Bytes(data));
  }

  lemma NextByte(bits: seq<bool>, bytes: seq<Byte>, k: nat, rest: seq<bool>)
    requires k < |bytes| && bits == Bytes(bytes[k..]) + rest
    ensures |bits| >= 8 && FromBits(bits[..8]) == bytes[k] && bits[8..] == Bytes(bytes[k + 1..]) + rest
  {
    BytesFrom(bytes, k);
    ByteValue(bytes[k]);
    TwoHeads(bits, ToBits(bytes[k], 8), Bytes(bytes[k + 1..]), rest);
  }

  lemma TwoHeads(bits: seq<bool>, a: seq<bool>, b: seq<bool>, rest: seq<bool>)
    requires bits == (a + b) + rest
    ensures |a| <= |bits| && bits[..|a|] == a && bits[|a|..] == b + rest
    ensures bits[|a|..][..|b|] == b && bits[|a|..][|b|..] == rest
  {
  }

  lemma StoredHeaderEnd(bits: seq<bool>, data: seq<Byte>, out: seq<Byte>, goal: seq<Byte>)
    requires AtStoredHeader(bits, 4, data, out, goal)
    ensures AtData(bits, data, out, goal)
  {
    assert StoredHeader(|data|)[4..] == [];
  }

  lemma DataByte(bits: seq<bool>, data: seq<Byte>, out: seq<Byte>, goal: seq<Byte>)
    requires data != [] && AtData(bits, data, out, goal)
    ensures |bits| >= 8 && FromBits(bits[..8]) == data[0] && AtData(bits[8..], data[1..], out + [data[0]], goal)
  {
    ByteValue(data[0]);
    HeadOf(ToBits(data[0], 8), Bytes(data[1..]));
    assert data == [data[0]] + data[1..];
  }

  lemma DataRun(bits: seq<bool>, data: seq<Byte>, n: nat, run: seq<Byte>, out: seq<Byte>, goal: seq<Byte>)
    requires n <= |data| && |run| == n && AtData(bits, data, out, goal) && Bytes(run) == bits[..8 * n]
    ensures run == data[..n] && AtData(bits[8 * n..], data[n..], out + run, goal)
  {
    assert data == data[..n] + data[n..];
    BytesConcat(data[..n], data[n..]);
    HeadOf(Bytes(data[..n]), Bytes(data[n..]));
    BytesInjective(run, data[..n]);
  }

  lemma {:induction false} BytesInjective(a: seq<Byte>, b: seq<Byte>)
    requires |a| == |b| && Bytes(a) == Bytes(b)
    ensures a == b
  {
    if a != [] {
      HeadOf(ToBits(a[0], 8), Bytes(a[1..]));
      HeadOf(ToBits(b[0], 8), Bytes(b[1..]));
      ByteValue(a[0]);
      ByteValue(b[0]);
      BytesInjective(a[1..], b[1..]);
      assert a == [a[0]] + a[1..] && b == [b[0]] + b[1..];
    }
  }

  // ---- symbols ----

  ghost predicate AtItems(bits: seq<bool>, c: Codes, items: seq<Item>, out: seq<Byte>, goal: seq<Byte>) {
    && Coded(c.lit, 256) && ItemsOk(c, items, |out|)
    && bits == ItemsBits(c, items) && ItemsOut(c, items, out) == goal
  }

  /** Where in a match: before the extra bits of its length, its distance symbol, or the extra bits of its distance. */
  datatype MatchPoint = AtLenExtra | AtDist | AtDistExtra

  function MatchBits(p: MatchPoint, c: Codes, item: Item): seq<bool>
    requires item.Copy?
  {
    match p
    case AtLenExtra =>
      ToBits(item.lenExtra, LengthExtra(item.lenSym))
      + (CodeOf(c.dist, item.distSym) + ToBits(item.distExtra, DistanceExtra(item.distSym)))
    case AtDist => CodeOf(c.dist, item.distSym) + ToBits(item.distExtra, DistanceExtra(item.distSym))
    case AtDistExtra => ToBits(item.distExtra, DistanceExtra(item.distSym))
  }

  ghost predicate AtMatchHead(bits: seq<bool>, p: MatchPoint, c: Codes, item: Item, items: seq<Item>, out: seq<Byte>,
                              goal: seq<Byte>) {
    && item.Copy? && ItemOk(c, item) && TokenOk(Meaning(item), |out|)
    && |bits| >= |MatchBits(p, c, item)| && bits[..|MatchBits(p, c, item)|] == MatchBits(p, c, item)
    && AtItems(bits[|MatchBits(p, c, item)|..], c, items, Apply(out, Meaning(item)), goal)
  }

  ghost predicate AtMatch(bits: seq<bool>, c: Codes, len: nat, dist: nat, items: seq<Item>, out: seq<Byte>, goal: seq<Byte>) {
    1 <= dist <= |out| && dist <= LZ_DICT_SIZE && AtItems(bits, c, items, CopyMatch(out, len, dist), goal)
  }

  lemma LiteralRead(bits: seq<bool>, c: Codes, items: seq<Item>, out: seq<Byte>, goal: seq<Byte>)
    requires items != [] && items[0].Literal? && AtItems(bits, c, items, out, goal)
    ensures Coded(c.lit, items[0].b) && c.lit[items[0].b] <= bits
    ensures AtItems(bits[|c.lit[items[0].b]|..], c, items[1..], out + [items[0].b], goal)
  {
    HeadOf(c.lit[items[0].b], ItemsBits(c, items[1..]));
  }

  lemma LengthRead(bits: seq<bool>, c: Codes, items: seq<Item>, out: seq<Byte>, goal: seq<Byte>)
    requires items != [] && items[0].Copy? && AtItems(bits, c, items, out, goal)
    ensures 257 <= items[0].lenSym <= 285 && Coded(c.lit, items[0].lenSym) && c.lit[items[0].lenSym] <= bits
    ensures AtMatchHead(bits[|c.lit[items[0].lenSym]|..], AtLenExtra, c, items[0], items[1..], out, goal)
  {
    hide Meaning, MatchBits;
    var it := items[0];
    LengthBits(c, it);
    TwoHeads(bits, c.lit[it.lenSym], MatchBits(AtLenExtra, c, it), ItemsBits(c, items[1..]));
  }

  lemma LengthBits(c: Codes, it: Item)
    requires it.Copy? && Coded(c.lit, it.lenSym)
    ensures ItemBits(c, it) == c.lit[it.lenSym] + MatchBits(AtLenExtra, c, it)
  {
  }

  lemma EndOfItems(bits: seq<bool>, c: Codes, out: seq<Byte>, goal: seq<Byte>)
    requires AtItems(bits, c, [], out, goal)
    ensures bits == c.lit[256] && out == goal
  {
  }

  /** The next symbol of the literal and length code. */
  function NextSym(items: seq<Item>): nat {
    if items == [] then 256 else if items[0].Literal? then items[0].b else items[0].lenSym
  }

  lemma LenExtraRead(bits: seq<bool>, c: Codes, item: Item, items: seq<Item>, out: seq<Byte>, goal: seq<Byte>)
    requires AtMatchHead(bits, AtLenExtra, c, item, items, out, goal)
    ensures |bits| >= LengthExtra(item.lenSym) && FromBits(bits[..LengthExtra(item.lenSym)]) == item.lenExtra
    ensures AtMatchHead(bits[LengthExtra(item.lenSym)..], AtDist, c, item, items, out, goal)
  {
    var n := LengthExtra(item.lenSym);
    SplitMatch(bits, ToBits(item.lenExtra, n), MatchBits(AtDist, c, item));
    FieldValue(item.lenExtra, n);
  }

  lemma SplitMatch(bits: seq<bool>, head: seq<bool>, m: seq<bool>)
    requires head + m <= bits
    ensures head == bits[..|head|] && m <= bits[|head|..] && bits[|head|..][|m|..] == bits[|head + m|..]
  {
  }

  lemma FieldValue(v: nat, n: nat)
    requires v < Pow2(n)
    ensures FromBits(ToBits(v, n)) == v
  {
    FromToBits(v, n);
    DivModUnique(v, Pow2(n), 0, v);
  }

  lemma FieldRead(bits: seq<bool>, v: nat, n: nat)
    requires v < Pow2(n) && ToBits(v, n) <= bits
    ensures FromBits(bits[..n]) == v
  {
    FieldValue(v, n);
    assert bits[..n] == ToBits(v, n);
  }

  lemma DistRead(bits: seq<bool>, c: Codes, item: Item, items: seq<Item>, out: seq<Byte>, goal: seq<Byte>)
    requires AtMatchHead(bits, AtDist, c, item, items, out, goal)
    ensures Coded(c.dist, item.distSym) && c.dist[item.distSym] <= bits
    ensures AtMatchHead(bits[|c.dist[item.distSym]|..], AtDistExtra, c, item, items, out, goal)
  {
    SplitMatch(bits, c.dist[item.distSym], MatchBits(AtDistExtra, c, item));
  }

  lemma DistExtraRead(bits: seq<bool>, c: Codes, item: Item, items: seq<Item>, out: seq<Byte>, goal: seq<Byte>)
    requires AtMatchHead(bits, AtDistExtra, c, item, items, out, goal)
    ensures |bits| >= DistanceExtra(item.distSym) && FromBits(bits[..DistanceExtra(item.distSym)]) == item.distExtra
    ensures AtMatch(bits[DistanceExtra(item.distSym)..], c, Meaning(item).len, Meaning(item).dist, items, out, goal)
  {
    FieldValue(item.distExtra, DistanceExtra(item.distSym));
  }

  lemma ByteCopied(bits: seq<bool>, c: Codes, len: nat, dist: nat, items: seq<Item>, out: seq<Byte>, goal: seq<Byte>)
    requires len >= 1 && AtMatch(bits, c, len, dist, items, out, goal)
    ensures AtMatch(bits, c, len - 1, dist, items, out + [out[|out| - dist]], goal)
  {
  }

  // ---- the header of a block with its own codes ----

  /** Where in the header: before its k-th size, code length code, packed item, or the extra bits of that item. */
  datatype HeaderPoint = AtSize(k: nat) | AtClen(k: nat) | AtRle(k: nat) | AtRleExtra(k: nat)

  predicate PointOk(p: HeaderPoint, h: Header) {
    match p
    case AtSize(k) => k <= 3 && h.nLit >= 257 && h.nDist >= 1 && |h.clens| >= 4
    case AtClen(k) => k <= |h.clens|
    case AtRle(k) => k <= |h.rle|
    case AtRleExtra(k) => k < |h.rle| && h.rle[k].sym >= 16
  }

  /** The bits of the header from a point on; codes are those of the packed symbols. */
  function PointBits(p: HeaderPoint, h: Header, codes: seq<seq<bool>>): seq<bool>
    requires PointOk(p, h)
  {
    match p
    case AtSize(k) => SizesBits(h, k) + (ClensBits(h.clens) + RleBits(codes, h.rle))
    case AtClen(k) => ClensBits(h.clens[k..]) + RleBits(codes, h.rle)
    case AtRle(k) => RleBits(codes, h.rle[k..])
    case AtRleExtra(k) => ToBits(h.rle[k].extra, Rle.ExtraBits(h.rle[k].sym)) + RleBits(codes, h.rle[k + 1..])
  }

  ghost predicate AtHeader(bits: seq<bool>, p: HeaderPoint, h: Header, codes: seq<seq<bool>>, c: Codes, items: seq<Item>,
                           out: seq<Byte>, goal: seq<Byte>) {
    && PointOk(p, h)
    && PointBits(p, h, codes) <= bits
    && AtItems(bits[|PointBits(p, h, codes)|..], c, items, out, goal)
  }

  /** Reading the bits of head leads from one point in the header to the next. */
  lemma HeaderStep(bits: seq<bool>, p: HeaderPoint, p': HeaderPoint, head: seq<bool>, h: Header, codes: seq<seq<bool>>, c: Codes,
                   items: seq<Item>, out: seq<Byte>, goal: seq<Byte>)
    requires AtHeader(bits, p, h, codes, c, items, out, goal) && PointOk(p', h)
    requires PointBits(p, h, codes) == head + PointBits(p', h, codes)
    ensures head <= bits && AtHeader(bits[|head|..], p', h, codes, c, items, out, goal)
  {
    SplitMatch(bits, head, PointBits(p', h, codes));
  }

  function SizeField(h: Header, k: nat): nat
    requires h.nLit >= 257 && h.nDist >= 1 && |h.clens| >= 4
  {
    if k == 0 then h.nLit - 257 else if k == 1 then h.nDist - 1 else |h.clens| - 4
  }

  function SizeWidth(k: nat): nat {
    if k < 2 then 5 else 4
  }

  lemma SizeBits(h: Header, codes: seq<seq<bool>>, k: nat)
    requires PointOk(AtSize(k), h) && k < 3
    ensures PointBits(AtSize(k), h, codes) == ToBits(SizeField(h, k), SizeWidth(k)) + PointBits(AtSize(k + 1), h, codes)
  {
    assert SizesBits(h, k) == ToBits(SizeField(h, k), SizeWidth(k)) + SizesBits(h, k + 1);
  }

  lemma SizesEnd(h: Header, codes: seq<seq<bool>>)
    requires PointOk(AtSize(3), h)
    ensures PointBits(AtSize(3), h, codes) == [] + PointBits(AtClen(0), h, codes)
  {
    assert h.clens[0..] == h.clens;
  }

  lemma ClenBits(h: Header, codes: seq<seq<bool>>, k: nat)
    requires k < |h.clens|
    ensures PointBits(AtClen(k), h, codes) == ToBits(h.clens[k], 3) + PointBits(AtClen(k + 1), h, codes)
  {
    assert h.clens[k..][0] == h.clens[k] && h.clens[k..][1..] == h.clens[k + 1..];
  }

  lemma ClensEnd(h: Header, codes: seq<seq<bool>>)
    ensures PointBits(AtClen(|h.clens|), h, codes) == [] + PointBits(AtRle(0), h, codes)
  {
    assert h.clens[|h.clens|..] == [] && h.rle[0..] == h.rle;
  }

  /** A packed symbol below 16 has no extra bits. */
  lemma RleSymBits(h: Header, codes: seq<seq<bool>>, k: nat)
    requires k < |h.rle|
    ensures var next := if h.rle[k].sym < 16 then AtRle(k + 1) else AtRleExtra(k);
      PointBits(AtRle(k), h, codes) == CodeOf(codes, h.rle[k].sym) + PointBits(next, h, codes)
  {
    assert h.rle[k..][0] == h.rle[k] && h.rle[k..][1..] == h.rle[k + 1..];
  }

  lemma RleExtraBits(h: Header, codes: seq<seq<bool>>, k: nat)
    requires PointOk(AtRleExtra(k), h)
    ensures PointBits(AtRleExtra(k), h, codes)
         == ToBits(h.rle[k].extra, Rle.ExtraBits(h.rle[k].sym)) + PointBits(AtRle(k + 1), h, codes)
  {
  }

  lemma HeaderEnd(bits: seq<bool>, h: Header, codes: seq<seq<bool>>, c: Codes, items: seq<Item>, out: seq<Byte>, goal: seq<Byte>)
    requires AtHeader(bits, AtRle(|h.rle|), h, codes, c, items, out, goal)
    ensures AtItems(bits, c, items, out, goal)
  {
    assert h.rle[|h.rle|..] == [];
    assert bits[0..] == bits;
  }

  // ---- a block begins ----

  function Padding(b: Block): seq<bool> {
    if b.Stored? then b.pad else []
  }

  lemma FixedCoded()
    ensures forall s :: 0 <= s < 288 ==> Coded(FixedCodes().lit, s) && |FixedCodes().lit[s]| <= 9
    ensures forall s :: 0 <= s < 32 ==> Coded(FixedCodes().dist, s) && |FixedCodes().dist[s]| == 5
  {
  }

  /** Where reading goes on behind the first three bits of a block and, if its data is stored, behind the padding. */
  ghost predicate AtStart(bits: seq<bool>, b: Block, out: seq<Byte>, goal: seq<Byte>) {
    match b
    case Stored(_, data) => AtStoredHeader(bits, 0, data, out, goal)
    case Fixed(items) => AtItems(bits, FixedCodes(), items, out, goal)
    case Dynamic(h, items) =>
      HeaderOk(h) && AtHeader(bits, AtSize(0), h, ClenCodes(h), DynamicCodes(h), items, out, goal)
  }

  lemma StoredStart(pad: seq<bool>, data: seq<Byte>, out: seq<Byte>)
    requires |data| < 65536
    ensures var body := pad + (Bytes(StoredHeader(|data|)) + Bytes(data));
      AtStoredHeader(body[|pad|..], 0, data, out, out + data)
  {
    assert StoredHeader(|data|)[0..] == StoredHeader(|data|);
    HeadOf(pad, Bytes(StoredHeader(|data|)) + Bytes(data));
  }

  lemma DynamicStart(h: Header, codes: seq<seq<bool>>, c: Codes, items: seq<Item>, out: seq<Byte>)
    requires PointOk(AtSize(0), h) && Coded(c.lit, 256) && ItemsOk(c, items, |out|)
    ensures AtHeader(SizesBits(h, 0) + (ClensBits(h.clens) + RleBits(codes, h.rle)) + ItemsBits(c, items), AtSize(0), h, codes, c,
                     items, out, ItemsOut(c, items, out))
  {
    HeadOf(SizesBits(h, 0) + (ClensBits(h.clens) + RleBits(codes, h.rle)), ItemsBits(c, items));
  }

  lemma BlockStart(b: Block, out: seq<Byte>)
    requires BlockOk(b, |out|)
    ensures |Padding(b)| <= |BodyBits(b)| && AtStart(BodyBits(b)[|Padding(b)|..], b, out, BlockOut(b, out))
  {
    match b
    case Stored(pad, data) =>
      StoredStart(pad, data, out);
    case Fixed(items) =>
      FixedCoded();
    case Dynamic(h, items) =>
      DynamicStart(h, ClenCodes(h), DynamicCodes(h), items, out);
  }

  lemma StoredBegins(pad: seq<bool>, data: seq<Byte>, out: seq<Byte>)
    requires WellFormed(Stored(pad, data)) && BlockOk(Stored(pad, data), |out|)
    ensures |pad| <= |BodyBits(Stored(pad, data))|
    ensures AtStoredHeader(BodyBits(Stored(pad, data))[|pad|..], 0, data, out, BlockOut(Stored(pad, data), out))
  {
    StoredStart(pad, data, out);
  }

  lemma FixedBegins(items: seq<Item>, out: seq<Byte>)
    requires BlockOk(Fixed(items), |out|)
    ensures AtItems(BodyBits(Fixed(items)), FixedCodes(), items, out, BlockOut(Fixed(items), out))
    ensures FixedCodes() == Codes(CodesOf(FixedLitLens()), CodesOf(FixedDistLens()))
  {
    BlockStart(Fixed(items), out);
    assert BodyBits(Fixed(items))[0..] == BodyBits(Fixed(items));
  }

  lemma DynamicBegins(h: Header, items: seq<Item>, out: seq<Byte>)
    requires BlockOk(Dynamic(h, items), |out|)
    ensures HeaderOk(h)
    ensures AtHeader(BodyBits(Dynamic(h, items)), AtSize(0), h, ClenCodes(h), DynamicCodes(h), items, out,
                     BlockOut(Dynamic(h, items), out))
  {
    hide AtHeader, HeaderOk;
    BlockStart(Dynamic(h, items), out);
    assert BodyBits(Dynamic(h, items))[0..] == BodyBits(Dynamic(h, items));
  }

  /** The three bits: whether it is the last block, and its type. */
  lemma HeadBits(b: Block, final: bool, body: seq<bool>)
    ensures var bits := [final] + (ToBits(BlockType(b), 2) + body);
      FromBits(bits[..3]) == (if final then 1 else 0) + 2 * BlockType(b) && bits[3..] == body
  {
    var head := [final] + ToBits(BlockType(b), 2);
    HeadOf(head, body);
    assert [final] + (ToBits(BlockType(b), 2) + body) == head + body;
    assert head[1..] == ToBits(BlockType(b), 2);
    FieldTwo(BlockType(b));
  }

  lemma FieldTwo(v: nat)
    requires v < 4
    ensures FromBits(ToBits(v, 2)) == v
  {
    FromToBits(v, 2);
    Pow2Values();
  }

  /** A block begins. */
  lemma BlockBegins(all: seq<Block>, blocks: seq<Block>, tail: seq<bool>, rem: seq<bool>, pos: nat, n: nat, out: seq<Byte>,
                    target: seq<Byte>)
    requires blocks != [] && Following(all, blocks, tail, rem, pos, n, out, target)
    ensures var b, last := blocks[0], |blocks| == 1;
      && WellFormed(b) && |rem| >= 3 + |BodyBits(b)|
      && FromBits(rem[..3]) == (if last then 1 else 0) + 2 * BlockType(b)
      && rem[3..3 + |BodyBits(b)|] == BodyBits(b) && BlockOk(b, |out|)
      && (b.Stored? ==> |b.pad| < 8 && (pos + 3 + |b.pad|) % 8 == 0)
      && Following(all, blocks[1..], tail, rem[3 + |BodyBits(b)|..], pos + 3 + |BodyBits(b)|, |BodyBits(b)|, BlockOut(b, out), target)
  {
    SmallPad(blocks[0]);
    FirstBlock(all, blocks, tail, rem, pos, n, out, target);
    hide BodyBits, WellFormed, BlockOk, BlockOut, Following;
    var b, last := blocks[0], |blocks| == 1;
    var body := BodyBits(b);
    HeadBits(b, last, body);
    var more := BlocksBits(blocks[1..], true) + tail;
    var bits := [last] + (ToBits(BlockType(b), 2) + body);
    assert rem == bits + more;
    ThreeBits(rem, bits, body, more);
  }

  lemma SmallPad(b: Block)
    requires WellFormed(b)
    ensures b.Stored? ==> |b.pad| < 8
  {
  }

  lemma FirstBlock(all: seq<Block>, blocks: seq<Block>, tail: seq<bool>, rem: seq<bool>, pos: nat, n: nat, out: seq<Byte>,
                   target: seq<Byte>)
    requires blocks != [] && Following(all, blocks, tail, rem, pos, n, out, target)
    ensures var b, last := blocks[0], |blocks| == 1;
      && WellFormed(b) && BlockOk(b, |out|) && (b.Stored? ==> (pos + 3 + |b.pad|) % 8 == 0)
      && AllWellFormed(blocks[1..])
      && rem == ([last] + (ToBits(BlockType(b), 2) + BodyBits(b))) + (BlocksBits(blocks[1..], true) + tail)
      && Following(all, blocks[1..], tail, BlocksBits(blocks[1..], true) + tail, pos + 3 + |BodyBits(b)|, |BodyBits(b)|,
                   BlockOut(b, out), target)
  {
    hide BodyBits, WellFormed, BlockOk, BlockOut, Begun;
    NextBegun(all, blocks, n, out);
    var bits := BlockBits(blocks[0], |blocks| == 1);
    assert |bits| == 3 + |BodyBits(blocks[0])|;
    Associate(bits, BlocksBits(blocks[1..], true), tail);
  }

  lemma ThreeBits(rem: seq<bool>, bits: seq<bool>, body: seq<bool>, more: seq<bool>)
    requires rem == bits + more && |bits| == 3 + |body| && bits[3..] == body
    ensures rem[..3] == bits[..3] && rem[3..3 + |body|] == body && rem[3 + |body|..] == more
  {
  }
}
