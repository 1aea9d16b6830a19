/** tdefl_start_dynamic_block and tdefl_start_static_block: the codes of a block, and the header that describes them. */
module DynamicBlocks {
  import opened Bits
  import opened Canonical
  import opened TableBound
  import opened MergeTrace
  import opened Lz
  import opened Deflate
  import opened TokenBuffers
  import opened TokenItems
  import opened BitWriters
  import opened EncoderTables
  import opened BlockWriters
  import opened TokenCosts
  import Rle = CodeLengthRle

  // ---- lengths without their trailing zeros ----

  predicate ZeroFrom(lens: seq<nat>, n: nat) {
    forall i :: n <= i < |lens| ==> lens[i] == 0
  }

  /** As short as it may be: no shorter than least, and otherwise up to the last length that is not zero. */
  predicate Trimmed(lens: seq<nat>, n: nat, least: nat) {
    least <= n <= |lens| && ZeroFrom(lens, n) && (n == least || lens[n - 1] > 0)
  }

  lemma {:induction false} TrimCount(lens: seq<nat>, n: nat, l: nat)
    requires n <= |lens| && ZeroFrom(lens, n) && l > 0
    ensures Count(lens[..n], l) == Count(lens, l)
  {
    if n < |lens| {
      TrimCount(lens[..|lens| - 1], n, l);
      assert lens[..|lens| - 1][..n] == lens[..n];
    } else {
      assert lens[..n] == lens;
    }
  }

  lemma {:induction false} TrimNextCode(lens: seq<nat>, n: nat, l: nat)
    requires n <= |lens| && ZeroFrom(lens, n)
    ensures NextCode(lens[..n], l) == NextCode(lens, l)
  {
    if l > 1 {
      TrimNextCode(lens, n, l - 1);
      TrimCount(lens, n, l - 1);
    }
  }

  lemma {:induction false} TrimUsed(lens: seq<nat>, n: nat)
    requires n <= |lens| && ZeroFrom(lens, n)
    ensures Used(lens[..n]) == Used(lens)
  {
    if n < |lens| {
      TrimUsed(lens[..|lens| - 1], n);
      assert lens[..|lens| - 1][..n] == lens[..n];
    } else {
      assert lens[..n] == lens;
    }
  }

  lemma TrimDecodable(lens: seq<nat>, n: nat)
    requires n <= |lens| && ZeroFrom(lens, n) && Decodable(lens)
    ensures Decodable(lens[..n])
  {
    TrimNextCode(lens, n, 16);
    TrimUsed(lens, n);
  }

  /** The codes do not depend on the trailing zeros. */
  lemma TrimCodes(lens: seq<nat>, n: nat, s: nat)
    requires s < n <= |lens| && ZeroFrom(lens, n)
    ensures CodesOf(lens[..n])[s] == CodesOf(lens)[s]
  {
    hide MsbBits, NextCode, Count;
    if lens[s] > 0 {
      TrimNextCode(lens, n, lens[s]);
      assert lens[..n][..s] == lens[..s];
    }
  }

  lemma TrimHolds(t: EncTable, m: nat, n: nat)
    requires n <= m <= 288 && t.codes.Length == t.codeSizes.Length == 288 && TableHolds(t, CodesOf(t.codeSizes[..m]))
    requires ZeroFrom(t.codeSizes[..m], n)
    ensures TableHolds(t, CodesOf(t.codeSizes[..n]))
  {
    var lens := t.codeSizes[..m];
    var codes, trimmed := CodesOf(lens), CodesOf(t.codeSizes[..n]);
    assert lens[..n] == t.codeSizes[..n];
    forall s | 0 <= s < |trimmed| ensures trimmed[s] == codes[s] {
      TrimCodes(lens, n, s);
    }
  }

  // ---- the code lengths of the code length symbols ----

  /** The lengths that are sent, in their order. */
  function ClensOf(sizes: seq<nat>, n: nat): (clens: seq<nat>)
    requires |sizes| == 19 && n <= 19
    ensures |clens| == n
  {
    seq(n, i requires 0 <= i < n => (assert ZIGZAG[i] < 19 by { ZigzagInverse(i); } sizes[ZIGZAG[i]]))
  }

  /** How many of them are sent: up to the last one that is not zero, but at least four. */
  predicate ClensEnd(sizes: seq<nat>, n: nat) {
    && |sizes| == 19 && 4 <= n <= 19 && (forall i :: n <= i < 19 ==> ZIGZAG[i] < 19 && sizes[ZIGZAG[i]] == 0)
    && (n == 4 || (ZIGZAG[n - 1] < 19 && sizes[ZIGZAG[n - 1]] > 0))
  }

  lemma ClensRight(sizes: seq<nat>, n: nat)
    requires ClensEnd(sizes, n) && forall s :: 0 <= s < 19 ==> sizes[s] <= 7
    ensures 4 <= n <= 19 && ClenTable(ClensOf(sizes, n)) == sizes && Trimmed(ClensOf(sizes, n), n, 4)
    ensures forall i :: 0 <= i < n ==> ClensOf(sizes, n)[i] < 8
  {
    ClensSmall(sizes, n);
    ClensComplete(sizes, n);
  }

  lemma ClensSmall(sizes: seq<nat>, n: nat)
    requires |sizes| == 19 && n <= 19 && forall s :: 0 <= s < 19 ==> sizes[s] <= 7
    ensures forall i :: 0 <= i < n ==> ClensOf(sizes, n)[i] < 8
  {
    forall i | 0 <= i < n ensures ClensOf(sizes, n)[i] < 8 {
      ZigzagInverse(i);
    }
  }

  /** Those that are not sent are zero. */
  lemma ClensComplete(sizes: seq<nat>, n: nat)
    requires |sizes| == 19 && n <= 19 && forall i :: n <= i < 19 ==> sizes[ZIGZAG[i]] == 0
    ensures ClenTable(ClensOf(sizes, n)) == sizes
  {
    var clens := ClensOf(sizes, n);
    var table := ClenTable(clens);
    forall s | 0 <= s < 19 ensures table[s] == sizes[s] {
      ZagInverse(s);
    }
  }

  // ---- the packed lengths ----

  lemma {:induction false} PackedPrefix(items: seq<Rle.RleItem>, j: nat)
    requires j <= |items|
    ensures Rle.Packed(items[..j]) <= Rle.Packed(items)
  {
    if j < |items| {
      PackedPrefix(items[..|items| - 1], j);
      assert items[..|items| - 1][..j] == items[..j];
    } else {
      assert items[..j] == items;
    }
  }

  /** Where the next packed item is found. */
  lemma PackedAt(items: seq<Rle.RleItem>, j: nat)
    requires j < |items|
    ensures var at, packed, item := |Rle.Packed(items[..j])|, Rle.Packed(items), items[j];
      && at < |packed| && packed[at] == item.sym
      && (item.sym >= 16 ==> at + 1 < |packed| && packed[at + 1] == item.extra)
      && |Rle.Packed(items[..j + 1])| == at + (if item.sym >= 16 then 2 else 1)
  {
    PackedPrefix(items, j + 1);
    assert items[..j + 1][..j] == items[..j];
  }

  lemma {:induction false} SymCountBound(items: seq<Rle.RleItem>, sym: nat)
    ensures Rle.SymCount(items, sym) <= |items|
  {
    if items != [] {
      SymCountBound(items[..|items| - 1], sym);
    }
  }

  lemma {:induction false} SumBound(s: seq<nat>, m: nat)
    requires forall i :: 0 <= i < |s| ==> s[i] <= m
    ensures Sum(s) <= |s| * m
  {
    if s != [] {
      SumBound(s[..|s| - 1], m);
    }
  }

  // ---- the codes chosen for a block ----

  /** The token's symbols have codes. */
  predicate TokenSized(t: Token, ls: seq<nat>, ds: seq<nat>) {
    && Recordable(t) && LitSymOf(t) < |ls| && ls[LitSymOf(t)] > 0
    && (t.Match? ==> DistSymOf(t) < |ds| && ds[DistSymOf(t)] > 0)
  }

  ghost predicate Chosen(ts: seq<Token>, ls: seq<nat>, ds: seq<nat>) {
    && |ls| == 288 && |ds| == 32 && Decodable(ls) && Decodable(ds)
    && (forall s :: 0 <= s < 288 ==> ls[s] <= 15) && (forall s :: 0 <= s < 32 ==> ds[s] <= 15)
    && ls[256] > 0 && ls[286] == ls[287] == 0 && ds[30] == ds[31] == 0
    && forall i :: 0 <= i < |ts| ==> TokenSized(ts[i], ls, ds)
  }

  lemma BelowPow2()
    ensures 288 <= Pow2(15)
  {
    Pow2Values();
  }

  lemma ChosenSizes(ts: seq<Token>, lit: seq<nat>, dist: seq<nat>, ls: seq<nat>, ds: seq<nat>)
    requires TokenCounts(ts, lit, dist) && SizesFor(lit[256 := 1], ls, 15) && SizesFor(dist[..32], ds, 15)
    requires Decodable(ls) && Decodable(ds)
    requires Used(lit[256 := 1]) >= 2 ==> NearlyBest(lit[256 := 1], ls)
    requires Used(dist[..32]) >= 2 ==> NearlyBest(dist[..32], ds)
    ensures Chosen(ts, ls, ds) && TablesChosen(ts, ls, ds)
  {
    hide Decodable, Sum, Used, EndCode, LitSymOf, DistSymOf, NearlyBest, LitCounts, DistCounts;
    forall i | 0 <= i < |ts| ensures TokenSized(ts[i], ls, ds) {
      assert Counted(ts[i], lit, dist);
      SymbolRange(ts[i]);
    }
  }

  /** The code length symbols in use have codes of at most seven bits. */
  ghost predicate ClenChosen(items: seq<Rle.RleItem>, cs: seq<nat>) {
    && |cs| == 19 && Decodable(cs) && (forall s :: 0 <= s < 19 ==> cs[s] <= 7)
    && (forall i :: 0 <= i < |items| ==> items[i].sym < 19 && cs[items[i].sym] > 0)
    && SizesFor(Rle.SymCounts(items), cs, 7)
  }

  lemma CountsSmall(items: seq<Rle.RleItem>, counts: seq<nat>)
    requires |counts| == 19 && forall s :: 0 <= s < 19 ==> counts[s] == Rle.SymCount(items, s)
    requires |Rle.Expand(items)| <= 320
    ensures Sum(counts) < 65536
  {
    assert items[..|items|] == items;
    Rle.ExpandPrefix(items, |items|);
    forall s | 0 <= s < 19 ensures counts[s] <= 320 {
      SymCountBound(items, s);
    }
    SumBound(counts, 320);
  }

  lemma ClenSizes(items: seq<Rle.RleItem>, counts: seq<nat>, cs: seq<nat>)
    requires |counts| == 19 && forall s :: 0 <= s < 19 ==> counts[s] == Rle.SymCount(items, s)
    requires SizesFor(counts, cs, 7) && Decodable(cs) && Rle.ItemsOk(items)
    ensures ClenChosen(items, cs)
  {
    hide Decodable, Used, EndCode;
    assert counts == Rle.SymCounts(items);
    forall i | 0 <= i < |items| ensures items[i].sym < 19 && cs[items[i].sym] > 0 {
      assert Rle.ItemOk(items[i]);
      Rle.CountedIffUsed(items, i);
    }
  }

  lemma FirstClen(sent: seq<bool>, clens: seq<nat>, i: nat)
    requires i < |clens|
    ensures sent + ClensBits(clens[i..]) == (sent + ToBits(clens[i], 3)) + ClensBits(clens[i + 1..])
  {
    assert clens[i..][0] == clens[i] && clens[i..][1..] == clens[i + 1..];
    Associate(sent, ToBits(clens[i], 3), ClensBits(clens[i + 1..]));
  }

  lemma PackedNext(items: seq<Rle.RleItem>, j: nat)
    requires j < |items|
    ensures |Rle.Packed(items[..j + 1])| <= |Rle.Packed(items)|
  {
    PackedPrefix(items, j + 1);
  }

  lemma NoBitsMore(s: seq<bool>)
    ensures s + [] == s
  {
  }

  lemma FixedLengths()
    ensures |FixedLitLens()| == 288 && |FixedDistLens()| == 32
    ensures FixedCodes() == Codes(CodesOf(FixedLitLens()), CodesOf(FixedDistLens()))
  {
  }

  lemma NothingPacked()
    ensures Rle.Packed([]) == []
  {
  }

  /** There is something left to read exactly if there are items left. */
  lemma AllPacked(items: seq<Rle.RleItem>, j: nat)
    requires j <= |items|
    ensures j < |items| <==> |Rle.Packed(items[..j])| < |Rle.Packed(items)|
  {
    if j < |items| {
      PackedAt(items, j);
    } else {
      assert items[..j] == items;
    }
  }

  lemma FirstRle(sent: seq<bool>, codes: seq<seq<bool>>, items: seq<Rle.RleItem>, j: nat)
    requires j < |items| && Rle.ItemsOk(items)
    ensures var item := items[j];
      && item.sym < 19
      && item.extra < Pow2(if item.sym == 16 then 2 else if item.sym == 17 then 3 else if item.sym == 18 then 7 else 0)
      && (item.sym < 16 ==> ToBits(item.extra, Rle.ExtraBits(item.sym)) == [])
      && sent + RleBits(codes, items[j..])
         == ((sent + CodeOf(codes, item.sym)) + ToBits(item.extra, Rle.ExtraBits(item.sym))) + RleBits(codes, items[j + 1..])
  {
    hide CodeOf;
    var item := items[j];
    assert items[j..][0] == item && items[j..][1..] == items[j + 1..];
    ThreeParts(sent, CodeOf(codes, item.sym), ToBits(item.extra, Rle.ExtraBits(item.sym)), RleBits(codes, items[j + 1..]));
  }

  lemma ThreeParts(s: seq<bool>, a: seq<bool>, b: seq<bool>, c: seq<bool>)
    ensures s + (a + (b + c)) == ((s + a) + b) + c
  {
  }

  lemma FieldSizes()
    ensures Pow2(2) == 4 && Pow2(4) == 16 && Pow2(5) == 32
  {
  }

  lemma ChosenShort(ts: seq<Token>, ls: seq<nat>, ds: seq<nat>)
    requires Chosen(ts, ls, ds)
    ensures (forall s :: 0 <= s < |ls| ==> ls[s] <= 15) && forall s :: 0 <= s < |ds| ==> ds[s] <= 15
  {
    hide Decodable, TokenSized;
  }

  lemma ClenFacts(items: seq<Rle.RleItem>, cs: seq<nat>)
    requires ClenChosen(items, cs)
    ensures |cs| == 19 && forall s :: 0 <= s < 19 ==> cs[s] <= 7
    ensures forall i :: 0 <= i < |items| ==> Coded(CodesOf(cs), items[i].sym)
  {
    hide Decodable;
  }

  /** The type of the block, HLIT, HDIST and HCLEN, behind what has been sent. */
  function WithSizes(sent: seq<bool>, numLit: nat, numDist: nat, n: nat): seq<bool>
    requires numLit >= 257 && numDist >= 1 && n >= 4
  {
    sent + ToBits(2, 2) + ToBits(numLit - 257, 5) + ToBits(numDist - 1, 5) + ToBits(n - 4, 4)
  }

  lemma HeaderSent(h: Header, sent: seq<bool>)
    requires h.nLit >= 257 && h.nDist >= 1 && |h.clens| >= 4
    ensures WithSizes(sent, h.nLit, h.nDist, |h.clens|) + ClensBits(h.clens) + RleBits(ClenCodes(h), h.rle)
         == sent + (ToBits(2, 2) + HeaderBits(h))
  {
    hide ToBits, ClensBits, RleBits;
    assert SizesBits(h, 0) == ToBits(h.nLit - 257, 5) + (ToBits(h.nDist - 1, 5) + ToBits(|h.clens| - 4, 4));
    SixParts(sent, ToBits(2, 2), ToBits(h.nLit - 257, 5), ToBits(h.nDist - 1, 5), ToBits(|h.clens| - 4, 4), ClensBits(h.clens),
             RleBits(ClenCodes(h), h.rle));
  }

  /** What has been written, in the order in which it has been, is the header. */
  lemma HeaderWritten(h: Header, cs: seq<nat>, s0: seq<bool>, s1: seq<bool>, s2: seq<bool>, s3: seq<bool>)
    requires h.nLit >= 257 && h.nDist >= 1 && |h.clens| >= 4 && ClenTable(h.clens) == cs
    requires s1 == WithSizes(s0, h.nLit, h.nDist, |h.clens|)
    requires s2 == s1 + ClensBits(h.clens) && s3 == s2 + RleBits(CodesOf(cs), h.rle)
    ensures s3 == s0 + (ToBits(2, 2) + HeaderBits(h))
  {
    hide ToBits, ClensBits, RleBits, HeaderBits, CodesOf, ClenTable, WithSizes;
    HeaderSent(h, s0);
  }

  lemma SixParts(s: seq<bool>, a: seq<bool>, b: seq<bool>, c: seq<bool>, d: seq<bool>, e: seq<bool>, f: seq<bool>)
    ensures s + a + b + c + d + e + f == s + (a + ((b + (c + d)) + (e + f)))
  {
  }

  /** The header describes exactly the codes that have been chosen. */
  lemma HeaderMade(ts: seq<Token>, ls: seq<nat>, ds: seq<nat>, numLit: nat, numDist: nat, h: Header, cs: seq<nat>)
    requires Chosen(ts, ls, ds) && Trimmed(ls, numLit, 257) && Trimmed(ds, numDist, 1) && 257 <= numLit <= 286 && 1 <= numDist <= 30
    requires h == Header(numLit, numDist, h.clens, h.rle) && 4 <= |h.clens| <= 19 && ClenTable(h.clens) == cs
    requires ClenChosen(h.rle, cs) && Rle.ItemsOk(h.rle) && Rle.Expand(h.rle) == ls[..numLit] + ds[..numDist]
    requires forall i :: 0 <= i < |h.clens| ==> h.clens[i] < 8
    ensures HeaderOk(h) && DynamicCodes(h) == Codes(CodesOf(ls[..numLit]), CodesOf(ds[..numDist]))
    ensures AllRecordable(ts) && AllCoded(DynamicCodes(h), ts) && Coded(DynamicCodes(h).lit, 256)
  {
    hide Decodable, Rle.Expand, ClenTable, Rle.ItemsOk, LitSymOf, DistSymOf, Recordable, CodesOf;
    LensOfHeader(h, ls[..numLit], ds[..numDist]);
    TrimDecodable(ls, numLit);
    TrimDecodable(ds, numDist);
    ClenFacts(h.rle, cs);
    var c := DynamicCodes(h);
    forall i | 0 <= i < |ts| ensures Recordable(ts[i]) && TokenCoded(c, ts[i]) {
      assert TokenSized(ts[i], ls, ds);
      HasCodeOf(ls, numLit, LitSymOf(ts[i]));
      if ts[i].Match? {
        HasCodeOf(ds, numDist, DistSymOf(ts[i]));
      }
    }
    HasCodeOf(ls, numLit, 256);
  }

  lemma TrimmedSizesOf(lens: seq<nat>, n: nat)
    requires n <= |lens| && ZeroFrom(lens, n)
    ensures SizesOf(CodesOf(lens[..n]), lens)
  {
    hide MsbBits, NextCode, Count;
  }

  /** The block is not too long for the output buffer. */
  lemma ChosenFits(ts: seq<Token>, ls: seq<nat>, ds: seq<nat>, numLit: nat, numDist: nat, c: Codes)
    requires AllRecordable(ts) && TablesChosen(ts, ls, ds) && numLit <= |ls| && numDist <= |ds|
    requires ZeroFrom(ls, numLit) && ZeroFrom(ds, numDist) && c == Codes(CodesOf(ls[..numLit]), CodesOf(ds[..numDist]))
    ensures |Pack(ts)| <= LZ_CODE_BUF_SIZE ==> |ItemsBits(c, Items(ts))| <= 674520
    ensures |ItemsBits(c, Items(ts))| <= 12 * TokensLen(ts) + 20
  {
    hide TablesChosen, Pack, ItemsBits, Items, CodesOf, SizesOf, TokensLen;
    TrimmedSizesOf(ls, numLit);
    TrimmedSizesOf(ds, numDist);
    DynamicSize(c, ts, ls, ds);
    if |Pack(ts)| <= LZ_CODE_BUF_SIZE {
      DynamicFits(c, ts, ls, ds);
    }
  }

  /**
    The header describes code lengths that are nearly the best ones for the tokens, no more of them than it has to, run by run;
    and has codes for the symbols of that form.
   */
  ghost predicate CodesChosen(ts: seq<Token>, h: Header) {
    && (exists ls, ds :: HeaderFor(ts, h, ls, ds))
    && ClenChosen(h.rle, ClenTable(h.clens)) && Trimmed(h.clens, |h.clens|, 4)
  }

  ghost predicate HeaderFor(ts: seq<Token>, h: Header, ls: seq<nat>, ds: seq<nat>) {
    && TablesChosen(ts, ls, ds) && Trimmed(ls, h.nLit, 257) && Trimmed(ds, h.nDist, 1)
    && Rle.Expand(h.rle) == ls[..h.nLit] + ds[..h.nDist] && h.rle == Rle.Form(ls[..h.nLit] + ds[..h.nDist])
  }

  lemma HeaderChosen(ts: seq<Token>, ls: seq<nat>, ds: seq<nat>, numLit: nat, numDist: nat, h: Header)
    requires TablesChosen(ts, ls, ds) && Trimmed(ls, numLit, 257) && Trimmed(ds, numDist, 1)
    requires h.nLit == numLit && h.nDist == numDist && Rle.Expand(h.rle) == ls[..numLit] + ds[..numDist]
    requires h.rle == Rle.Form(ls[..numLit] + ds[..numDist])
    requires ClenChosen(h.rle, ClenTable(h.clens)) && Trimmed(h.clens, |h.clens|, 4)
    ensures CodesChosen(ts, h)
  {
    hide TablesChosen, Rle.Expand, Rle.Form, Trimmed, ClenChosen;
    assert HeaderFor(ts, h, ls, ds);
  }

  /** All of this is so when the tables have been chosen and the header describes them. */
  lemma DynamicMade(ts: seq<Token>, ls: seq<nat>, ds: seq<nat>, numLit: nat, numDist: nat, h: Header, cs: seq<nat>)
    requires Chosen(ts, ls, ds) && TablesChosen(ts, ls, ds) && Trimmed(ls, numLit, 257) && Trimmed(ds, numDist, 1)
    requires numLit <= 286 && numDist <= 30 && h == Header(numLit, numDist, h.clens, h.rle) && 4 <= |h.clens| <= 19
    requires ClenTable(h.clens) == cs && ClenChosen(h.rle, cs) && Trimmed(h.clens, |h.clens|, 4) && Rle.ItemsOk(h.rle)
    requires Rle.Expand(h.rle) == ls[..numLit] + ds[..numDist] && h.rle == Rle.Form(ls[..numLit] + ds[..numDist])
    requires forall i :: 0 <= i < |h.clens| ==> h.clens[i] < 8
    ensures HeaderOk(h) && DynamicCodes(h) == Codes(CodesOf(ls[..numLit]), CodesOf(ds[..numDist])) && CodesChosen(ts, h)
    ensures AllRecordable(ts) && AllCoded(DynamicCodes(h), ts) && Coded(DynamicCodes(h).lit, 256)
    ensures |Pack(ts)| <= LZ_CODE_BUF_SIZE ==> |ItemsBits(DynamicCodes(h), Items(ts))| <= 674520
    ensures |ItemsBits(DynamicCodes(h), Items(ts))| <= 12 * TokensLen(ts) + 20
  {
    hide Chosen, TablesChosen, ClenChosen, ClenTable, Rle.ItemsOk, Rle.Expand, Rle.Form, HeaderOk, DynamicCodes, CodesOf;
    hide CodesChosen, AllCoded, Coded, Pack, ItemsBits, Items, TokensLen;
    HeaderMade(ts, ls, ds, numLit, numDist, h, cs);
    ChosenFits(ts, ls, ds, numLit, numDist, DynamicCodes(h));
    HeaderChosen(ts, ls, ds, numLit, numDist, h);
  }

  lemma LensOfHeader(h: Header, a: seq<nat>, b: seq<nat>)
    requires Rle.Expand(h.rle) == a + b && |a| == h.nLit && |b| == h.nDist
    ensures LitLens(h) == a && DistLens(h) == b
  {
  }

  lemma HasCodeOf(lens: seq<nat>, n: nat, s: nat)
    requires n <= |lens| && ZeroFrom(lens, n) && s < |lens| && lens[s] > 0
    ensures Coded(CodesOf(lens[..n]), s)
  {
  }

  /** A table gets the codes for its counts. */
  method OptimizeTable(t: EncTable, n: nat)
    requires t.Valid() && n <= 288 && Sum(t.count[..n]) < 65536
    modifies t.codes, t.codeSizes
    ensures SizesFor(t.count[..n], t.codeSizes[..n], 15) && Decodable(t.codeSizes[..n])
    ensures Used(t.count[..n]) >= 2 ==> NearlyBest(t.count[..n], t.codeSizes[..n])
    ensures TableHolds(t, CodesOf(t.codeSizes[..n]))
  {
    hide Sum, CodesFor, Decodable, NearlyBest, Used, CodesOf, TableHolds, EndCode;
    BelowPow2();
    t.Optimize(n, 15, false);
    FromSizes(t, n);
  }

  // ---- the tables of a compressor ----

  class BlockMaker {
    const writer: BlockWriter
    const clen: EncTable

    constructor (writer: BlockWriter, clen: EncTable)
      ensures this.writer == writer && this.clen == clen
    {
      this.writer, this.clen := writer, clen;
    }

    ghost predicate Shape() {
      && writer.Separate() && writer.lit.Valid() && writer.dist.Valid() && clen.Valid()
      && writer.tokens.litCount == writer.lit.count && writer.tokens.distCount == writer.dist.count
      && writer.lit.count != writer.dist.count && writer.lit.count != clen.count && writer.dist.count != clen.count
      && writer.lit.count != writer.dist.codes && writer.lit.count != writer.dist.codeSizes
      && writer.lit.count != clen.codes && writer.lit.count != clen.codeSizes
      && writer.dist.count != writer.lit.codes && writer.dist.count != writer.lit.codeSizes
      && writer.dist.count != clen.codes && writer.dist.count != clen.codeSizes
      && clen.count != writer.lit.codes && clen.count != writer.lit.codeSizes && clen.count != writer.dist.codes
      && clen.count != writer.dist.codeSizes
      && writer.lit.codes != writer.dist.codes && writer.lit.codes != writer.dist.codeSizes
      && writer.lit.codes != clen.codes && writer.lit.codes != clen.codeSizes
      && writer.lit.codeSizes != writer.dist.codes && writer.lit.codeSizes != writer.dist.codeSizes
      && writer.lit.codeSizes != clen.codes && writer.lit.codeSizes != clen.codeSizes
      && writer.dist.codes != clen.codes && writer.dist.codes != clen.codeSizes && writer.dist.codeSizes != clen.codes
      && writer.dist.codeSizes != clen.codeSizes
    }

    ghost function TableArrays(): set<object> {
      {writer.lit.codes, writer.lit.codeSizes, writer.dist.codes, writer.dist.codeSizes, clen.codes, clen.codeSizes, clen.count,
       writer.lit.count}
    }

    // ---- blocks with the fixed codes ----

    method StartStatic()
      requires Shape() && writer.out.Valid()
      modifies writer.lit.codes, writer.lit.codeSizes, writer.dist.codes, writer.dist.codeSizes
      modifies writer.out`pos, writer.out`bitBuffer, writer.out`bitsIn, writer.out`sent, writer.out`pushed, writer.out.buf
      ensures TableHolds(writer.lit, FixedCodes().lit) && TableHolds(writer.dist, FixedCodes().dist)
      ensures writer.out.Valid() && writer.out.Kept() && writer.out.sent == old(writer.out.sent) + ToBits(1, 2)
    {
      hide BitWriter.Valid, CodesFor, CodesOf, FixedLitLens, FixedDistLens, ToBits, TableHolds;
      FixedLengths();
      FixedSizes();
      SizesShort();
      writer.lit.Optimize(288, 15, true);
      writer.dist.Optimize(32, 15, true);
      FromSizes(writer.lit, 288);
      FromSizes(writer.dist, 32);
      Pow2Values();
      writer.out.PutBits(1, 2);
    }

    lemma SizesShort()
      requires Shape() && writer.lit.codeSizes[..288] == FixedLitLens() && writer.dist.codeSizes[..32] == FixedDistLens()
      ensures forall i :: 0 <= i < 288 ==> writer.lit.codeSizes[i] <= 15
      ensures forall i :: 0 <= i < 32 ==> writer.dist.codeSizes[i] <= 15
    {
      forall i | 0 <= i < 288 ensures writer.lit.codeSizes[i] <= 15 {
        assert writer.lit.codeSizes[..288][i] == FixedLitLens()[i];
      }
      forall i | 0 <= i < 32 ensures writer.dist.codeSizes[i] <= 15 {
        assert writer.dist.codeSizes[..32][i] == FixedDistLens()[i];
      }
    }

    method FixedSizes()
      requires Shape()
      modifies writer.lit.codeSizes, writer.dist.codeSizes
      ensures writer.lit.codeSizes[..288] == FixedLitLens() && writer.dist.codeSizes[..32] == FixedDistLens()
    {
      for i := 0 to 288
        invariant forall j :: 0 <= j < i ==> writer.lit.codeSizes[j] == FixedLitLens()[j]
      {
        writer.lit.codeSizes[i] := if i <= 143 then 8 else if i <= 255 then 9 else if i <= 279 then 7 else 8;
      }
      for i := 0 to 32
        invariant forall j :: 0 <= j < 288 ==> writer.lit.codeSizes[j] == FixedLitLens()[j]
        invariant forall j :: 0 <= j < i ==> writer.dist.codeSizes[j] == 5
      {
        writer.dist.codeSizes[i] := 5;
      }
    }

    // ---- blocks with their own codes ----

    /** Codes for the symbols that occur. */
    method ChooseCodes(ghost ts: seq<Token>)
      requires Shape() && |ts| < 65535 && TokenCounts(ts, writer.lit.count[..], writer.dist.count[..])
      modifies writer.lit.count, writer.lit.codes, writer.lit.codeSizes, writer.dist.codes, writer.dist.codeSizes
      ensures Chosen(ts, writer.lit.codeSizes[..288], writer.dist.codeSizes[..32])
      ensures TablesChosen(ts, writer.lit.codeSizes[..288], writer.dist.codeSizes[..32])
      ensures TableHolds(writer.lit, CodesOf(writer.lit.codeSizes[..288]))
      ensures TableHolds(writer.dist, CodesOf(writer.dist.codeSizes[..32]))
    {
      hide Sum, Counted, CodesFor, SizesFor, Decodable, NearlyBest, LitCounts, DistCounts, Used, CodesOf, TableHolds, TokenCounts;
      hide Chosen, TablesChosen;
      ghost var lit, dist := writer.lit.count[..], writer.dist.count[..];
      CountEnd(ts);
      OptimizeTable(writer.lit, 288);
      OptimizeTable(writer.dist, 32);
      ChosenSizes(ts, lit, dist, writer.lit.codeSizes[..288], writer.dist.codeSizes[..32]);
    }

    /** The end of the block is a symbol too. */
    method CountEnd(ghost ts: seq<Token>)
      requires Shape() && |ts| < 65535 && TokenCounts(ts, writer.lit.count[..], writer.dist.count[..])
      modifies writer.lit.count
      ensures writer.lit.count[..288] == old(writer.lit.count[..])[256 := 1]
      ensures writer.dist.count[..32] == old(writer.dist.count[..])[..32]
      ensures Sum(writer.lit.count[..288]) < 65536 && Sum(writer.dist.count[..32]) < 65536
    {
      hide Sum, Counted;
      ghost var lit, dist := writer.lit.count[..], writer.dist.count[..];
      writer.lit.count[256] := 1;
      assert writer.lit.count[..288] == lit[256 := 1];
      assert writer.dist.count[..32] == dist[..32];
      SumUpdate(lit, 256, 1);
      SumPrefix(dist, 32);
    }

    /** Trailing zeros are not described; at least 257 and 1 lengths are. */
    method TrimSizes(ghost ts: seq<Token>) returns (numLit: nat, numDist: nat)
      requires Shape() && Chosen(ts, writer.lit.codeSizes[..288], writer.dist.codeSizes[..32])
      ensures 257 <= numLit <= 286 && 1 <= numDist <= 30
      ensures Trimmed(writer.lit.codeSizes[..288], numLit, 257) && Trimmed(writer.dist.codeSizes[..32], numDist, 1)
    {
      hide Decodable, TokenSized;
      ghost var ls, ds := writer.lit.codeSizes[..288], writer.dist.codeSizes[..32];
      numLit := 286;
      while numLit > 257 && writer.lit.codeSizes[numLit - 1] == 0
        invariant 257 <= numLit <= 286 && ZeroFrom(ls, numLit)
      {
        assert ls[numLit - 1] == 0;
        numLit := numLit - 1;
      }
      numDist := 30;
      while numDist > 1 && writer.dist.codeSizes[numDist - 1] == 0
        invariant 1 <= numDist <= 30 && ZeroFrom(ds, numDist)
      {
        assert ds[numDist - 1] == 0;
        numDist := numDist - 1;
      }
    }

    /** The lengths of both tables, packed, and the counts of the symbols of the packed form. */
    method PackSizes(numLit: nat, numDist: nat) returns (packer: Rle.Packer)
      requires Shape() && 257 <= numLit <= 286 && 1 <= numDist <= 30
      requires forall s :: 0 <= s < 288 ==> writer.lit.codeSizes[s] <= 15
      requires forall s :: 0 <= s < 32 ==> writer.dist.codeSizes[s] <= 15
      modifies clen.count
      ensures fresh(packer) && packer.Valid() && packer.huffCount == clen.count && fresh(packer.packed)
      ensures Rle.ItemsOk(packer.items)
      ensures Rle.Expand(packer.items) == writer.lit.codeSizes[..numLit] + writer.dist.codeSizes[..numDist]
      ensures packer.items == Rle.Form(writer.lit.codeSizes[..numLit] + writer.dist.codeSizes[..numDist])
    {
      hide Rle.Expand, Rle.Packed, Rle.SymCount, Rle.Form;
      var lens := CopySizes(numLit, numDist);
      ghost var all := lens[..numLit + numDist];
      for s := 0 to 288
        invariant lens[..numLit + numDist] == all && (forall j :: 0 <= j < s ==> clen.count[j] == 0)
      {
        clen.count[s] := 0;
      }
      packer := new Rle.Packer(clen.count);
      forall i | 0 <= i < numLit + numDist ensures lens[i] <= 15 {
        assert lens[i] == all[i];
      }
      packer.Pack(lens, numLit + numDist);
    }

    method CopySizes(numLit: nat, numDist: nat) returns (lens: array<nat>)
      requires Shape() && 257 <= numLit <= 286 && 1 <= numDist <= 30
      ensures fresh(lens) && lens.Length == 320
      ensures lens[..numLit + numDist] == writer.lit.codeSizes[..numLit] + writer.dist.codeSizes[..numDist]
    {
      lens := new nat[320];
      for i := 0 to numLit
        invariant forall j :: 0 <= j < i ==> lens[j] == writer.lit.codeSizes[j]
      {
        lens[i] := writer.lit.codeSizes[i];
      }
      for i := 0 to numDist
        invariant forall j :: 0 <= j < numLit ==> lens[j] == writer.lit.codeSizes[j]
        invariant forall j :: 0 <= j < i ==> lens[numLit + j] == writer.dist.codeSizes[j]
      {
        lens[numLit + i] := writer.dist.codeSizes[i];
      }
    }

    method ChooseClenCodes(packer: Rle.Packer)
      requires Shape() && packer.Valid() && packer.huffCount == clen.count && Rle.ItemsOk(packer.items)
      requires |Rle.Expand(packer.items)| <= 320
      modifies clen.codes, clen.codeSizes
      ensures ClenChosen(packer.items, clen.codeSizes[..19]) && TableHolds(clen, CodesOf(clen.codeSizes[..19]))
    {
      hide Sum, CodesFor, SizesFor, Decodable, Rle.SymCount, Rle.Expand, Rle.Packed;
      CountsSmall(packer.items, clen.count[..19]);
      assert 19 <= Pow2(7) by {
        Pow2Values();
      }
      clen.Optimize(19, 7, false);
      ClenSizes(packer.items, clen.count[..19], clen.codeSizes[..19]);
      FromSizes(clen, 19);
    }

    /** How many code length codes are sent: the others, at the end of the order, are zero. */
    method CountClens() returns (n: nat)
      requires Shape()
      ensures ClensEnd(clen.codeSizes[..19], n) && 4 <= n <= 19
    {
      var i := 18;
      while i >= 0
        invariant -1 <= i <= 18 && forall j :: i < j < 19 ==> ZIGZAG[j] < 19 && clen.codeSizes[ZIGZAG[j]] == 0
      {
        ZigzagInverse(i);
        if clen.codeSizes[ZIGZAG[i]] != 0 {
          break;
        }
        i := i - 1;
      }
      n := if i + 1 < 4 then 4 else i + 1;
    }

    method PutClens(n: nat)
      requires Shape() && writer.out.Valid() && n <= 19 && forall s :: 0 <= s < 19 ==> clen.codeSizes[s] <= 7
      modifies writer.out`pos, writer.out`bitBuffer, writer.out`bitsIn, writer.out`sent, writer.out`pushed, writer.out.buf
      ensures writer.out.Valid() && writer.out.Kept()
      ensures writer.out.sent == old(writer.out.sent) + ClensBits(ClensOf(clen.codeSizes[..19], n))
    {
      hide BitWriter.Valid, ToBits;
      ghost var clens := ClensOf(clen.codeSizes[..19], n);
      ghost var all := writer.out.sent + ClensBits(clens);
      assert clens[0..] == clens && Pow2(3) == 8;
      for i := 0 to n
        invariant writer.out.Valid() && writer.out.Kept() && writer.out.sent + ClensBits(clens[i..]) == all
        invariant clens == ClensOf(clen.codeSizes[..19], n)
      {
        ZigzagInverse(i);
        FirstClen(writer.out.sent, clens, i);
        writer.out.PutBits(clen.codeSizes[ZIGZAG[i]], 3);
      }
      assert clens[n..] == [];
    }

    /** One packed item: its code and, if it is a repetition, its extra bits. */
    method PutRleItem(packer: Rle.Packer, ghost codes: seq<seq<bool>>, at: nat, ghost j: nat) returns (at': nat)
      requires Shape() && writer.out.Valid() && packer.Valid() && Rle.ItemsOk(packer.items) && TableHolds(clen, codes)
      requires j < |packer.items| && Coded(codes, packer.items[j].sym) && at == |Rle.Packed(packer.items[..j])|
      requires packer.packed as object != writer.out.buf && packer.huffCount as object != writer.out.buf
      modifies writer.out`pos, writer.out`bitBuffer, writer.out`bitsIn, writer.out`sent, writer.out`pushed, writer.out.buf
      ensures writer.out.Valid() && writer.out.Kept() && packer.Valid() && TableHolds(clen, codes)
      ensures at' == |Rle.Packed(packer.items[..j + 1])| <= packer.numPacked
      ensures writer.out.sent + RleBits(codes, packer.items[j + 1..]) == old(writer.out.sent) + RleBits(codes, packer.items[j..])
    {
      hide BitWriter.Valid, TableHolds, ToBits, Rle.Packed, Rle.SymCount, Coded, CodeOf, RleBits;
      ghost var items := packer.items;
      PackedAt(items, j);
      PackedNext(items, j);
      FirstRle(writer.out.sent, codes, items, j);
      var code, extra := PackedItem(packer, at, j);
      writer.PutSym(clen, code, codes);
      at' := at + 1;
      if code >= 16 {
        writer.out.PutBits(extra, if code == 16 then 2 else if code == 17 then 3 else 7);
        at' := at' + 1;
      } else {
        NoBitsMore(writer.out.sent);
      }
    }

    /** The two bytes of a packed item, or the one byte of a length. */
    method PackedItem(packer: Rle.Packer, at: nat, ghost j: nat) returns (code: nat, extra: nat)
      requires packer.Valid() && j < |packer.items| && at == |Rle.Packed(packer.items[..j])|
      ensures code == packer.items[j].sym && (code >= 16 ==> extra == packer.items[j].extra)
    {
      hide Rle.Packed, Rle.SymCount;
      PackedAt(packer.items, j);
      ghost var packed := packer.packed[..packer.numPacked];
      assert packed == Rle.Packed(packer.items);
      assert packer.packed[at] == packed[at];
      code, extra := packer.packed[at], 0;
      if code >= 16 {
        assert packer.packed[at + 1] == packed[at + 1];
        extra := packer.packed[at + 1];
      }
    }

    /** The packed lengths, with their extra bits. */
    method PutRle(packer: Rle.Packer, ghost codes: seq<seq<bool>>)
      requires Shape() && writer.out.Valid() && packer.Valid() && Rle.ItemsOk(packer.items) && TableHolds(clen, codes)
      requires forall i :: 0 <= i < |packer.items| ==> Coded(codes, packer.items[i].sym)
      requires packer.packed as object != writer.out.buf && packer.huffCount as object != writer.out.buf
      modifies writer.out`pos, writer.out`bitBuffer, writer.out`bitsIn, writer.out`sent, writer.out`pushed, writer.out.buf
      ensures writer.out.Valid() && writer.out.Kept()
      ensures writer.out.sent == old(writer.out.sent) + RleBits(codes, packer.items)
    {
      hide BitWriter.Valid, TableHolds, ToBits, Rle.Packed, Rle.SymCount, Coded, CodeOf;
      ghost var items := packer.items;
      ghost var all := writer.out.sent + RleBits(codes, items);
      assert items[0..] == items && items[..0] == [];
      var at := 0;
      ghost var j := 0;
      NothingPacked();
      while at < packer.numPacked
        invariant j <= |items| && at == |Rle.Packed(items[..j])| <= packer.numPacked && packer.Valid() && items == packer.items
        invariant writer.out.Valid() && writer.out.Kept() && writer.out.sent + RleBits(codes, items[j..]) == all
        invariant TableHolds(clen, codes)
        decreases |items| - j
      {
        AllPacked(items, j);
        at := PutRleItem(packer, codes, at, j);
        j := j + 1;
      }
      AllPacked(items, j);
      assert items[|items|..] == [];
    }

    /** tdefl_start_dynamic_block */
    method StartDynamic(ghost ts: seq<Token>) returns (ghost h: Header)
      requires Shape() && writer.out.Valid() && |ts| < 65535
      requires TokenCounts(ts, writer.lit.count[..], writer.dist.count[..])
      modifies TableArrays()
      modifies writer.out`pos, writer.out`bitBuffer, writer.out`bitsIn, writer.out`sent, writer.out`pushed, writer.out.buf
      ensures writer.out.Valid() && writer.out.Kept() && HeaderOk(h) && Coded(DynamicCodes(h).lit, 256)
      ensures writer.out.sent == old(writer.out.sent) + (ToBits(2, 2) + HeaderBits(h))
      ensures AllRecordable(ts) && AllCoded(DynamicCodes(h), ts)
      ensures TableHolds(writer.lit, DynamicCodes(h).lit) && TableHolds(writer.dist, DynamicCodes(h).dist)
      ensures |Pack(ts)| <= LZ_CODE_BUF_SIZE ==> |ItemsBits(DynamicCodes(h), Items(ts))| <= 674520
      ensures |ItemsBits(DynamicCodes(h), Items(ts))| <= 12 * TokensLen(ts) + 20 && CodesChosen(ts, h)
    {
      hide TokensLen, BitWriter.Valid, TokenCounts, Chosen, ClenChosen, Rle.Expand, Rle.Packed, Rle.SymCount, HeaderBits;
      hide HeaderOk;
      hide DynamicCodes, AllCoded, TokenSized, Decodable, TablesChosen, Pack, ItemsBits, Items, Rle.Form, CodesChosen, ClenTable;
      hide CodesOf, TableHolds, Trimmed, Coded, Rle.ItemsOk;
      ChooseCodes(ts);
      var numLit, numDist := TrimSizes(ts);
      var packer := Describe(ts, numLit, numDist);
      h := PutHeader(numLit, numDist, packer);
      TrimmedTables(numLit, numDist);
      DynamicMade(ts, writer.lit.codeSizes[..288], writer.dist.codeSizes[..32], numLit, numDist, h, clen.codeSizes[..19]);
    }

    method Describe(ghost ts: seq<Token>, numLit: nat, numDist: nat) returns (packer: Rle.Packer)
      requires Shape() && 257 <= numLit <= 286 && 1 <= numDist <= 30
      requires Chosen(ts, writer.lit.codeSizes[..288], writer.dist.codeSizes[..32])
      modifies clen.count, clen.codes, clen.codeSizes
      ensures fresh(packer) && packer.Valid() && packer.huffCount == clen.count && fresh(packer.packed)
      ensures Rle.ItemsOk(packer.items)
      ensures Rle.Expand(packer.items) == writer.lit.codeSizes[..288][..numLit] + writer.dist.codeSizes[..32][..numDist]
      ensures packer.items == Rle.Form(writer.lit.codeSizes[..288][..numLit] + writer.dist.codeSizes[..32][..numDist])
      ensures ClenChosen(packer.items, clen.codeSizes[..19]) && TableHolds(clen, CodesOf(clen.codeSizes[..19]))
    {
      hide TokenCounts, Chosen, ClenChosen, Rle.Expand, Rle.Packed, Rle.SymCount, Rle.Form, TableHolds, Rle.ItemsOk;
      ghost var ls, ds := writer.lit.codeSizes[..288], writer.dist.codeSizes[..32];
      ChosenShort(ts, ls, ds);
      forall s | 0 <= s < 288 ensures writer.lit.codeSizes[s] <= 15 {
        assert ls[s] <= 15;
      }
      forall s | 0 <= s < 32 ensures writer.dist.codeSizes[s] <= 15 {
        assert ds[s] <= 15;
      }
      packer := PackSizes(numLit, numDist);
      assert ls[..numLit] == writer.lit.codeSizes[..numLit] && ds[..numDist] == writer.dist.codeSizes[..numDist];
      ChooseClenCodes(packer);
    }

    method PutHeader(numLit: nat, numDist: nat, packer: Rle.Packer) returns (ghost h: Header)
      requires Shape() && writer.out.Valid() && 257 <= numLit <= 286 && 1 <= numDist <= 30
      requires packer.Valid() && packer.huffCount == clen.count && Rle.ItemsOk(packer.items)
      requires ClenChosen(packer.items, clen.codeSizes[..19]) && TableHolds(clen, CodesOf(clen.codeSizes[..19]))
      requires packer.packed as object != writer.out.buf && packer.huffCount as object != writer.out.buf
      modifies writer.out`pos, writer.out`bitBuffer, writer.out`bitsIn, writer.out`sent, writer.out`pushed, writer.out.buf
      ensures writer.out.Valid() && writer.out.Kept() && 4 <= |h.clens| <= 19 && Trimmed(h.clens, |h.clens|, 4)
      ensures h == Header(numLit, numDist, h.clens, packer.items) && ClenTable(h.clens) == clen.codeSizes[..19]
      ensures forall i :: 0 <= i < |h.clens| ==> h.clens[i] < 8
      ensures writer.out.sent == old(writer.out.sent) + (ToBits(2, 2) + HeaderBits(h))
    {
      hide BitWriter.Valid, TableHolds, ToBits, Rle.Packed, Rle.SymCount, Rle.ItemsOk, CodesOf, ClensBits, RleBits, ClenTable;
      hide Decodable, ClenChosen, ClensOf, Trimmed, ClensEnd, HeaderBits, WithSizes, Rle.Form, Rle.Expand;
      ghost var cs := clen.codeSizes[..19];
      ClenFacts(packer.items, cs);
      var n := PutSizes(numLit, numDist);
      assert clen.codeSizes[..19] == cs;
      ClensRight(cs, n);
      ghost var sizes := writer.out.sent;
      PutClens(n);
      assert clen.codeSizes[..19] == cs;
      ghost var clens, lens := ClensOf(cs, n), writer.out.sent;
      assert lens == sizes + ClensBits(clens);
      h := Header(numLit, numDist, clens, packer.items);
      PutRle(packer, CodesOf(cs));
      assert clen.codeSizes[..19] == cs;
      assert writer.out.sent == lens + RleBits(CodesOf(cs), packer.items);
      HeaderWritten(h, cs, old(writer.out.sent), sizes, lens, writer.out.sent);
    }

    method PutLitAndDist(numLit: nat, numDist: nat)
      requires Shape() && writer.out.Valid() && 257 <= numLit <= 286 && 1 <= numDist <= 30
      modifies writer.out`pos, writer.out`bitBuffer, writer.out`bitsIn, writer.out`sent, writer.out`pushed, writer.out.buf
      ensures writer.out.Valid() && writer.out.Kept()
      ensures writer.out.sent == old(writer.out.sent) + ToBits(2, 2) + ToBits(numLit - 257, 5) + ToBits(numDist - 1, 5)
    {
      hide BitWriter.Valid, ToBits, Pow2;
      FieldSizes();
      writer.out.PutBits(2, 2);
      writer.out.PutBits(numLit - 257, 5);
      writer.out.PutBits(numDist - 1, 5);
    }

    method PutSizes(numLit: nat, numDist: nat) returns (n: nat)
      requires Shape() && writer.out.Valid() && 257 <= numLit <= 286 && 1 <= numDist <= 30
      modifies writer.out`pos, writer.out`bitBuffer, writer.out`bitsIn, writer.out`sent, writer.out`pushed, writer.out.buf
      ensures writer.out.Valid() && writer.out.Kept()
      ensures ClensEnd(clen.codeSizes[..19], n)
      ensures writer.out.sent == WithSizes(old(writer.out.sent), numLit, numDist, n)
    {
      hide BitWriter.Valid, ToBits, ClensEnd, Pow2;
      FieldSizes();
      PutLitAndDist(numLit, numDist);
      ghost var sent := writer.out.sent;
      n := CountClens();
      assert writer.out.sent == sent;
      writer.out.PutBits(n - 4, 4);
    }

    lemma TrimmedTables(numLit: nat, numDist: nat)
      requires Shape() && numLit <= 288 && numDist <= 32
      requires TableHolds(writer.lit, CodesOf(writer.lit.codeSizes[..288]))
      requires TableHolds(writer.dist, CodesOf(writer.dist.codeSizes[..32]))
      requires Trimmed(writer.lit.codeSizes[..288], numLit, 257) && Trimmed(writer.dist.codeSizes[..32], numDist, 1)
      ensures TableHolds(writer.lit, CodesOf(writer.lit.codeSizes[..288][..numLit]))
      ensures TableHolds(writer.dist, CodesOf(writer.dist.codeSizes[..32][..numDist]))
    {
      hide TableHolds, CodesOf, ZeroFrom;
      TrimHolds(writer.lit, 288, numLit);
      TrimHolds(writer.dist, 32, numDist);
      assert writer.lit.codeSizes[..288][..numLit] == writer.lit.codeSizes[..numLit];
      assert writer.dist.codeSizes[..32][..numDist] == writer.dist.codeSizes[..numDist];
    }
  }
}
