/** tdefl_init: a new compressor. */
module CompressorInit {
  import opened Bits
  import opened Lz
  import opened TokenBuffers
  import opened BitWriters
  import opened EncoderTables
  import opened BlockWriters
  import opened DynamicBlocks
  import opened HashChains
  import opened Dictionaries
  import opened BlockSenders
  import opened Emitters
  import opened LazyParsing
  import opened Parsers
  import opened Compressors

  /** The flags that a compressor is created with. */
  datatype Options = Options(probes: nat, zlib: bool, computeAdler: bool, greedy: bool, rleMatches: bool, filterMatches: bool,
                             forceStatic: bool, forceRaw: bool)

  /** Whether tdefl_compress_fast is used: one probe and greedy parsing, and nothing that it does not do. */
  predicate UseFast(o: Options, words: bool) {
    words && o.probes == 1 && o.greedy && !o.filterMatches && !o.forceRaw && !o.rleMatches
  }

  /** What the flags mean for the parser. */
  function RulesFor(o: Options, maxProbes0: nat, maxProbes1: nat): Rules {
    Rules(o.greedy, o.rleMatches, o.filterMatches, o.forceRaw, maxProbes0, maxProbes1)
  }

  /** Everything a compressor is made of and may change. */
  ghost function Parts(c: Compressor): set<object> {
    {c, c.parser, c.emitter, c.tokens, c.tokens.codeBuf, c.tokens.distCount, c.emitter.out, c.emitter.out.buf,
     c.d, c.d.dict, c.d.next, c.d.hash}
    + c.emitter.sender.maker.TableArrays()
  }

  /** The counts of the two tables are shared with the token buffer; no other two arrays are the same. */
  method NewWriter() returns (writer: BlockWriter)
    ensures fresh(writer) && fresh(writer.lit.codes) && fresh(writer.lit.codeSizes) && fresh(writer.lit.count)
    ensures fresh(writer.dist.codes) && fresh(writer.dist.codeSizes) && fresh(writer.dist.count)
    ensures fresh(writer.tokens) && fresh(writer.tokens.codeBuf) && fresh(writer.out) && fresh(writer.out.buf)
    ensures writer.Separate() && writer.lit.Valid() && writer.dist.Valid() && writer.tokens.Valid()
    ensures writer.tokens.litCount == writer.lit.count && writer.tokens.distCount == writer.dist.count
    ensures writer.lit.count != writer.dist.count && writer.lit.count != writer.dist.codes
    ensures writer.lit.count != writer.dist.codeSizes && writer.dist.count != writer.lit.codes
    ensures writer.dist.count != writer.lit.codeSizes && writer.lit.codes != writer.dist.codes
    ensures writer.lit.codes != writer.dist.codeSizes && writer.lit.codeSizes != writer.dist.codes
    ensures writer.lit.codeSizes != writer.dist.codeSizes
    ensures writer.tokens.Tokens() == [] && writer.tokens.codePos == 1
    ensures writer.out.bitsIn == 0 && writer.out.bitBuffer == 0 && writer.out.buf.Length == OUT_BUF_SIZE
  {
    hide BitWriter.Valid, TokenCounts, Pack, Data, Flags, ToBits;
    var lit := new EncTable();
    var dist := new EncTable();
    var tokens := new TokenBuffer(lit.count, dist.count);
    var out := new BitWriter();
    writer := new BlockWriter(out, tokens, lit, dist);
  }

  method NewMaker() returns (maker: BlockMaker)
    ensures fresh(maker) && fresh(maker.TableArrays()) && maker.Shape()
    ensures fresh(maker.writer.out) && fresh(maker.writer.out.buf) && maker.writer.out.buf.Length == OUT_BUF_SIZE
    ensures maker.writer.out.bitsIn == 0 && maker.writer.out.bitBuffer == 0
    ensures fresh(maker.writer.tokens) && fresh(maker.writer.tokens.codeBuf) && fresh(maker.writer.tokens.distCount)
    ensures maker.writer.tokens.Valid() && maker.writer.tokens.Tokens() == [] && maker.writer.tokens.codePos == 1
  {
    hide TokenBuffer.Valid, TokenBuffer.Tokens;
    var writer := NewWriter();
    var clen := new EncTable();
    maker := new BlockMaker(writer, clen);
  }

  method NewSender(d: Dictionary, wide: bool) returns (sender: BlockSender)
    requires d.Shape()
    ensures fresh(sender) && fresh(sender.maker) && fresh(sender.maker.TableArrays()) && sender.Shape() && sender.d == d
    ensures fresh(sender.out) && fresh(sender.out.buf) && sender.out.buf.Length == OUT_BUF_SIZE
    ensures sender.out.bitsIn == 0 && sender.out.bitBuffer == 0
    ensures fresh(sender.tokens) && fresh(sender.tokens.codeBuf) && fresh(sender.tokens.litCount) && fresh(sender.tokens.distCount)
    ensures sender.tokens.Valid() && sender.tokens.Tokens() == [] && sender.tokens.codePos == 1
  {
    hide Dictionary.Shape, TokenBuffer.Valid, TokenBuffer.Tokens, BlockMaker.TableArrays;
    var maker := NewMaker();
    CountsAreTables(maker);
    sender := new BlockSender(maker, d, wide);
  }

  lemma CountsAreTables(maker: BlockMaker)
    requires maker.Shape()
    ensures maker.writer.tokens.litCount in maker.TableArrays()
  {
  }

  /** Nothing has been parsed yet. */
  lemma NothingParsed(p: Parser)
    requires p.emitter.Inv() && p.d == p.emitter.d && p.tokens == p.emitter.tokens && p.savedLen == 0
    requires p.d.stream == [] && p.tokens.codePos == 1 && p.d.maxLookahead == (if p.fast then FAST_LOOKAHEAD else MAX_MATCH_LEN)
    requires (p.fast ==> !p.emitter.forceRaw) && p.d.Chained()
    requires p.d.next !in p.emitter.sender.maker.TableArrays() && p.d.hash !in p.emitter.sender.maker.TableArrays()
    ensures p.Inv() && p.Resting()
  {
    hide Dictionary.Valid, TokenBuffer.Valid, BlockSender.Shape, Emitter.StreamOk, Emitter.BufferOk, TokensOk, Expand, ChainsOk;
    NothingAhead(p.d);
  }

  method NewParser(sender: BlockSender, o: Options, words: bool) returns (p: Parser)
    requires sender.Shape() && sender.out.buf.Length == OUT_BUF_SIZE && sender.d.Valid() && sender.d.stream == []
    requires sender.tokens.Valid() && sender.tokens.Tokens() == [] && sender.tokens.codePos == 1
    requires sender.out.bitsIn == 0 && sender.out.bitBuffer == 0
    requires sender.d.maxLookahead == if UseFast(o, words) then FAST_LOOKAHEAD else MAX_MATCH_LEN
    requires sender.d.next != sender.tokens.litCount && sender.d.next != sender.tokens.distCount
    requires sender.d.hash != sender.tokens.litCount && sender.d.hash != sender.tokens.distCount
    requires sender.d.reset == 0 && sender.d.Chained()
    requires sender.d.next !in sender.maker.TableArrays() && sender.d.hash !in sender.maker.TableArrays()
    ensures fresh(p) && fresh(p.emitter) && p.emitter.sender == sender && p.Inv() && p.Resting() && p.emitter.zlib == o.zlib
    ensures !p.emitter.parts.ended && p.emitter.delivered == [] && p.emitter.flushRemaining == 0 && p.d == sender.d
    ensures p.emitter.forceRaw == o.forceRaw && p.fast == UseFast(o, words) && p.emitter.flushes == p.emitter.empties == 0
    ensures p.ParseRules() == RulesFor(o, p.d.maxProbes0, p.d.maxProbes1) && p.words == words
    ensures p.emitter.forceStatic == o.forceStatic && p.emitter.mark == p.emitter.markByte == 0
    ensures p.Now() == State([], 0, 0, 0, Nothing, [], [])
  {
    hide Dictionary.Valid, TokenBuffer.Valid, BlockSender.Shape, Emitter.StreamOk, Emitter.BufferOk, TokensOk, Expand, ChainsOk;
    hide TokenBuffer.Tokens, BlockMaker.TableArrays;
    var emitter := new Emitter(sender, o.zlib, o.forceStatic, o.forceRaw);
    p := new Parser(emitter, o.greedy, o.rleMatches, o.filterMatches, words, UseFast(o, words));
    NothingParsed(p);
    NothingAhead(p.d);
  }

  /** The parts of a compressor but for itself. */
  method NewMachine(o: Options, wide: bool, words: bool) returns (p: Parser)
    requires o.probes <= 0xFFF
    ensures fresh(p) && fresh(p.emitter) && fresh(p.tokens) && fresh(p.tokens.codeBuf) && fresh(p.tokens.distCount)
    ensures fresh(p.emitter.out) && fresh(p.emitter.out.buf) && fresh(p.d) && fresh(p.d.dict) && fresh(p.d.next) && fresh(p.d.hash)
    ensures fresh(p.emitter.sender.maker.TableArrays())
    ensures p.Inv() && p.Resting() && p.emitter.zlib == o.zlib && !p.emitter.parts.ended && p.emitter.delivered == []
    ensures p.emitter.flushRemaining == 0 && p.emitter.forceRaw == o.forceRaw && p.fast == UseFast(o, words)
    ensures p.emitter.flushes == p.emitter.empties == 0 && p.words == words
    ensures p.ParseRules() == RulesFor(o, 1 + (o.probes + 2) / 3, 1 + (o.probes / 4 + 2) / 3)
    ensures p.emitter.forceStatic == o.forceStatic && p.emitter.mark == p.emitter.markByte == 0
    ensures p.Now() == State([], 0, 0, 0, Nothing, [], [])
  {
    hide Dictionary.Valid, TokenBuffer.Valid, BlockSender.Shape, BlockMaker.TableArrays, Emitter.StreamOk, Emitter.BufferOk;
    hide TokensOk, Expand, Parser.Parsed, ChainsOk, TokenBuffer.Tokens;
    var d := new Dictionary(1 + (o.probes + 2) / 3, 1 + (o.probes / 4 + 2) / 3, UseFast(o, words));
    DictionaryShape(d);
    var sender := NewSender(d, wide);
    p := NewParser(sender, o, words);
    SameParts(p);
  }

  method NewCompressor(o: Options, wide: bool, words: bool) returns (c: Compressor)
    requires o.probes <= 0xFFF
    ensures c.Inv() && fresh(Parts(c)) && c.prevStatus == Okay && !c.wantsToFinish && !c.finished && c.emitter.zlib == o.zlib
    ensures c.d.stream == [] && c.emitter.delivered == [] && c.emitter.flushRemaining == 0
    ensures c.emitter.forceRaw == o.forceRaw && c.parser.fast == UseFast(o, words) && c.emitter.flushes == c.emitter.empties == 0
    ensures c.parser.ParseRules() == RulesFor(o, 1 + (o.probes + 2) / 3, 1 + (o.probes / 4 + 2) / 3) && c.parser.words == words
    ensures c.emitter.forceStatic == o.forceStatic && c.emitter.mark == c.emitter.markByte == c.d.reset == 0
    ensures c.parser.Now() == State([], 0, 0, 0, Nothing, [], [])
  {
    hide Parser.Inv, Parser.Resting, BlockMaker.TableArrays;
    var parser := NewMachine(o, wide, words);
    c := new Compressor(parser, o.zlib || o.computeAdler);
  }

  lemma NothingAhead(d: Dictionary)
    requires d.Valid() && d.stream == []
    ensures d.lookaheadPos == d.lookaheadSize == d.dictSize == 0
  {
    hide Holds;
  }

  lemma DictionaryShape(d: Dictionary)
    requires d.Valid()
    ensures d.Shape()
  {
  }

  lemma SameParts(p: Parser)
    requires p.Inv()
    ensures p.emitter.out == p.emitter.sender.out && p.tokens == p.emitter.sender.tokens && p.emitter.d == p.d
  {
    hide Dictionary.Valid, TokenBuffer.Valid, BlockSender.Shape, Emitter.StreamOk, Emitter.BufferOk, TokensOk, Expand;
  }
}
