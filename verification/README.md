# The DEFLATE codec of miniz, verified

The project models the DEFLATE compressor and decompressor of `3rdparty/miniz/miniz.c` (RFC 1950 and RFC 1951), which Quassel's
protocol compressor runs on where zlib is absent, and proves that they undo each other: whatever the compressor's flags,
whatever portions of input and room for output its calls get, whatever flushes lie between them, and whatever portions the
decompressor gets in turn, what comes out is what was put in.

The layers follow the source. Objects the source updates in place are classes (`BitWriter`, `EncTable`, `TokenBuffer`,
`Dictionary`, `Parser`, `Emitter`, `Compressor`, `BitReader`, `HuffTable`, `Window`, `Inflater`, `DeflateStream`,
`InflateStream`), and the algorithms that work on arrays do so here. Each method is proved against a specification on values:

- `Bits`, `Canonical`, `Kraft`, `PrefixCodes`, `Lz`, `Deflate`, `FormatFacts`, `StreamFacts`, `Restarts`: bit strings, canonical
  codes, Kraft's sum, LZ77 tokens, and the grammar of blocks. `BlocksBits` gives the bits of a sequence of blocks and `BlocksOut`
  what they decode to. `FormatFacts` ties the tables of both sides to RFC 1950 and RFC 1951 by closed forms, so that no error that
  both sides share can hide in them.
- `RadixSort`, `SymbolSort`, `MergeTrace`, `MergeLevels`, `MinRedundancy`, `CodeSizeLimit`, `LengthCounts`, `LimitedCosts`,
  `EncoderTables`, `Optimality`: from symbol counts to the encoder's codes, and how good these are.
- `LenDist`, `CodeLengthRle`, `TokenBuffers`, `TokenReaders`, `TokenItems`, `BitWriters`, `BlockWriters`, `StaticBounds`,
  `TokenCosts`, `DynamicBlocks`, `BlockSenders`: from recorded tokens to the bits of a block, and how long these get.
- `HashChains`, `Dictionaries`, `LazyParsing`, `Parsers`, `Emitters`, `Compressors`, `CompressorInit`, `DeflateStreams`: the hash
  chains and the match finders, the two parsers and the abstract ones they refine, the output buffer, `tdefl_compress` and
  `mz_deflate`.
- `TableBound`, `TableTrie`, `HuffTables`, `BitReaders`, `Windows`, `Adler32`, `InflateSteps`, `Inflaters`, `InflateStreams`: the
  decoder's tables, its coroutine with one state for each place where it can leave off, and `mz_inflate`.
- `CompressRuns`, `DecodeRuns`, `RoundTrips`, `SyncPoints`, `SyncFlush`, `FullFlushes`, `MissedFlush`: sequences of calls, and the
  theorems that join both sides.

Three results go beyond, or correct, what the source and zlib's documentation lead one to expect:

- **A dynamic block always fits.** `tdefl_flush_block` falls back to a block with fixed codes when the one with its own codes
  overflows the output buffer (lines 2208-2213). It never does: the length-limited codes cost so little more than optimal ones,
  and these so little more than the fixed ones, that 64 KB of tokens take at most 674520 bits (`TokenCosts.DynamicFits`), and
  the compressor's correctness needs no assumption about this.
- **A flush can be missed.** zlib promises that a call of `deflate` with a flush that leaves room for output has made the flush.
  `mz_deflate` keeps this if and only if the call begins with no output waiting, or is given input, or had nothing left to flush
  (`DeflateStreams.DeflateStream.Deflate`). A sync flush in any other state, with no input and more room than what waits takes,
  succeeds and flushes nothing (`MissedFlush.Missed`); and such a state is reached at level 0 by giving zeros one byte per call,
  with room for one byte, until a block is sent (`MissedFlush.LetOutputWait`). A further call makes the flush.
- **A repeated flush need not end.** A caller who repeats each call that fills its room gets to the end of the stream if every
  call has room and no calls in a row have exactly as much as a flush takes that has nothing to flush: 6 bytes, or 10 where raw
  blocks are forced. Then 13/8 calls for each byte and 605 for each piece of input and for the end are enough
  (`RoundTrips.RoundTrip`). For a room that is the same in every call the condition is exact. It is enough if it does not divide
  6, or 10 (`CompressRuns.EqualRooms`). If it does, a flush after all has been flushed fills its room again and again, each time
  with another empty block or the rest of one, however often it is repeated (`CompressRuns.NeverEnds`), and from a new compressor
  on the output gets as long as one likes without any input (`CompressRuns.EndlessOutput`).

## Model

| member | source | states |
|---|---|---|
| `RoundTrips.RoundTrip` | 3rdparty/miniz/miniz.c:1064-1109 | for all flags, all sequences of pieces of input and flushes, all rooms for output of the compressor's calls and all portions and rooms of the decoder's calls: if the stream was finished, what the decoder hands out is a prefix of the input, and all of it when the decoder ends; the compressor ends whenever every call has room, no calls in a row have exactly as much room as an empty flush takes, and there are more than 13/8 calls for each byte and 604.5 for each piece and the end, and otherwise fails to only if all rooms were used and all but one for each piece were filled; the decoder cannot fail to end when every call has input and room and there are more calls than bytes to read and to write |
| `RoundTrips.DecodeFinished` | 3rdparty/miniz/miniz.c:2636-2690 | the same for any compressor in any reachable state, whatever calls it has had: once it is finished and drained, what it has handed out decodes to exactly what it has been given |
| `RoundTrips.DecodeAtOnce` | 3rdparty/miniz/miniz.c:1228-1243 | the same by one call of mz_inflate with MZ_FINISH: it ends with all the input of the compressor exactly if the room is enough for it, and otherwise hands out as much of its start as there is room for |
| `CompressRuns.CompressAll` | 3rdparty/miniz/miniz.c:1064-1109 | calls that fill their room and are repeated with the rest of their input lose and repeat nothing; the rooms that are not filled number at most the pieces; the stream takes at most 13 bits for each byte of input, 4700 for each piece and 128 for each call, or for each piece if no calls in a row have exactly as much room as an empty flush takes |
| `CompressRuns.FlushAgain` | 3rdparty/miniz/miniz.c:1079-1109 | when all has been flushed and the room divides what an empty flush takes and what waits of it, a call for another flush fills its room exactly and leaves such a state again |
| `CompressRuns.NeverEnds` | 3rdparty/miniz/miniz.c:2681-2689 | with a room that divides what an empty flush takes a repeated flush never ends: from every drained state, any number of calls for a flush without input fill their room, and nothing they hand out stands for any input |
| `CompressRuns.EndlessOutput` | 3rdparty/miniz/miniz.c:1064-1109 | so for all flags and each such room, runs without any input hand out as many bytes as one likes |
| `CompressRuns.SizeBound` | 3rdparty/miniz/miniz.c:2601-2608 | in every reachable state the output is bounded by 13 bits for each byte, 4700 for each block that a flush makes and 128 for each empty one: blocks sent because they are long enough need no allowance of their own |
| `DecodeRuns.DecodeAll` | 3rdparty/miniz/miniz.c:1213-1302 | for every valid stream and every way to cut its input and output, the pieces handed out concatenate to a prefix of what it decodes to, to all of it at the end, and the end is reached |
| `RoundTrips.FinishedStream` | 3rdparty/miniz/miniz.c:2162-2261 | what a finished compressor has handed out is a valid stream, with the zlib header and the right checksum if asked for, whose blocks decode to all input |
| `RoundTrips.FormsAsked` | 3rdparty/miniz/miniz.c:2183-2195 | in every reachable state no block has codes of its own where the fixed ones are asked for, and all blocks are raw where that is asked for: the block sent for a forced raw compressor is always still in the dictionary |
| `SyncFlush.DecodedSoFar` | 3rdparty/miniz/miniz.c:2215-2226 | a decoder that has been given, in any portions, exactly what a compressor has handed out up to a flush, and asks for more, has decoded everything put in before the flush |
| `SyncFlush.DecodeSoFar` | 3rdparty/miniz/miniz.c:2681-2689 | decoding the bytes handed out up to a flush gives all the input up to there |
| `FullFlushes.DecodeRest` | 3rdparty/miniz/miniz.c:2681-2690 | a decoder that gets only what a finished compressor has handed out after its last full flush, in any portions and as a raw stream, hands out a prefix of what was put in after that flush, and all of it when it ends, which it does if it is not starved: nothing reaches back over a full flush |
| `FullFlushes.DecodeSinceFullFlush` | 3rdparty/miniz/miniz.c:2681-2690 | the same for what has been handed out between the last full flush and a later flush of any kind: it decodes, on its own, to exactly what was put in in between |
| `Restarts.RestartsStay` | 3rdparty/miniz/miniz.c:2686 | a point from which a stream can be decoded on its own stays one when there is another behind it, so every full flush is such a point and not just the last |
| `SyncPoints.CaughtUp` | 3rdparty/miniz/miniz.c:1457-1675 | for every valid stream, a decoder that has read up to the end of its first k blocks and asks for more has decoded all they stand for: it never waits for bits that it does not need |
| `MissedFlush.Missed` | 3rdparty/miniz/miniz.c:1079-1109 | in every state in which output waits and something put in is in no block yet, a sync flush without input and with more room than the waiting output takes succeeds and leaves room, but hands out only that output and leaves the stream as it was |
| `MissedFlush.LetOutputWait` | 3rdparty/miniz/miniz.c:1079-1109 | such a state is reached from a new compressor |
| `MissedFlush.MissedFlush` | 3rdparty/miniz/miniz.c:1079-1109 | both together: after a successful call of mz_deflate that leaves room, the compressor is not drained |
| `DeflateStreams.DeflateStream.Deflate` | 3rdparty/miniz/miniz.c:1064-1109 | what is handed out is the next part of the stream; with room left all input is taken in and a finish is finished; a flush is made if and only if the call began with nothing waiting or nothing to flush or was given input; one that has nothing to flush takes exactly 6 bytes, or 10 where raw blocks are forced; a full flush that is made, and nothing else, moves the point to decode from to the end of the stream; a call with input and nothing waiting uses some of it; STREAM_END, STREAM_ERROR and BUF_ERROR are each returned exactly in the cases stated, and BUF_ERROR changes nothing |
| `Compressors.Compressor.Compress` | 3rdparty/miniz/miniz.c:2636-2690 | takes in the input from the front, all of it unless output waits at the end; hands out the next bytes of the stream; if nothing waits at the end, a flush that was asked for has been made and all is byte-aligned and handed out; a full flush, if and only if it is made, moves the point to decode from to the end of the stream and empties the dictionary; BAD_PARAM if and only if the call comes after a failure or after the end or takes back a finish, and it then changes nothing |
| `Compressors.Compressor.Take` | 3rdparty/miniz/miniz.c:2661-2679 | what a call does with its input is a run of the abstract parser for the flags, lazy or fast, towards exactly the stream with all of that input; and the checksum is that of all bytes used |
| `Parsers.Parser.CompressNormal` | 3rdparty/miniz/miniz.c:2497-2613 | refines an abstract parser on values: there is a run from the old state to the new one in which each step either takes in input or searches the current position once, with the lookahead full or no more to come, and makes of the result, of the pending match and of the flags exactly the tokens, the pending match, the move and the block boundary stated; besides, the recorded tokens decode to everything before the lookahead, less one byte exactly if a match is pending, and all input is taken in unless the output is blocked |
| `Parsers.Parser.ParseStep` | 3rdparty/miniz/miniz.c:2537-2608 | one step of that run: which match is picked and which is dropped, when it is held back, replaced or recorded, and when the block is due |
| `Parsers.Parser.CompressFast` | 3rdparty/miniz/miniz.c:2329-2461 | the same for the one-probe parser: a run of an abstract parser whose state has the hash table, in which each step looks at the one position in the table, records the longest match there of up to 258 bytes or a literal, and updates the table |
| `Parsers.Parser.NothingPending` | 3rdparty/miniz/miniz.c:2681-2683 | no match is pending when the lookahead is empty, so that a flush loses no byte |
| `Dictionaries.Dictionary.FindMatchBytes` | 3rdparty/miniz/miniz.c:2299-2325 | what is returned is the match given, or a longer one that repeats the stream from dist back, byte for byte, over the ring and its mirrored end, within the dictionary and the lookahead; and none of the first so many positions on the chain of the current hash, by m_max_probes, has a longer one |
| `Dictionaries.Dictionary.FindMatchWords` | 3rdparty/miniz/miniz.c:2265-2297 | the same for the search that compares 16 bits at a time |
| `HashChains.FoundAtFirst` | 3rdparty/miniz/miniz.c:2276-2284 | so a search that looks at one position at least returns a match no shorter than the one at the last position with the same three-byte hash, if that is in the dictionary and no multiple of 65536 |
| `HashChains.NextHash` | 3rdparty/miniz/miniz.c:2508-2520 | updating the hash with one more byte, by a shift and an exclusive or in 15 bits, gives the hash of the last three bytes: what came before is shifted out |
| `Dictionaries.Dictionary.FindRun` | 3rdparty/miniz/miniz.c:2540-2549 | a run of the last byte is found if and only if it is repeated three times, and is as long as the repetition goes |
| `Dictionaries.Dictionary.FastProbe` | 3rdparty/miniz/miniz.c:2364-2407 | the single probe of the fast parser, with its 16-bit arithmetic on positions: a match is found if and only if the position in the table is in the dictionary, at another distance than 0, has the same three bytes and, if it is 8 KB away or more, the same four; it is the longest one there, up to 258 bytes; and exactly one entry of the table changes |
| `Dictionaries.Dictionary.TakeIn` | 3rdparty/miniz/miniz.c:2506-2536 | after any input the ring holds the last bytes of the stream, with its first 257 mirrored behind its end; m_hash has, for each hash, the last position with it since the last full flush, and m_next, for each position in the window, the one before of the same hash |
| `Dictionaries.Dictionary.TakeBlock` | 3rdparty/miniz/miniz.c:2339-2360 | the same for the input taken in chunks by the fast parser |
| `Emitters.Emitter.FlushBlock` | 3rdparty/miniz/miniz.c:2162-2261 | the stream grows by one block, which has the form asked for and decodes to what the tokens stand for, and by an empty stored block behind it exactly for a sync or full flush; by exactly 6 (or 10) bytes for such a flush without tokens at a byte boundary; the bytes handed out and those waiting are exactly its bytes, and the source's assertion that the output buffer is not full at the end holds for every input |
| `BlockSenders.BlockSender.SendBody` | 3rdparty/miniz/miniz.c:2183-2213 | the bits sent are those of a block that decodes to the recorded tokens, and they fit the buffer with 400 bits to spare; the block is raw exactly if that is asked for, or the compressed form would take as many bytes as it stands for, and its bytes are still in the dictionary; otherwise it has the fixed codes exactly if these are asked for or it stands for less than 48 bytes, and else its own codes, chosen from the counts of exactly these tokens; a block whose bytes are still in the dictionary never takes more than 41 bits and 8 for each byte |
| `BlockSenders.FormAsked` | 3rdparty/miniz/miniz.c:2183-2195 | what follows for the flags: no codes of its own for a block of a compressor that forces the fixed ones, and a raw block where these are forced and its bytes are in the dictionary |
| `BlockSenders.BlockSender.PutDictionary` | 3rdparty/miniz/miniz.c:2193-2205 | the body of a raw block is read back from the ring and equals the stretch of the stream that the tokens stand for |
| `StaticBounds.StaticFits` | 3rdparty/miniz/miniz.c:843-847 | a block with the fixed codes takes at most 31 bits for 25 of the code buffer, and so always fits the output buffer |
| `TokenCosts.DynamicFits` | 3rdparty/miniz/miniz.c:2171-2211 | a block with its own codes never takes more than 674520 bits, by the near-optimality of the codes and a bound on the fixed ones |
| `TokenCosts.DynamicSize` | 3rdparty/miniz/miniz.c:2171 | the codes the encoder chooses take at most 12 bits for each byte that the tokens stand for |
| `TokenBuffers.TokenBuffer.FullMeans` | 3rdparty/miniz/miniz.c:2601-2608 | a full code buffer stands for more than 31 KB of input |
| `TokenBuffers.TokenBuffer.SizeIs` | 3rdparty/miniz/miniz.c:2463-2495 | the position in the code buffer, by which it is decided whether a block is due, follows from the tokens alone: a byte for a literal, three for a match, and one for every eight |
| `DynamicBlocks.BlockMaker.StartDynamic` | 3rdparty/miniz/miniz.c:1936-1996 | the header sent is one the decoder accepts, it describes exactly the codes the tables hold, and these have a code for every symbol the tokens use and for the end of the block; it describes no more lengths than up to the last that is not zero, run by run, and has no more code length codes than it has to |
| `DynamicBlocks.BlockMaker.StartStatic` | 3rdparty/miniz/miniz.c:1998-2014 | the tables hold the codes of section 3.2.6 of RFC 1951 |
| `BlockWriters.BlockWriter.WriteSimple` | 3rdparty/miniz/miniz.c:2108-2150 | the bits sent are those of all recorded tokens and the end of the block, and success is reported if and only if all fit |
| `BlockWriters.BlockWriter.WriteFast` | 3rdparty/miniz/miniz.c:2019-2106 | the 64-bit writer, with up to three literals at a time and 8-byte stores, reports the same and sends the same bits, its accumulator never needing more than 64 |
| `TokenBuffers.TokenBuffer.RecordMatch` | 3rdparty/miniz/miniz.c:2475-2495 | appends the match to the tokens the packed flag bytes and data stand for, and counts its two symbols |
| `TokenBuffers.TokenBuffer.Close` | 3rdparty/miniz/miniz.c:2177-2178 | after the last shift of the flags the buffer is the packed form of exactly the recorded tokens, and the counts are those of their symbols |
| `TokenReaders.NextToken` | 3rdparty/miniz/miniz.c:2121-2146 | reading the packed form gives the tokens back one by one |
| `TokenItems.TokensDecode` | 3rdparty/miniz/miniz.c:1552-1667 | the symbols and extra bits sent for tokens are taken by the decoder for the same tokens |
| `LenDist.LengthsAgree` | 3rdparty/miniz/miniz.c:1767-1781 | for all 256 lengths, the encoder's symbol and extra bits give the length back through the decoder's base and extra tables |
| `LenDist.DistancesAgree` | 3rdparty/miniz/miniz.c:1783-1816 | the same for all 32768 distances through the small and the large tables |
| `FormatFacts.LengthTable` | 3rdparty/miniz/miniz.c:1430-1431 | the lengths of the symbols 257 to 284 follow one another from 3 on, each symbol with Pow2 of its extra bits of them, 285 stands for 258, and the numbers of extra bits are those of section 3.2.5 of RFC 1951 |
| `FormatFacts.LengthSymbol` | 3rdparty/miniz/miniz.c:1767-1781 | the encoder sends a length as a symbol if and only if it is among the lengths of that symbol |
| `FormatFacts.DistanceTable` | 3rdparty/miniz/miniz.c:1432-1433 | the distances follow one another from 1 on in the same way |
| `FormatFacts.DistanceSymbol` | 3rdparty/miniz/miniz.c:1783-1816 | and so does the symbol of a distance, for all 32768 through the small and the large table |
| `FormatFacts.ZigzagOrder` | 3rdparty/miniz/miniz.c:1434 | the order of the code length codes, in closed form: the three that repeat, 0, and then alternately above and below 8 |
| `FormatFacts.RunLengths` | 3rdparty/miniz/miniz.c:1542-1543 | what the three symbols that repeat stand for, and how much at most |
| `FormatFacts.FixedLitCode` | 3rdparty/miniz/miniz.c:1998-2014 | the fixed literal and length codes, value by value, as in the table of section 3.2.6 of RFC 1951 |
| `FormatFacts.FixedDistCode` | 3rdparty/miniz/miniz.c:1998-2014 | and the fixed distance codes |
| `FormatFacts.TenLettersBits` | 3rdparty/miniz/miniz.c:2019-2150 | one known stream: ten letters a, as two literals and a match, are the bytes 4B 4C 84 01 00 |
| `FormatFacts.ChecksumIs` | 3rdparty/miniz/miniz.c:977-990 | the closed form of the checksum, modulo 65521: 1 plus the sum of the bytes, and the sum of all these partial sums |
| `CodeLengthRle.Packer.Pack` | 3rdparty/miniz/miniz.c:1954-1977 | the loop over the lengths, with its three counters, makes the form that is defined run by run: zeros 138 at a time, other lengths once and then six repetitions at a time, and of what is left three or more as one item; expanding it gives back any sequence of code lengths, it never starts with a repetition, and the symbol counts are right |
| `CodeLengthRle.NeverLonger` | 3rdparty/miniz/miniz.c:1917-1932 | the packed form has no more bytes than there are lengths, so its buffer suffices |
| `RadixSort.RadixSortSyms` | 3rdparty/miniz/miniz.c:1819-1833 | both passes, and the case where the second is skipped, give a stable sort by the 16-bit key |
| `SymbolSort.SortPermutes` | 3rdparty/miniz/miniz.c:1884 | a stable sort is a permutation of the used symbols |
| `MinRedundancy.CalculateMinimumRedundancy` | 3rdparty/miniz/miniz.c:1836-1854 | in place, for n weights in ascending order whose sum fits 16 bits, leaves lengths whose Kraft sum is exactly 1 and whose cost is least over all feasible lengths; none exceeds 22, and a weight with length l is at most the sum over a Fibonacci number that grows with l |
| `MergeLevels.LeafBound` | 3rdparty/miniz/miniz.c:1844-1852 | a leaf at depth d weighs at most the total over Fib(d + 1) |
| `Optimality.BestPrefixCode` | 3rdparty/miniz/miniz.c:1836-1854 | no prefix code whatever, of any word lengths, costs less than those lengths |
| `PrefixCodes.KraftInequality` | 3rdparty/miniz/miniz.c:1836-1854 | the word lengths of every prefix code are feasible |
| `CodeSizeLimit.EnforceMaxCodeSize` | 3rdparty/miniz/miniz.c:1858-1869 | terminates, keeps the number of codes, never drives a count negative and ends with Kraft sum exactly 1 within the limit; which counts were moved, and that n codes leave no more than 2(n - 1) units to move |
| `LimitedCosts.LimitCosts` | 3rdparty/miniz/miniz.c:1858-1869 | limiting to 15 bits costs at most 2(n - 1)/540 bits per symbol more than the best unlimited code |
| `EncoderTables.EncTable.Optimize` | 3rdparty/miniz/miniz.c:1871-1904 | exactly the used symbols get sizes, all within the limit, a more frequent symbol never a longer one, complete if two or more are used; the codes are the canonical ones bit-reversed; near-optimal cost |
| `Optimality.NearlyBestPrefixCode` | 3rdparty/miniz/miniz.c:1871-1904 | no prefix code for the symbols that occur costs less than those sizes by more than 2(n - 1)/540 bits per symbol |
| `Canonical.PrefixFree` | 3rdparty/miniz/miniz.c:1896-1903 | the codes counted up from next_code are prefix-free for all lengths that satisfy Kraft's inequality |
| `HuffTables.HuffTable.Build` | 3rdparty/miniz/miniz.c:1508-1532 | accepts code lengths if and only if they are complete or at most one is used, and the lookup table and overflow tree then hold every canonical code, with all indices in range |
| `TableBound.NodeBound` | 3rdparty/miniz/miniz.c:1524-1531 | no accepted code lengths need more tree nodes than the array has |
| `HuffTables.HuffTable.Decode` | 3rdparty/miniz/miniz.c:1422-1426 | on any bit buffer that begins with a symbol's code, table and tree walk give that symbol and its length |
| `HuffTables.HuffTable.HasSymbol` | 3rdparty/miniz/miniz.c:1394-1411 | the fill loop stops if and only if the whole code is in the bit buffer, whatever is above its valid bits |
| `BitReaders.BitReader.HuffDecode` | 3rdparty/miniz/miniz.c:1413-1426 | the next symbol of the stream is decoded wherever the input is cut, it asks for more only when its code is not complete, and the buffer never needs more than 61 bits |
| `Inflaters.Inflater.Decompress` | 3rdparty/miniz/miniz.c:1428-1698 | for every valid stream, in every state in which earlier calls left off: the output continues that of the earlier calls as a prefix of the one decoded stream; DONE exactly with all of it and the right checksum, NEEDS_MORE_INPUT only with all input read and more needed, HAS_MORE_OUTPUT only with the room filled and more to come; never FAILED |
| `Inflaters.Inflater.FastSymbols` | 3rdparty/miniz/miniz.c:1566-1602 | the path that decodes two symbols at a time keeps the same invariant as the one that decodes one at a time |
| `Windows.Window.CopyRun` | 3rdparty/miniz/miniz.c:1631-1667 | the copies by 8 bytes, by 3 bytes and of the rest equal the byte-by-byte LZ77 copy for every distance and length, wrapped or not |
| `Lz.CopyIs` | 3rdparty/miniz/miniz.c:1622-1630 | a stretch that repeats what is dist bytes before it is what a match copies |
| `InflateStreams.InflateStream.Inflate` | 3rdparty/miniz/miniz.c:1245-1301 | through the 32 KB ring, what is handed out in whatever portions is the next part of the decoded stream; STREAM_END exactly when all has been handed out; STREAM_ERROR if and only if a finish is taken back; BUF_ERROR if and only if nothing waited to be handed out and, without a finish, there was no input and the decoder wants some, or, with one, the stream has not ended; a call that succeeds with room makes progress, and one that leaves bytes waiting has filled its room |
| `InflateStreams.InflateAtOnce` | 3rdparty/miniz/miniz.c:1228-1243 | a first call that already says finish ends if and only if the whole stream fits the room given |
| `Adler32.Update` | 3rdparty/miniz/miniz.c:977-990 | the sum with deferred reduction equals the per-byte definition of section 8.2 of RFC 1950, for any data, and fits 32 bits |
| `Adler32.NeverWraps` | 3rdparty/miniz/miniz.c:979-988 | within a block of 5552 bytes neither sum reaches 2^32 |
| `Adler32.ChecksumConcat` | 3rdparty/miniz/miniz.c:977-990 | the sum of a concatenation is the sum of its parts one after the other |
| `CompressorInit.NewCompressor` | 3rdparty/miniz/miniz.c:2697-2714 | a new compressor satisfies the invariant for every combination of flags, its parser has exactly these flags, with the numbers of probes they stand for, and its state is the empty one |

## Left out

- The ZIP archive and PNG code, the allocation callbacks, the one-shot helpers such as `mz_compress`, and `mz_deflateBound`.
- The put_buf callback of `tdefl_init` and the PUT_BUF_FAILED status: the compressor always has the caller's buffer.
- The output of a block passes through the internal buffer of the compressor always; the source writes straight to the caller's
  buffer when that has room for a whole one. What is handed out is the same.
- A call of `mz_inflate` after a first call with MZ_FINISH that did not end, which always fails with MZ_DATA_ERROR.
- The null checks of the `mz_stream` functions and their counters `total_in` and `total_out`; MZ_PARTIAL_FLUSH, which `mz_deflate`
  turns into a sync flush.
- Malformed streams: the decoder is modelled on valid ones, where every distance stays within the output and the checksum is
  right. So none of its FAILED branches is reached, which the model proves.
- TINFL_STATUS_BAD_PARAM, with which the decoder refuses a ring whose size is no power of two: the model's ring wraps by a
  remainder instead of a mask, for any size from 32768 up.
- The 32-bit form of the decoder's bit buffer (`TINFL_USE_64BIT_BITBUF` off), which refills 16 bits where the 64-bit form
  refills 32.
- The decoder keeps its running checksum always, as TINFL_FLAG_COMPUTE_ADLER32 asks for and `mz_inflate` does.
- Positions in the stream are unbounded here, where `m_lookahead_pos` and `m_lz_code_buf_dict_pos` are 32 bits wide and wrap
  after 4 GB; the 16-bit entries of the hash chains and the arithmetic on them are modelled as they are.
- TDEFL_NONDETERMINISTIC_PARSING_FLAG: the hash table starts cleared. With the flag it starts with whatever was there, and which
  matches are found is not determined.
- `TDEFL_LESS_MEMORY`: the sizes of the buffers are those of the default build.
- The remark at line 1369 that the decoder never reads ahead more than it needs describes `TINFL_HUFF_DECODE` at the end of the
  input only; the path for two symbols takes four bytes at once (line 1571). The model follows the code, and the bytes read ahead
  stay in the bit buffer.
- `src/client/messagemodel.cpp`, `3rdparty/sha512/sha512.c` and `src/common/compressor.cpp`: they do not touch the codec's
  internals and would add independent, easier parts.
