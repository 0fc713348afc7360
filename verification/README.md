# zlib and TinyXML

A verification model of two libraries bundled in `external/`: the DEFLATE engine and the checksums of zlib 1.2.11
(RFC 1950, 1951 and 1952), and the text encoding, child lists and attribute ring of TinyXML.

The pieces specify each other. `DeflateSpec` is a decoder that reads a stream one bit string at a time and writes one
byte at a time; it is what a stream means. Everything else is proved against it.

- **Compressor.** `Heap`, `HuffmanTheory`, `MergeOrder`, `BitLengths`, `LengthRepair`, `LengthAssignment`,
  `TreeBuilder` and `HuffmanTrees` build Huffman trees; `Canonical` and `CodeWords` assign the words; `RunLengths`,
  `StaticTables`, `Blocks`, `BlockSizes` and `BlockFlush` write blocks with exact size accounting; `BlockFormat` and
  `BlockHeaders` show that the decoder reads them back. `Hashing`, `HashChains`, `LongestMatch`, `FillWindow`,
  `DeflateOutput`, `DeflateFast`, `DeflateSlow`, `DeflateStored` and `DeflateCalls` are the matcher, with the class of
  `DeflateState` as its state.
- **Decompressor.** `SymbolOrder`, `TableLayout`, `DecodeTable` and `InfTrees` build the two-level tables;
  `InflateState`, `TableLookup`, `InflateModes`, `InflateTables`, `InflateCodes`, `InflateWindow` and `InflateCalls`
  are the state machine; `FastSteps` and `FastLoop` the unrolled loop, `SyncSearch` the search for a flush point. `RoundTrip`
  joins both ends.
- **The format itself.** `FormatTables` states the numbers of RFC 1951 in its own terms, and `SampleStreams` has streams given
  byte by byte with the data they mean, so that the decoder and the tables it shares with both ends rest on literal values.
- **Checksums.** `Adler32`, `Crc32`, `CrcCombine`, and `CrcValues` for the polynomial, the check value and the residue.
- **TinyXML.** `XmlText`, `XmlReferences`, `XmlAttributes`, `XmlForest`, `XmlEdits`, `XmlNodes`.

`dafny verify dfyconfig.toml` checks the whole project.

## How the code is represented

- A C buffer that is filled in place is an `array`; a structure whose fields are updated is a class. `pending_buf` is a
  sequence of all bytes ever pending, and `flush_pending` moves the point up to which they are out. `d_buf`, `l_buf`
  and `pending_buf` are three arrays, not overlaid.
- Widths are written out where they matter: 16-bit code words and hash positions, the 16-bit `bi_buf`, 32-bit checksum
  words, `match_start` modulo 2^32. `& w_mask` is `% w`. `opt_len` is an `int`.
- `configuration_table` is a function of the level in `DeflateState`; there is one level and one strategy per stream.
- The fixed tables are built as under BUILDFIXED, in the 1444-entry array for decoding tables.
- A C string is a sequence whose end reads as NUL.
- Memory that is deleted is not written; the nodes in use are a ghost set that shrinks, and code may only touch what is in it.

## Where the code and its comments or promises part

- `build_tree` says of the forced code that "node is 0 or 1"; it is 2 when the only used symbol is 1. The accounts are
  right all the same.
- `inflate_fast` says that on entry `bits < 8`. A LEN mode resumed with an unfinished word can hold 8 or more bits. The
  invariant that holds is: fewer than 8 bits, or no step is possible with them (`FastSteps.KeepsWhatWasRead`).
- A code length code without any codes is accepted by `inflate_table` and reads single bits as length 0, until the
  check for the end-of-block code rejects the block; the reference decoder does the same.
- `adler32_z` on a single byte subtracts 65521 at most once from the high half; for a start value that is no Adler-32
  value this can be too little (`Adler32.OneByteDeparts`).
- `match_start` can wrap to 2^32-1 when the window slides under a deferred match that starts at the end of the lower half;
  the distance computed from it, modulo 2^32, is right (`DeflateSlow.Look`).
- `TiXmlAttribute::Next` takes an attribute without name and value for the sentinel, so cloning an element stops there
  (`XmlAttributes.WalkStopsEarly`, `XmlForest.CloneIsFaithful`).
- `TiXmlAttributeSet::FindOrCreate` adds an attribute before naming it, so the assertion in `Add` can fail while one named ""
  is in the ring; names are unique when it returns all the same.
- The first-byte table of TinyXML ends at F4, so characters from 0x140000 on, which `ConvertUTF32ToUTF8` writes, are not read as
  one (`XmlText.Utf8IsOneSequence`).

## Model

| member | source | states |
|---|---|---|
| Heap.PqDownHeap | external/zlib/trees.c:451-474 | From a heap in order below `start`, the heap is in order at `start` too, holds the same multiset of nodes, and nothing outside `start..heapLen` changes |
| Heap.PqRemove | external/zlib/trees.c:430-435 | Takes out the node at the front (the least, by `TreeBuilder.FrontIsFirst`): the heap is in order, holds the other nodes, and keeps what lies beyond it |
| HuffmanTrees.BuildTree | external/zlib/trees.c:615-697 | For every frequency vector with a 16-bit sum: a complete code within the limit whose words are the canonical ones bit-reversed, every used symbol coded, no rarer symbol with a shorter code, `opt_len` and `static_len` grown by exactly what the data takes with the new and the static code; and when no node is deeper than the limit and no code was forced, no prefix code of any lengths costs less |
| HuffmanTheory.LowerBound | external/zlib/trees.c:664-686 | Merging the two lightest nodes each round: from every stage on, any code for the remaining nodes costs at least the weight of the merges still to come |
| HuffmanTheory.Optimal | external/zlib/trees.c:664-693 | When no depth is cut at the limit, the depths in the tree cost no more than any lengths that satisfy the Kraft inequality |
| HuffmanTheory.ClippedSpace | external/zlib/trees.c:503-524 | Clipping depths to the limit overfills the code by exactly the number of nodes that were clipped, in units of the deepest level |
| HuffmanTheory.RarerIsDeeper | external/zlib/trees.c:486-561 | In an optimal tree a rarer symbol is never at a shorter depth than a commoner one |
| BitLengths.FirstPass | external/zlib/trees.c:496-525 | The first loop of gen_bitlen assigns the clipped depths, counts the lengths, counts the clipped nodes as overflow, and adds the cost of these depths to both accounts |
| LengthRepair.SearchEnds | external/zlib/trees.c:533-534 | While there is overflow, some level below the limit has a code: the search stops at a level of at least 1 |
| LengthRepair.RepairStep | external/zlib/trees.c:535-541 | One repair step needs an overflow of at least 2 and lowers the Kraft sum by exactly one code of the greatest length, so what is left to repair falls by 2 |
| LengthRepair.Repair | external/zlib/trees.c:532-542 | The repair ends with the same number of codes, none longer than the limit, and a Kraft sum of exactly 1 |
| LengthAssignment.GenBitlen | external/zlib/trees.c:486-561 | All of gen_bitlen: every used symbol gets a length within the limit, the counts make a complete code, commoner symbols get no longer codes, and `opt_len` includes the change that the repair makes |
| CodeWords.BiReverse | external/zlib/trees.c:1158-1168 | The number whose bits are the bits of the argument in reverse order |
| CodeWords.GenCodes | external/zlib/trees.c:572-605 | For any lengths within the Kraft bound and their counts, writes for every used symbol its canonical word (section 3.2.2 of RFC 1951), bit-reversed, and touches no other entry; no 16-bit overflow of next_code occurs |
| Canonical.PrefixFree | external/zlib/trees.c:572-605 | No bit string begins with the canonical words of two symbols |
| RunLengths.ScanTree | external/zlib/trees.c:703-742 | Adds to each code-length frequency exactly the number of times `send_tree` will send that symbol, for every tree, and only writes the guard after the last length |
| RunLengths.SendTree | external/zlib/trees.c:748-793 | Appends exactly the words and extra bits of the run-length items of the tree, each count within its 2, 3 or 7 extra bits |
| RunLengths.TreeRebuilt | external/zlib/trees.c:748-793 | Playing the items of any length sequence after any earlier lengths rebuilds it exactly, with no repeat that reaches before the first entry |
| BlockFlush.BuildBlTree | external/zlib/trees.c:799-826 | Builds the code for the items of both trees, finds the last length worth sending, and adds to `opt_len` exactly the size of the items, of the 3-bit lengths and of the 14-bit sizes |
| Blocks.SendAllTrees | external/zlib/trees.c:834-858 | Appends exactly the bits that describe the two trees (section 3.2.7 of RFC 1951) |
| FormatTables.FieldsSent | external/zlib/trees.c:847-850 | Whatever the code length code, the three-bit fields sent are those of symbols 16, 17, 18, 0, 8, 7, 9, 6, 10, 5, 11, 4, 12, 3, 13, 2, 14, 1, 15, each symbol with its own length |
| Blocks.TrTally | external/zlib/trees.c:1014-1059 | Appends one literal or match to the tokens of the block, keeps the frequencies equal to what the tokens need, and says when the buffer is full |
| Blocks.CompressBlock | external/zlib/trees.c:1064-1109 | Appends exactly the bits of all tokens and of the end of block in the given codes |
| Blocks.StoredBlock | external/zlib/trees.c:863-874 | Appends a stored block: header, padding to a byte, length, its complement, and the bytes |
| BlockFormat.BodyDecodes | external/zlib/inflate.c:1044-1196 | Reading the bits of any tokens that stay within reach gives exactly their expansion, and stops right after the end of block |
| BlockHeaders.DynamicDecodes | external/zlib/inflate.c:920-1041 | Reading the bits of two sendable trees arrives at exactly these code lengths, right behind them |
| FormatTables.FieldsBelong | external/zlib/inflate.c:938-945 | For every stream, the decoder gives the three-bit fields to symbols 16, 17, 18, 0, 8, 7, 9, 6, 10, 5, 11, 4, 12, 3, 13, 2, 14, 1, 15 in this order, and 0 to those left off |
| FormatTables.FixedLiteralWord | external/zlib/trees.c:289-299 | The fixed code words are those of the table in section 3.2.6 of RFC 1951: 00110000 on for 0 to 143, 110010000 on to 255, 0000000 on to 279, 11000000 on to 287 |
| FormatTables.LengthCodes | external/zlib/inftrees.c:60-65 | Length codes: 3 to 10 one each, then four codes for each number of extra bits, in closed form, and 258 |
| FormatTables.DistanceCodes | external/zlib/inftrees.c:66-73 | Distance codes: 1 to 4 one each, then two codes for each number of extra bits, in closed form |
| FormatTables.RepeatCodes | external/zlib/inflate.c:971-996 | Code length symbols 16, 17 and 18 stand for 3 to 6, 3 to 10 and 11 to 138 repetitions, and the others for one length |
| SampleStreams.OneLetterIsRead | external/zlib/inflate.c:920-1092 | The 13 bytes 05 C0 81 08 00 00 00 00 20 D6 FD 25 4E, a dynamic block, mean "a" |
| SampleStreams.SevenLettersAreRead | external/zlib/inflate.c:920-1092 | 14 bytes, a dynamic block whose code lengths are repeated with symbols 16, 17 and 18, mean "bag" |
| SampleStreams.FixedLetterIsRead | external/zlib/inflate.c:849-886 | The bytes 4B 04 00, with the fixed codes, mean "a" |
| SampleStreams.MatchesAreRead | external/zlib/inflate.c:1093-1190 | 8 bytes with the fixed codes: three literals, a match whose length has an extra bit and one whose distance has two mean "abcabcabcabcabcababc" |
| BlockHeaders.StoredDecodes | external/zlib/inflate.c:887-919 | Reading a stored block appends exactly its bytes and stops right behind them |
| BlockFlush.FlushBlock | external/zlib/trees.c:911-1002 | Block round trip: the bits appended decode to the expansion of the tokens after any output they can refer to, and stop at their end; a fixed block has exactly 3+static_len bits, where static_len is the size of the tokens in the fixed codes, and a dynamic one 3+opt_len; the encoding is the one that the rule in the source picks; the last block ends on a byte; the block is empty again |
| BlockFlush.BlockSize | external/zlib/trees.c:959-996 | Whichever encoding is picked, a block takes at most nine bits for each byte it stands for and 27 more, and ten more when it stands for at least 127 bytes |
| BlockFlush.InitBlock | external/zlib/trees.c:407-423 | Starts an empty block with zero frequencies but for one end of block, with every invariant of the block |
| BlockFlush.TrAlign | external/zlib/trees.c:896-907 | Appends an empty fixed block of ten bits, which decodes to nothing |
| BitWriter.Writer.SendBits | external/zlib/trees.c:186-208 | Appends exactly the low bits of the value to the stream, whatever is in the 16-bit buffer |
| BitWriter.Writer.BiFlush | external/zlib/trees.c:1173-1185 | Moves whole bytes out of the buffer; the stream stays the same and at most 7 bits wait |
| BitWriter.Writer.BiWindup | external/zlib/trees.c:1190-1203 | Pads with fewer than 8 zero bits to a byte boundary, and leaves the buffer empty |
| StaticTables.TrStaticInit | external/zlib/trees.c:232-311 | Fills the length and distance tables so that each length and distance finds its code and base, and the static trees with the canonical words of the fixed code |
| InfTrees.InflateTable | external/zlib/inftrees.c:32-303 | Returns -1 exactly for lengths that are over-subscribed, or incomplete beyond a single one-bit code; 1 exactly when the tables do not fit; otherwise every bit string that begins with the word of a symbol is resolved by the root table and at most one sub-table to the entry of that symbol with its exact length, every other bit string to the invalid-code entry, the space used is exactly the tables' size, and nothing before is touched |
| InfTrees.FillTables | external/zlib/inftrees.c:188-289 | The loop that enters symbols: all symbols in order are found through root table and sub-tables, each sub-table exactly as large as its longest word needs, and the next code is the one after the last symbol's |
| TableLookup.ReadCode | external/zlib/inflate.c:1054-1070 | Reading through the two tables takes input only as long as the word is not complete, and finds the symbol that the canonical code finds in the stream, or ends short exactly when the code does |
| DeflateRuns.StepExtends | external/zlib/inflate.c:622-630 | A step of the reference decoder is never changed by bits that arrive later |
| DeflateRuns.ReachesExtends | external/zlib/inflate.c:622-630 | A run of the reference decoder is a run of it on any longer stream, and keeps the decoder's invariant |
| DeflateRuns.ReachesMoves | external/zlib/inflate.c:622-630 | Dropping whole bytes before the place where decoding begins changes nothing: runs of the decoder move along |
| InflateModes.DoType | external/zlib/inflate.c:849-886 | The block header modes take the reference decoder's steps, and stop only when the decoder has no step with the input so far |
| InflateModes.DoStored | external/zlib/inflate.c:887-900 | The length of a stored block and its complement are read as the reference decoder reads them, across any split of the input |
| InflateModes.DoCopy | external/zlib/inflate.c:901-919 | Stored bytes are copied as far as input and room go, resuming mid-block |
| InflateTables.DoTable | external/zlib/inflate.c:920-937 | The sizes of the trees are read and checked as the reference decoder does |
| InflateTables.DoLenLens | external/zlib/inflate.c:938-958 | The lengths of the code length code are read in their order, the rest set to 0, and its table built exactly when the lengths are good |
| InflateTables.DoCodeLens | external/zlib/inflate.c:959-1041 | The code lengths are rebuilt from items, resuming between any two, with the checks for bad repeats and a missing end-of-block code, and both decoding tables are built exactly when the lengths are good |
| InflateCodes.DoLen | external/zlib/inflate.c:1044-1092 | A literal or length word read through the tables is the reference decoder's step |
| InflateCodes.DoMatch | external/zlib/inflate.c:1146-1190 | A match is copied from the window or the output, resuming anywhere, and writes what the reference decoder writes; a distance beyond all output is an error |
| InflateCodes.DoLit | external/zlib/inflate.c:1191-1196 | A literal is written as the reference decoder does, and waits for room |
| InflateWindow.UpdateWindow | external/zlib/inflate.c:396-444 | The circular window keeps exactly the last bytes of all output, up to its size, in circular order, however much is added; it has no wrap until it is full |
| InflateCalls.InflateInit | external/zlib/inflate.c:195-237 | Makes an inflater at the start of a raw stream, with the fixed tables built |
| InflateCalls.Inflate | external/zlib/inflate.c:622-1274 | Any call with any input and room takes the reference decoder from where it was to where it ends, output and input accounted exactly; it stops only when input or room is used up, the stream is done or bad; Z_BUF_ERROR exactly for no progress |
| InflateCalls.CallsRanOut | external/zlib/inflate.c:1253-1271 | When calls have read everything and no output waits for room, the reference decoder has no step left |
| InflateCalls.ChunksDoNotMatter | external/zlib/inflate.c:622-1274 | Chunk independence: two sequences of calls on one stream, with any splits of input and output, end with the same output, mode and bit position |
| InflateCalls.InflateRecovers | external/zlib/inflate.c:622-1274 | Any exhausted sequence of calls on a stream that means some data has output exactly this data, and is done |
| InflateCalls.InflateGetDictionary | external/zlib/inflate.c:1291-1312 | Copies out exactly the last bytes of the output, up to the window's size, in order |
| FastLoop.InflateFast | external/zlib/inffast.c:50-305 | From LEN with 6 bytes of input and room for 258, inflate_fast ends in LEN, TYPE or BAD in a state that the reference decoder reaches, with the same output and bit position, fewer than 8 bits held, and `in` not before where it was; it is what the LEN mode of `Inflate` uses |
| FastSteps.KeepsWhatWasRead | external/zlib/inffast.c:285-290 | The bytes given back at the end are never more than were read, though a resumed LEN may enter with 8 or more bits of an unfinished word |
| SyncSearch.Search | external/zlib/inflate.c:1377-1398 | However the bytes are split over calls, the state is the longest part of 00 00 FF FF that they end with, and the search stops right after its first occurrence |
| Hashing.RollsOn | external/zlib/deflate.c:156-163 | UPDATE_HASH on the hash of two bytes gives the hash of three, and forgets the oldest byte |
| Hashing.ThirdByteForced | external/zlib/deflate.c:1335-1342 | With at least 8 hash bits, equal hashes and equal first two bytes force equal third bytes, so the comparison that is skipped would succeed |
| HashChains.InsertKeeps | external/zlib/deflate.c:177-186 | Inserting a string at the head of its chain, overwriting the oldest prev entry, keeps all chains: every entry within the window is an older inserted position of the same hash |
| HashChains.SlideKeeps | external/zlib/deflate.c:201-225 | Sliding all entries by the window size keeps all chains, with the positions that fell out ending them |
| HashChains.NextIs | external/zlib/deflate.c:1372-1373 | Following prev from a position that is not out of reach leads to an older position with the same hash, or to the end |
| FillWindow.InsertString | external/zlib/deflate.c:177-186 | Inserts a position whose three bytes are known: chains and rolling hash move on, and the head returned is the one its chain had, linked to older positions of the same hash |
| FillWindow.SlideHash | external/zlib/deflate.c:201-225 | Every entry of head and prev is lowered by the window size, or 0 |
| FillWindow.Fill | external/zlib/deflate.c:1482-1599 | Slides the window only past what can still be referred to, reads input until there is enough or none is left, catches up on strings that could not be hashed before, and keeps window, chains and stream standing for the same input; match_start moves along, modulo 2^32 |
| LongestMatch.FindLongest | external/zlib/deflate.c:1236-1377 | Every position visited is earlier, within MAX_DIST and of the same hash; a match that is longer than the previous one is true on all its bytes and within the lookahead; it is the longest among the positions visited; the search stops only for a good enough match, the depth, or the end of the chain |
| DeflateOutput.TallyMatch | external/zlib/deflate.c:1867-1868 | Tallying a true match of length 3 to 258 within MAX_DIST, and not from before the last full flush, extends the input that the tokens stand for by its length |
| DeflateOutput.FlushBlockOnly | external/zlib/deflate.c:1605-1614 | Ends the block at strstart: what has been written then stands for all input up to there, from the beginning and from the last full flush, and goes out as far as there is room |
| DeflateOutput.FlushPending | external/zlib/deflate.c:730-750 | Moves pending bytes out as far as there is room; the stream stays the same |
| DeflateFast.DeflateFast | external/zlib/deflate.c:1824-1918 | Whole runs: at every step the tallied tokens and the blocks written stand for exactly the input before strstart, for any input, room and flush; when it is done everything is out; only blocks cut short by a flush cost more than the data |
| DeflateFast.LookHere | external/zlib/deflate.c:1841-1862 | The string is inserted; a match found is true and within MAX_DIST, and when the newest earlier string of the same hash is within MAX_DIST and offers three bytes or more, the match is no shorter than what it offers |
| DeflateFast.FastStep | external/zlib/deflate.c:1841-1911 | One turn of the loop tallies the match that was found, or a literal, and passes over it: so far at least as the newest earlier string of the same hash, within MAX_DIST, repeats |
| DeflateSlow.Look | external/zlib/deflate.c:1950-1983 | After the search, a match deferred from the last position is still true and within MAX_DIST, even when the window slid in between; with a deferred match shorter than max_lazy, the match found is no shorter than what the newest earlier string of the same hash offers, from 4 bytes on, or 6 with Z_FILTERED |
| DeflateSlow.LazyStep | external/zlib/deflate.c:1950-2030 | One turn of the loop keeps the tokens, plus the one deferred byte, standing for the input before strstart, and moves on; a deferred match of max_lazy or more is always taken, and passed over as a whole |
| DeflateSlow.DeflateSlow | external/zlib/deflate.c:1926-2049 | Whole runs of lazy matching: the tokens and the deferred byte stand for exactly the input before strstart; no byte is deferred when a block ends; when it is done everything is out |
| DeflateCalls.DeflateInit2 | external/zlib/deflate.c:240-348 | Succeeds exactly for valid parameters, and makes a compressor that has read and written nothing with all invariants, of the level and strategy asked for, with a window of 2^windowBits bytes, 2^(memLevel+7) hash heads shifted by a third of the bits, and room for 2^(memLevel+6) symbols |
| DeflateCalls.Deflate | external/zlib/deflate.c:763-1073 | Any call keeps the compressor at rest and accounts for input and output; Z_STREAM_ERROR exactly for anything but Z_FINISH after the end; Z_BUF_ERROR exactly when there is no room, nothing to do that was not asked for before, or input after the end; Z_STREAM_END only when the stream is complete; Z_OK with room to spare only when all input is taken and the flush has been made: everything read can then be decoded from what is out, after Z_SYNC_FLUSH and Z_FULL_FLUSH it ends with 00 00 FF FF, and after Z_FULL_FLUSH decoding may begin there; a call with Z_FINISH and enough room ends the stream, and the room of `deflateBound` is enough for one call; last_flush is the flush value, or -1 when the room is used up |
| DeflateCalls.RankOrders | external/zlib/deflate.c:154-155 | RANK orders the flush values Z_NO_FLUSH, Z_BLOCK, Z_PARTIAL_FLUSH, Z_SYNC_FLUSH, Z_FULL_FLUSH, Z_FINISH; a call is a repetition exactly when the last one asked for as much, and never after one that ran out of room |
| DeflateCalls.Expansion | external/zlib/deflate.c:652-704 | At any time between calls what is out has at most 1153/1016 of the bytes read, and what flushes and short blocks took |
| DeflateCalls.AfterBlock | external/zlib/deflate.c:1021-1044 | The marker of each flush goes out, and after a full flush every token refers only to input read since, so that decoding may begin there |
| RoundTrip.StreamDecodes | external/zlib/deflate.c:763-1073 | When deflate has ended the stream, the bytes it has put out mean exactly all input it was given, and end with it |
| RoundTrip.InflateUndoesDeflate | external/zlib/inflate.c:622-1274 | Any sequence of inflate calls that uses up the output of any sequence of deflate calls that ended the stream gives back exactly the input, and is done |
| RoundTrip.FixedRoundTrip | external/zlib/deflate.c:763-1073 | With the strategy of fixed codes the round trip needs no assumption on table sizes |
| RoundTrip.FlushIsReadable | external/zlib/deflate.c:1021-1040 | After a flush, inflate on what is out so far gives back all input so far, and waits for a block header |
| RoundTrip.FlushTellsAll | external/zlib/trees.c:891-907 | After a partial flush too, calls of inflate that use up what is out have given back all that was read by then |
| RoundTrip.RestartRecovers | external/zlib/deflate.c:1026-1036 | A full flush forgets history: an inflater started on the bytes put out after it gives back exactly the input read after it, and is done |
| RoundTrip.RestartDecodes | external/zlib/deflate.c:1026-1036 | The same for the reference decoder, up to the end of the stream or to a later flush |
| RoundTrip.FlushLeavesPattern | external/zlib/deflate.c:1024-1028 | What syncsearch looks for is what a sync or full flush leaves at the end of the output |
| DeflateStored.HeaderOut | external/zlib/trees.c:863-874 | The header of a direct stored block, with its length and complement, padded to a byte |
| DeflateStored.DirectBlock | external/zlib/deflate.c:1690-1727 | A stored block of at most 65535 bytes copied straight from window and input to the output keeps payloads, window and unread input making up the whole input |
| DeflateStored.PendingBlock | external/zlib/deflate.c:1793-1811 | The fallback through the pending buffer keeps the same conservation |
| DeflateStored.DeflateStored | external/zlib/deflate.c:1643-1815 | Whole calls at level 0: the payloads written, then window[block_start..strstart), then the unread input make up the whole input, through direct copies, window slides and the pending buffer |
| DeflateStored.StoredConserves | external/zlib/deflate.c:1643-1815 | At rest and not finished, what is written decodes to the input up to block_start, and the window holds the rest |
| DeflateStored.StoredDecodesAll | external/zlib/deflate.c:1643-1815 | When finished, the stream decodes to exactly the input and ends with it |
| Crc32.MakeCrcTable | external/zlib/crc32.c:88-131 | The tables, made byte by byte and then by swapping, hold for every byte the polynomial remainder after 1 to 4 zero bytes, in both byte orders |
| Crc32.Crc32Z | external/zlib/crc32.c:202-234 | For every buffer, start alignment, byte order and running value the result is polynomial division one bit at a time (section 8 of RFC 1952); 0 for a null buffer |
| CrcValues.PolynomialIs | external/zlib/crc32.c:98-105 | The polynomial of the terms is 0xedb88320 |
| CrcValues.CheckValue | external/zlib/crc32.c:202-234 | The CRC of "123456789" is 0xcbf43926 |
| CrcValues.Residue | external/zlib/crc32.c:202-234 | Every message followed by its CRC, low byte first, has the same CRC, 0x2144df1c |
| Crc32.Crc32Little | external/zlib/crc32.c:266-297 | Byte steps to alignment, 32 bytes at a time, 4 at a time and the rest equal the bitwise CRC |
| Crc32.Crc32Big | external/zlib/crc32.c:306-337 | The same with the register and words in big-endian order and the swapped tables |
| CrcCombine.MatrixTimes | external/zlib/crc32.c:344-358 | The matrix of n zero bits applied to a vector shifts it by n bits |
| CrcCombine.MatrixSquare | external/zlib/crc32.c:361-369 | Squaring a matrix composes the operator with itself: twice as many zero bits |
| CrcCombine.Combine | external/zlib/crc32.c:372-425 | The alternating even and odd squares over the bits of len2 shift the first CRC by exactly 8*len2 bits before the exclusive or; the first CRC alone for len2 <= 0 |
| CrcCombine.CombineIsConcatenation | external/zlib/crc32.c:372-425 | So shifted and added, the CRCs of two parts make the CRC of the concatenation, from any start value |
| CrcCombine.CombineCrcs | external/zlib/crc32.c:372-425 | crc32_combine of the CRCs of a and b is the CRC of a+b |
| Adler32.Adler32Z | external/zlib/adler32.c:63-131 | For every start value and buffer the result is 1 for null, and equals the sums reduced at each byte exactly when not (one byte, and a high half for which one subtraction is too little) |
| Adler32.OneByteDeparts | external/zlib/adler32.c:75-84 | A start value with both halves at their upper ends on which the one-byte path departs |
| Adler32.LongAdler | external/zlib/adler32.c:99-130 | Blocks of 5552 bytes with one reduction each, all sums below 2^32, equal reducing at each byte |
| Adler32.CheckValue | external/zlib/adler32.c:63-131 | The checksum of "123456789" is 0x091e01de |
| Adler32.Combine | external/zlib/adler32.c:143-169 | adler32_combine of the checksums of d and e with len2 = |e| is the checksum of d+e; 0xffffffff for a negative length |
| XmlText.EncodeString | external/tinyxml/tinyxml.cpp:53-125 | Writes the encoding that the function Encoded defines: entities, hexadecimal escapes below 32, and references passed through; which name stands for which character is `XmlReferences.EntitiesWritten` |
| XmlReferences.EntitiesWritten | external/tinyxml/tinyxmlparser.cpp:43-49 | The five characters are written as `&amp;`, `&lt;`, `&gt;`, `&quot;` and `&apos;`, each its own |
| XmlText.GetEntity | external/tinyxml/tinyxmlparser.cpp:443-542 | Decodes numeric and named entities exactly as the function Entity says, with UTF-8 for numbers; none for a broken reference; what that means in numbers and characters is stated by the four lemmas below |
| XmlReferences.EntitiesRead | external/tinyxml/tinyxmlparser.cpp:526-534 | Wherever one of the five names comes up in a text, it is read as its character |
| XmlReferences.DecimalIsRead | external/tinyxml/tinyxmlparser.cpp:489-514 | An ampersand, a number sign, any run of decimal digits and a semicolon are read as the character whose number they spell in positional notation, for all numbers below 2^32: no wrapping of the multiplier shows |
| XmlReferences.HexadecimalIsRead | external/tinyxml/tinyxmlparser.cpp:455-487 | The same for hexadecimal digits, in capital and small letters, after an x |
| XmlReferences.Utf8IsFaithful | external/tinyxml/tinyxmlparser.cpp:86-129 | The bytes written for a number are well-formed UTF-8 exactly for the numbers of characters, and the number that RFC 3629 reads from them is the one written |
| XmlText.GetChar | external/tinyxml/tinyxml.h:375-405 | Reads one character of 1 to 4 bytes by its first byte, or an entity |
| XmlText.ReadText | external/tinyxml/tinyxmlparser.cpp:581-639 | Keeping white space, appends characters up to the end tag and stops just past it, exactly as the function Text says |
| XmlText.EncodedTextReadsBack | external/tinyxml/tinyxmlparser.cpp:581-639 | Round trip: for every well-formed UTF-8 string without NUL and without &#x, reading its encoding followed by a quote returns it and stops at the quote, whatever follows |
| XmlText.Utf8IsOneSequence | external/tinyxml/tinyxmlparser.cpp:86-129 | The bytes for a number below 2^21 are one sequence to the reader exactly below 0x140000: the first-byte table ends at F4 |
| XmlAttributes.AttributeSet.Add | external/tinyxml/tinyxml.cpp:1495-1508 | Joins an attribute before the sentinel: the ring is circular both ways, with the attribute last |
| XmlAttributes.AttributeSet.Remove | external/tinyxml/tinyxml.cpp:1510-1524 | Takes exactly that attribute out of the ring, which stays circular both ways; changes nothing when it is not in it |
| XmlAttributes.AttributeSet.Find | external/tinyxml/tinyxml.cpp:1551-1559 | The first attribute of that name, or null exactly when there is none |
| XmlAttributes.AttributeSet.FindOrCreate | external/tinyxml/tinyxml.cpp:1562-1571 | The attribute of that name, or a new last one, so that names stay unique |
| XmlAttributes.AttributeSet.SetAttribute | external/tinyxml/tinyxml.cpp:742-748 | Gives the named attribute its value in place, or adds it at the end; ring circular, names unique |
| XmlAttributes.CopyAttributes | external/tinyxml/tinyxml.cpp:814-821 | Sets on the target exactly the attributes that a walk with Next sees |
| XmlAttributes.SeesAll | external/tinyxml/tinyxml.cpp:1115-1123 | The walk sees every attribute exactly when none after the first has neither name nor value, because the end of the ring is told by emptiness |
| XmlAttributes.WalkStopsEarly | external/tinyxml/tinyxml.cpp:1115-1123 | A ring of three attributes of which the walk sees one |
| XmlForest.ChainsAgree | external/tinyxml/tinyxml.cpp:128-137 | In a sound forest the forward chain, the backward chain and the child sequence of a node agree, without repetition, and every child's parent is the node |
| XmlForest.EditIsSound | external/tinyxml/tinyxml.cpp:175-361 | An edit that leaves one list in order and takes nodes only from it or from no list keeps every list of the forest in order |
| XmlForest.EditedTree | external/tinyxml/tinyxml.cpp:175-361 | Editing a node's list leaves the trees of its other children as they were |
| XmlForest.CloneIsFaithful | external/tinyxml/tinyxml.cpp:809-851 | A clone says the same as its tree exactly when only elements and documents in it have children and no attribute after the first is blank |
| XmlNodes.Destroy | external/tinyxml/tinyxml.cpp:139-149 | The destructor deletes exactly a node and what is below it, each once, and reads no node after its deletion |
| XmlNodes.LinkEndChild | external/tinyxml/tinyxml.cpp:176-203 | A node of no list becomes the last child, all lists in order, no other list changed; a document is deleted instead and null returned |
| XmlNodes.InsertEndChild | external/tinyxml/tinyxml.cpp:206-220 | A clone, new and saying what Clone makes of the original, becomes the last child; null for a document |
| XmlNodes.InsertBeforeChild | external/tinyxml/tinyxml.cpp:223-253 | A clone comes right before the child, all lists in order, no other list changed; null exactly when it is none of this node's or a document is given |
| XmlNodes.InsertAfterChild | external/tinyxml/tinyxml.cpp:255-284 | The same right after the child |
| XmlNodes.ReplaceChild | external/tinyxml/tinyxml.cpp:287-331 | A clone takes the place of the child, which is deleted with all below it; null exactly when it is none of this node's or a document is given |
| XmlNodes.RemoveChild | external/tinyxml/tinyxml.cpp:334-361 | The child is taken out of the sequence and deleted with exactly what is below it; false exactly when it is none of this node's |
| XmlNodes.Clear | external/tinyxml/tinyxml.cpp:160-172 | All children are deleted with all below them, and the list is empty both ways |
| XmlNodes.Clone | external/tinyxml/tinyxml.cpp:842-851 | New nodes only, in order, that say what Copied makes of the original, which is untouched |

## Left out

- Headers and trailers of zlib and gzip streams, and preset dictionaries: the model is of raw DEFLATE data, and `Inflate` has no CHECK value.
- Z_BLOCK and Z_TREES in inflate, `inflateSync` around `syncsearch`, `inflatePrime`, `inflateCopy`, `inflateUndermine`, `inflateMark`, and `infback.c`.
- Window sizes for inflate other than 2^15.
- `deflate_rle` and `deflate_huff`: they would add matches of distance 1 and no matches to what `DeflateFast` shows.
- `deflateParams`, `deflatePrime`, `deflateTune`, `deflateCopy`: level and strategy are constant per stream.
- DeflateCalls.DeflateInit2: does not make streams of level 0; `deflate_stored` is proved on its own, from a state in which nothing is pending, as `deflate` calls it.
- DeflateCalls.Deflate: that the room of `deflateBound` is enough is shown for the value it has for other than the default settings; the tighter one for a window of 2^15 bytes and 2^15 hash heads is not shown to be enough.
- DeflateStored.DeflateStored: the calls around it in `deflate`, with flush markers, are not part of the level-0 model.
- RoundTrip.InflateUndoesDeflate: assumes that the dynamic tables of every block fit the space that inflate has for them (the ghost field `fits`); that they always do is the result of an exhaustive search quoted in `inftrees.h`, and is not proved.
- BlockFlush.FlushBlock: the same assumption, as `TablesFit`, for a dynamic block to decode.
- HuffmanTrees.BuildTree: asks for frequencies that sum to less than 2^16, as the 16-bit fields and the size of the symbol buffer ensure.
- The choice of the data type (binary or text), and the debug counters of `trees.c`.
- FASTEST, UNALIGNED_OK, NOBYFOUR, DYNAMIC_CRC_TABLE races, TRUNCATE_BLOCK, and assembler variants.
- Memory allocation failing.
- `gzlib.c`, `gzread.c`, `gzwrite.c`, `gzclose.c`, `compress.c`, `uncompr.c`, `zutil.c`.
- XmlText.ReadText: white space is kept and the encoding is UTF-8; condensing white space and case-insensitive end tags are not modelled.
- XmlNodes.LinkEndChild: asks that the node does not have this node below it, where the source would link a cycle; the error recorded in the document is not modelled.
- XmlNodes.Clone: does not copy user data, locations, or the error location.
- XmlNodes.ReplaceChild: the new node learns its parent before the old one is deleted, not after.
- Parsing, printing, streaming, numbers and files of TinyXML.
- All of the OpenLB kernels and the generated code around them.
