# Verification of the DEFLATE codec and of the kernel's scheduler

The project models two parts of the repository.

**The DEFLATE codec** in `tools/deflate/lib`.  The compressor sorts symbols, builds Huffman trees in place,
limits codeword lengths, generates bit-reversed canonical codewords, finds matches with three matchfinders,
parses a block in four ways (fastest, greedy, lazy, near-optimal), chooses the cheapest kind of block and packs
bits.  The decompressor builds decode tables with subtables, refills its bit buffer in two ways, and decodes
items with a fast loop and a generic loop.  `EndToEnd` joins the two halves: whatever is compressed decompresses
to itself.  What a stream means is stated once, in `Inflate`, after section 3.2 of RFC 1951; both halves are
proved against it.

**The scheduler of the kernel** in `kernel`: the ready queue, the sleepers, the locks and the thread groups.
`KernelState`, `KernelSteps` and `KernelRuns` state each system call as a step of one state machine and prove
what all runs keep; `KernelSleeping`, `KernelWaiting`, `KernelTurns` and `KernelLocks` say what the calls mean for
what follows them.  `Kernel`, `KernelList` and `KernelBoot` are the code itself, on linked nodes in the heap;
each call is proved to do to the heap what its step does to the state.

How to read it: `Arith`, `Bits`, `Words` and `BitBuffer` are about numbers and bit strings; `Optimal`,
`HuffmanTree`, `TreeDepths`, `LengthCounts`, `GenCodewords`, `HuffmanCode` and `Dyadic` are about Huffman codes;
`Canonical`, `CodeOrder`, `DecodeTable`, `Fill*`, `Subtables`, `BuildDecodeTable`, `TableRoom` about decode
tables; `Items`, `Parsing`, `Precode`, `Header`, `Inflate` say what bits mean; `Bit{Reader,Writer}`, `Decode*`,
`Fast*`, `GenericItem`, `Read*`, `Write*`, `FlushBlock`, `Compress` are the two bitstreams; `BlockForms` says what
is written for a block, `BestCodes` that no other codes are shorter, and `Samples` has three streams byte by byte;
`Ht`-, `Hc`- and `Bt*` are the matchfinders, and `HashTables`, `HcChains` and `BtSearch` say what they hold and find
as functions of the input; `HcParse` and `BlockChoices` say what the parsers choose, `BlockGraph` what the
near-optimal one chooses from; `Parsers`, `MinCostPath`, `PathBlocks`, `NearOptimal` and the drivers are the parsers.
Constants keep the values of the source.  Both word sizes (4 and 8 bytes) and both values of
`UNALIGNED_ACCESS_IS_FAST` are covered everywhere.

## Model

| member | source | states |
|---|---|---|
| EndToEnd.ThereAndBack | tools/deflate/libdeflate.h:75-76 | For every input, level, word size and choice of the heuristics, compressing into a buffer of the bound's size succeeds, and decompressing the result gives exactly the input. Nothing is assumed of codes or tables: the static codes and the decode tables are built here. |
| DeflateCompress.DeflateCompress | tools/deflate/lib/deflate_compress.c:3961-4001 | The result is 0, or the output carries bits that mean exactly the input, the last block marked final, with zeros behind them in the last byte, and nothing else. These bits are stated in full: stored blocks of little data, or else, for blocks that partition the input, the shortest form of each, with the items that the level's parser chooses. With a buffer of the bound's size the result is not 0. |
| Samples.StoredSample | tools/deflate/lib/decompress_template.h:263-303 | Six bytes, written out, are a stored block of one byte. |
| Samples.StaticSample | tools/deflate/lib/decompress_template.h:305-327 | Nine bytes, written out, are a block in the static codes: six literals and an overlapping match of twelve bytes. |
| Samples.DynamicSample | tools/deflate/lib/decompress_template.h:85-245 | Thirteen bytes, written out, are a block with codes of its own that means one byte: the order of the precode lengths, their number, the repeat symbols and the extra bits are those of RFC 1951. |
| Compress.BlocksWithinBound | tools/deflate/lib/deflate_compress.c:4017-4075 | When all blocks but the last have the minimum length, 5 bytes for each stored block they could need, plus the data, stay below the bound less the end padding. |
| Decompress.Decompressor.Decompress | tools/deflate/lib/decompress_template.h:45-772 | Success and short output mean that the input is a stream for exactly the bytes written, and that the consumed byte count is the stream's length rounded up. Bad data means that every reading of the input as a stream goes beyond its end; insufficient space, that every reading has more output than there is room for, and that blocks and items can be read up to the one that overflows. Nothing behind the output's end is written. Of arrays that share memory each is lost when another is written. |
| Inflate.InflatesUnique | tools/deflate/lib/decompress_template.h:72-741 | A byte string means at most one output and one end: the result of decompression is determined by the input. |
| HeapSort.HeapSort | tools/deflate/lib/deflate_compress.c:765-819 | The stretch is sorted and a permutation of what it was; everything outside it is unchanged. |
| SortSymbols.SortSymbols | tools/deflate/lib/deflate_compress.c:853-912 | Exactly the used symbols are listed, by frequency and then by symbol; exactly the lengths of unused symbols become 0. |
| HuffmanTree.BuildTree | tools/deflate/lib/deflate_compress.c:946-1001 | The parents left in the array are those of a merge history in which every step joins two lightest nodes; weights and parents are monotone; the sorted symbols in the low bits survive, although the nodes overwrite the leaves. |
| TreeDepths.PathLength | tools/deflate/lib/deflate_compress.c:946-1001 | The weighted path length of the tree is the sum of the weights of its inner nodes. |
| TreeDepths.TreeKraft | tools/deflate/lib/deflate_compress.c:946-1001 | The depths of the leaves fill the code space exactly. |
| TreeDepths.TreeIsOptimal | tools/deflate/lib/deflate_compress.c:946-1001 | No assignment of lengths that satisfies the Kraft inequality, hence no binary tree, has a smaller weighted length than the tree. |
| LengthCounts.ComputeLengthCounts | tools/deflate/lib/deflate_compress.c:1029-1097 | The counts use no length above the limit, add up to the number of symbols and fill the code space exactly, clamped or not; without clamping they are the counts of the tree's leaf depths. No count is decremented below zero. |
| LengthCounts.ShorterExists | tools/deflate/lib/deflate_compress.c:1083-1088 | When a depth is clamped there is a shorter length in use, so that the downward search ends. |
| GenCodewords.GenCodewords | tools/deflate/lib/deflate_compress.c:1184-1222 | Lengths are handed out so that rarer symbols get the longer ones; the code is complete, and every stored codeword is the symbol's canonical codeword with its first bit lowest. |
| Canonical.PrefixFree | tools/deflate/lib/deflate_compress.c:1184-1222 | In canonical codes that do not overfill the code space no codeword is a prefix of another. |
| Reverse.Reverses | tools/deflate/lib/deflate_compress.c:1151-1157 | Two table lookups and a shift reverse a codeword of up to 16 bits. |
| HuffmanCode.MakeHuffmanCode | tools/deflate/lib/deflate_compress.c:1325-1399 | For all frequencies with a sum below 2^22: a complete code within the limit, lengths exactly for the used symbols, none longer than that of a rarer symbol, canonical codewords; of least total size among all codes when the tree of the used symbols is within the limit; with a single used symbol two codewords of one bit; with none no codeword. Frequencies 2^-l of a power of two give exactly the lengths l. |
| Dyadic.DepthsAreLengths | tools/deflate/lib/deflate_compress.c:1436-1453 | Frequencies that are the shares 2^-l of lengths l force every leaf of the tree to depth l, whatever ties are broken. |
| InitStatic.InitStaticCodes | tools/deflate/lib/deflate_compress.c:1436-1453 | The codes made from the frequency tables are the static codes of section 3.2.6 of RFC 1951. |
| StaticCodes.StaticAccepted | tools/deflate/lib/decompress_template.h:305-327 | The static lengths form complete codes, so that their tables are always built. |
| StaticCodes.StaticCodewords | tools/deflate/lib/decompress_template.h:305-327 | The canonical codewords of the static literal/length code are those that section 3.2.6 of RFC 1951 lists. |
| Words.NextWordIncrements | tools/deflate/lib/deflate_decompress.c:895-912 | Setting the highest zero bit of a reversed codeword and clearing the bits above it gives the reversal of its successor. |
| FillSubtables.SizeSubtable | tools/deflate/lib/deflate_decompress.c:943-961 | The sizing loop ends, with the fewest bits at which the codewords of the prefix fill the subtable. |
| BuildDecodeTable.BuildDecodeTable | tools/deflate/lib/deflate_decompress.c:722-994 | Success if and only if the code is complete, empty, or one codeword of one bit; then, for every bit buffer and the symbol that it means, the main entry or the subtable entry that it points to is that symbol's, with the right number of bits. When the table shares memory with the lengths, they have all been read before the first entry is written. |
| Slots.LengthSlotIs | tools/deflate/lib/deflate_compress.c:237-250 | Each length slot begins at the length, and has the extra bits, that a closed form gives: four slots for each number of extra bits, and the last slot for the greatest length alone. |
| Slots.OffsetSlotIs | tools/deflate/lib/deflate_compress.c:253-268 | Each offset slot begins at the offset, and has the extra bits, that a closed form gives: two slots for each number of extra bits. |
| TableRoom.TableBound | tools/deflate/lib/deflate_decompress.c:352-375 | A complete code never needs more entries than the main table and a full subtable for each symbol. |
| BitReader.BitReader.RefillBranchless | tools/deflate/lib/deflate_decompress.c:206-212 | Loading a word over bits that are already there leaves the buffer equal to the stream from the same position, with as many bits as can be consumed. |
| BitReader.BitReader.Refill | tools/deflate/lib/deflate_decompress.c:236-254 | The same near the end of the input, where the missing bytes count as zeros; it fails only if bits beyond the input have been consumed. |
| BitReader.BitReader.Align | tools/deflate/lib/decompress_template.h:264-269 | Rewinding reaches the next byte boundary, and fails exactly if bits beyond the input have been consumed. |
| BitWriter.BitWriter.AddBits | tools/deflate/lib/deflate_compress.c:731-736 | Appends exactly the n bits of the value to the bits written. |
| BitWriter.BitWriter.FlushBits | tools/deflate/lib/deflate_compress.c:739-757 | Moves whole bytes to the output without changing the bits written, by word or by byte, and never past the end. |
| BitWriter.BitWriter.StoredBlock | tools/deflate/lib/deflate_compress.c:1871-1894 | Appends the type, padding, length, its complement and the bytes; failure leaves the output full. |
| Items.TilesExpand | tools/deflate/lib/decompress_template.h:681-738 | Items that stand for the bytes of a stretch expand, behind what comes before it, to exactly these bytes. |
| Parsing.BlockBitsMean | tools/deflate/lib/deflate_compress.c:1900-1997 | The emitted bits of any items, followed by the end of the block, mean these items and end behind it. |
| Parsing.BlockUnique | tools/deflate/lib/decompress_template.h:681-738 | Bits mean at most one list of items in accepted codes. |
| TableLookup.NextOffset | tools/deflate/lib/decompress_template.h:711-725 | Decodes the offset that the bits mean; failure means that every reading goes beyond the input. |
| GenericItem.DecodeItem | tools/deflate/lib/decompress_template.h:681-738 | One round: the item that the bits mean is applied to the output, or the end is found, or the failure is justified by the bits, the space or the offset. |
| FastBits.RefillFast | tools/deflate/lib/deflate_decompress.c:260-272 | Refilling without looking for the end keeps the position, and leaves the bits that can be consumed and those that can only be looked at. |
| FastBits.RoundIsAmple | tools/deflate/lib/deflate_decompress.c:294-297 | Before the fast loop's input end a whole round has input for all of its refills. |
| MatchCopy.CopyMatchFast | tools/deflate/lib/decompress_template.h:605-670 | Each of the four word-by-word and byte-by-byte copies leaves the bytes of the overlapping byte copy and changes nothing beyond the slack. |
| FastItems.FastMatch | tools/deflate/lib/decompress_template.h:518-670 | Offset, early lookup of the next entry and copy: the match that the bits mean is applied, the preloaded entry is that of the next item; otherwise the offset reaches before the output. |
| FastLoop.FastRound | tools/deflate/lib/decompress_template.h:348-671 | A round of up to three items, with preloading, subtables and the end of the block, makes the progress that the bits mean, reads and writes within its bounds, and leaves everything from the output's end on unchanged. |
| FastLoop.FastLoop | tools/deflate/lib/decompress_template.h:344-671 | All rounds together: items read so far, a finished block, or a block that does not decode, for both word sizes and both ways to refill. |
| DecodeBlock.DecodeBlock | tools/deflate/lib/decompress_template.h:344-741 | The fast loop followed by the generic loop: done exactly when the block decodes within input and output, with the bits and bytes of its items. |
| Precode.ComputePrecodeItems | tools/deflate/lib/deflate_compress.c:1474-1548 | The items expand to exactly the lengths, and each is the longest possible where it begins; none repeats before there is a length, each is valid, and the frequencies count them. |
| Precode.EachLongestUnique | tools/deflate/lib/deflate_compress.c:1474-1548 | Lengths have only one list of items of which each is the longest possible where it begins. |
| Precode.RunsAreRepeated | tools/deflate/lib/deflate_compress.c:1494-1541 | In that list no three zeros are left as single lengths, nor three further repetitions of another length. |
| Precode.FewerItems | tools/deflate/lib/deflate_compress.c:1497-1514 | An input for which these are not the fewest items: 140 zeros take three of them, and two would do. |
| WriteHeader.PrecomputeHeader | tools/deflate/lib/deflate_compress.c:1562-1622 | The counts of symbols are the least allowed, the header is that of the used lengths: the longest items, the precode made from how often they occur, and the least number of stored precode lengths. The array afterwards is stated in full. |
| WriteHeader.RestoredIff | tools/deflate/lib/deflate_compress.c:1616-1621 | The lengths are restored if and only if every offset length that was moved over unused ones is 0; the lengths that the header names are right in any case. |
| WriteHeader.NotRestored | tools/deflate/lib/deflate_compress.c:1616-1621 | With one offset symbol in use and no length symbols, that offset's length stays behind as the length of a length symbol. |
| WriteHeader.WriteHeader | tools/deflate/lib/deflate_compress.c:1803-1852 | Appends exactly the bits of the header, for both sizes of the buffer. |
| Header.MiddleOutwards | tools/deflate/lib/deflate_compress.c:331-333 | The precode lengths are stored in the order 16, 17, 18, 0, and then from the middle outwards: a closed form of the table. |
| Header.HeaderBitsMean | tools/deflate/lib/decompress_template.h:85-245 | The bits of a header mean the lengths it was made from. |
| DecodeLens.DecodeLengths | tools/deflate/lib/decompress_template.h:150-245 | Reads the lengths that the bits mean, with repeats that may write beyond the last length and are then refused; failure means that no reading exists. |
| ReadHeader.ReadHeader | tools/deflate/lib/decompress_template.h:85-245 | Success gives the lengths that the header means; failure means that the bits are no header within the input. |
| WriteBlock.ComputeFullLenCodewords | tools/deflate/lib/deflate_compress.c:1630-1649 | The precomputed value of every match length is its codeword with the extra bits behind it. |
| WriteBlock.WriteItems | tools/deflate/lib/deflate_compress.c:1900-1997 | Appends exactly the bits of the block's items and of its end, from sequences or from a path. |
| Costs.BlockCost | tools/deflate/lib/deflate_compress.c:1744-1780 | Frequencies times weights add up to the length of the block's bits. |
| FlushBlock.DynamicCostIs | tools/deflate/lib/deflate_compress.c:1735-1780 | The computed cost of a dynamic block is the number of its bits behind the first three. |
| FlushBlock.FlushStored | tools/deflate/lib/deflate_compress.c:1863-1897 | Exactly the stored form of the bytes, blocks of 65535 bytes and one of the rest, which means the bytes; no more bits than that if the output is full. |
| FlushBlock.FlushBlock | tools/deflate/lib/deflate_compress.c:1698-2011 | Unless the output is full, appends exactly the shortest of three forms of the block: stored, in the static codes, or in the block's own codes behind their header; of equally long forms the stored one, or else the static one. It has 3 + bestCost bits and means the bytes of the block. Own codes and header are made from the items: BlockForms.BlockMade. |
| BestCodes.NoShorterCodes | tools/deflate/lib/deflate_compress.c:1325-1399 | If the trees of a block's symbols are within the limits, no other accepted codes, be their lengths within the limits or not, write its items in fewer bits. |
| BestCodes.NoShorterHeader | tools/deflate/lib/deflate_compress.c:1590-1605 | If the tree of the precode is within its limit, the block takes no fewer bits with any other precode for the items of the header, not counting the three bits of each stored precode length. |
| Compress.FinishBlock | tools/deflate/lib/deflate_compress.c:2014-2024 | Behind the shortest forms of the blocks so far comes that of one more; all of it still encodes all bytes so far and is no longer than their stored form. |
| Compress.Finish | tools/deflate/lib/deflate_compress.c:3995-4000 | The size is 0 exactly when the output is full or there are no bits; otherwise the bytes are exactly the bits, with zeros behind them in the last byte. |
| Deflate.PacksUnique | tools/deflate/lib/deflate_compress.c:3995-4000 | So packed, bits determine the bytes. |
| DeflateCompress.CompressNone | tools/deflate/lib/deflate_compress.c:2360-2410 | The stored form of the input, bit for bit; 0 exactly when it does not fit. |
| MatchCommon.FirstDifferingByte | tools/deflate/lib/matchfinder_common.h:154-197 | The lowest set bit of the exclusive or of two words lies in their first differing byte. |
| MatchCommon.LzExtend | tools/deflate/lib/matchfinder_common.h:154-197 | The length is that of the longest common stretch up to the limit, word by word or byte by byte. |
| MatchCommon.Rebase | tools/deflate/lib/matchfinder_common.h:112-133 | Every entry is one window less, saturating. |
| MatchCommon.SlidNames | tools/deflate/lib/matchfinder_common.h:112-133 | A slid entry names the same position as before, or is dead for ever. |
| MatchCommon.GenericIff | tools/deflate/lib/matchfinder_common.h:125-131 | The branch for other window sizes subtracts with saturation if and only if the window is the largest one or the entry is negative. |
| HtMatchfinder.HtMatchfinder.LongestMatch | tools/deflate/lib/ht_matchfinder.h:78-195 | The match is the better of the two latest positions with the hash of this one, as a function of the input alone: however the window slid before, and whatever was skipped, the buckets hold exactly these. The position is inserted. |
| HtMatchfinder.TwoWayTrue | tools/deflate/lib/ht_matchfinder.h:78-195 | A match found is true, within the window and of at least four bytes. |
| HtMatchfinder.TwoWayLast | tools/deflate/lib/ht_matchfinder.h:131-149 | If the last position with the same hash is in reach and has four bytes or more in common, the match is at least as long, and is that one if as long. |
| HtMatchfinder.TwoWayLastButOne | tools/deflate/lib/ht_matchfinder.h:131-149 | The same of the last but one, unless the match with the last has niceLen bytes; it is chosen only if it is longer. |
| HtMatchfinder.HtMatchfinder.SkipBytes | tools/deflate/lib/ht_matchfinder.h:198-232 | After skipping, with the window sliding early, the buckets hold what inserting one by one would have left. |
| HcMatchfinder.HcMatchfinder.LongestMatch | tools/deflate/lib/hc_matchfinder.h:183-338 | The match is what a search of the input itself gives: back over the positions with the same hash of four bytes, after the latest with the same hash of three, each improvement longer than the last. Two hash tables and a ring of links, slid any number of times, hold exactly these positions. The position is inserted. |
| HcMatchfinder.HcMatchfinder.SkipBytes | tools/deflate/lib/hc_matchfinder.h:361-399 | After skipping, also near the end of the input, tables and links are those of the positions passed. |
| HcChains.SearchedTrue | tools/deflate/lib/hc_matchfinder.h:183-338 | What is found is a true match within the window, longer than the best so far and no longer than the limit. |
| HcChains.LongestInWindow | tools/deflate/lib/hc_matchfinder.h:150-338 | A search that is deep enough for its list, and that is not ended by a match of the nice length, finds a match at least as long as that with any position of the window, and the nearest of that length, from four bytes on. Of the first position of the input this holds where its initial hashes are those of the bytes searched for. |
| HcChains.ThreeBytes | tools/deflate/lib/hc_matchfinder.h:233-253 | If a match of three bytes is worth having, the last position with the hash of these three bytes gives it unless there is a longer match, and no other position gives a match of three bytes. |
| HcChains.FirstFound | tools/deflate/lib/hc_matchfinder.h:172-175 | If the first position of the input is found, the hash of the bytes searched for is 0, the initial one. |
| HcChains.FirstMissed | tools/deflate/lib/deflate_compress.c:2505 | Of nine equal bytes the first has eight in common with the second and is not found there. |
| BtTrees.Between | tools/deflate/lib/bt_matchfinder.h:201-262 | What lies between two positions that share k bytes with the current one shares them too, so that comparing may start there. |
| BtTrees.SplitOrdered | tools/deflate/lib/bt_matchfinder.h:201-262 | The two trees that the way down leaves are ordered, keep only positions of the old one, and lie on either side of the current position. |
| BtTrees.PrunePositions | tools/deflate/lib/bt_matchfinder.h:201-262 | Cutting off what has left the window removes exactly the old positions, because children are older than their parents. |
| BtTrees.FoundAreTrue | tools/deflate/lib/bt_matchfinder.h:287-290 | The recorded matches are true, of strictly increasing length and of increasing offset. |
| BtTrees.NoneLonger | tools/deflate/lib/bt_matchfinder.h:201-262 | If the search is deep enough for the tree, it ends with a match of the nice length or with the longest that any position of the tree has to offer. |
| BtMemory.DescendSplits | tools/deflate/lib/bt_matchfinder.h:201-262 | Rewriting the pending child links on the way down leaves exactly the two split trees in the ring array and touches nothing else. |
| BtMemory.SlideHolds | tools/deflate/lib/bt_matchfinder.h:114-119 | Sliding all entries changes none of the trees that lie within the window. |
| BtMatchfinder.BtMatchfinder.Advance | tools/deflate/lib/bt_matchfinder.h:141-262 | All buckets stay search trees without a common position, with the new position at the root of its bucket; the matches recorded are exactly those of three bytes with the two latest positions of their hash and those of the walk down, true, longer and longer, never nearer, and at most niceLen - 2. |
| BtMatchfinder.ThreesAtLast | tools/deflate/lib/bt_matchfinder.h:183-200 | The last position with the hash of three bytes gives the match if it has three bytes in common, or else the last but one. |
| BtSearch.Represented | tools/deflate/lib/bt_matchfinder.h:201-262 | As long as no list is longer than the searches are deep, every position of the window is in the tree of its hash, or a later one is that agrees with it on niceLen bytes. |
| BtSearch.LongestInTrees | tools/deflate/lib/bt_matchfinder.h:201-262 | Hence the last match recorded at a position is as long as that with any position of the window that has four bytes in common with it, or it has niceLen bytes: a statement about the input alone. |
| BtMatchfinder.BtMatchfinder.SlideWindow | tools/deflate/lib/bt_matchfinder.h:114-119 | After a whole window the slid tables hold the same trees. |
| Sequences.Store.ChooseLiteral | tools/deflate/lib/deflate_compress.c:2204-2214 | Sequences and the pending run stand for one byte more; the frequencies still count them. |
| Sequences.Store.ChooseMatch | tools/deflate/lib/deflate_compress.c:2217-2237 | Sequences stand for the bytes of the match as well, the frequencies still count them, and the store does not overflow. |
| Parsers.FastestBlock | tools/deflate/lib/deflate_compress.c:2436-2484 | The block's sequences stand for exactly its bytes, its length is within the limits, and the next block can start. Its items are exactly those that the parser chooses one after the other from the start of the block on, and it ends at the first position at which the parser stops. |
| BlockChoices.ParsedUnique | tools/deflate/lib/deflate_compress.c:2436-2484 | Where a block starts determines its items and where it ends, for all parsers but the near-optimal one. |
| Parsers.FastestStep | tools/deflate/lib/deflate_compress.c:2443-2480 | One step adds exactly one item: the match of the hash table matchfinder, or the literal. |
| BlockChoices.FastestTakes | tools/deflate/lib/deflate_compress.c:2451-2470 | A match is chosen, and one no shorter than that with the last position of the same hash, if this has four bytes or more. |
| Parsers.GreedyStep | tools/deflate/lib/deflate_compress.c:2527-2557 | One step adds exactly one item: the match found if it is long enough and, at three bytes, near enough, or the literal. |
| BlockChoices.GreedyTakes | tools/deflate/lib/deflate_compress.c:2538-2551 | With a deep enough search, a match is chosen where some position of the window has at least four bytes and the least length in common, and it is no shorter than that, or has niceLen bytes. |
| Parsers.LazyStep | tools/deflate/lib/deflate_compress.c:2621-2764 | One step adds exactly the items of the lazy choice: one literal, or the literals up to the position where it settles, and the match it settles on. |
| BlockChoices.LazyTakes | tools/deflate/lib/deflate_compress.c:2621-2764 | The same of the match that the lazy choice ends with: it is never put off for a shorter one. |
| Parsers.LazyMatch | tools/deflate/lib/deflate_compress.c:2643-2764 | However often a better match defers the current one: the items chosen are exactly the literals up to where the deferrals end and the match found there, as a function of the input. |
| HcParse.LazySoon | tools/deflate/lib/deflate_compress.c:2643-2764 | At most 345 literals come before the match, because each deferral gains in length or in the size of the offset. |
| HcParse.MoreThanTwoIff | tools/deflate/lib/deflate_compress.c:181-190 | More than two literals come before the match if and only if the first three deferrals, by the guards of the two comparisons, put the match off by more than two. |
| HcParse.ThreeLiterals | tools/deflate/lib/deflate_compress.c:181-190 | An input at which both lazy parsers, at any depth from 66 on, put a match off three times, and settle three positions later on one of seven bytes. |
| BlockChoices.ThreeLiteralsChosen | tools/deflate/lib/deflate_compress.c:181-190 | The items chosen there are three literals and that match. |
| Parsers.HcBlock | tools/deflate/lib/deflate_compress.c:2572-2775 | As the fastest parser, for the greedy and both lazy parsers: exactly the items chosen one after the other, until the parser stops. |
| Drivers.CompressFastest | tools/deflate/lib/deflate_compress.c:2419-2490 | The blocks that the fastest parser makes partition the whole input; what is written are their shortest forms, which encode it, within the bound. |
| Drivers.CompressHc | tools/deflate/lib/deflate_compress.c:2496-2801 | The same of the greedy and the lazy parsers. |
| MinCostPath.FindMinCostPath | tools/deflate/lib/deflate_compress.c:3295-3366 | At every node the stored cost is that of the stored item and what follows it, and no edge is cheaper; the sentinels behind the block stay. |
| MinCostPath.NoCheaperPath | tools/deflate/lib/deflate_compress.c:3295-3366 | No path from a node to the end of the block costs less than what is stored at the node. |
| MinCostPath.FollowingIsPath | tools/deflate/lib/deflate_compress.c:3295-3366 | Following the stored items leads exactly to the end of the block, at the stored cost. |
| PathBlocks.SolvedTiles | tools/deflate/lib/deflate_compress.c:3360-3366 | The items on that path stand for the bytes of the block. |
| PathBlocks.Tally | tools/deflate/lib/deflate_compress.c:2811-2835 | The frequencies are those of the items on the path. |
| PathBlocks.ChooseAllLiterals | tools/deflate/lib/deflate_compress.c:2838-2849 | Exactly a literal for each byte, with their frequencies. |
| NearOptimal.OptimizeBlock | tools/deflate/lib/deflate_compress.c:3384-3470 | Whatever the costs of the passes: the items are those of a path of least cost through the cached choices, for the costs of the last pass or of the one asked for, or a literal for each byte; they stand for the bytes of the block, with their frequencies. |
| NearOptimal.FillBlock | tools/deflate/lib/deflate_compress.c:3588-3705 | The cache holds, for every position of the block, exactly the matches that the search there finds, or none where it is covered by an earlier match of niceLen bytes, as a function of the input: `BlockGraph.GraphOf`. They are true, and the cache does not overflow. Caching stops at the first search at which the block is long enough, the cache full, or the verdict to end the block; the block ends there, or where the verdict was last to go on. |
| BlockGraph.NoneMissed | tools/deflate/lib/deflate_compress.c:3619-3671 | Of every position of the input: an earlier search has found a match of niceLen bytes that covers it, or its own cached matches end with one of niceLen bytes or at least as long as that with any position of the window, from four bytes on, as long as no list is longer than the searches are deep. |
| DriveNearOptimal.CompressNearOptimal | tools/deflate/lib/deflate_compress.c:3533-3789 | The blocks of the near-optimal parser, ended early or not, partition the input, each with the items of a cheapest path through what its searches find, or literals; what is written are their shortest forms, which encode the input, within the bound. |
| ListMemory.AddRing | kernel/list/list.c:8-13 | In a ring, the new node comes directly behind the given one; every other ring is left alone. |
| ListMemory.AddTailRing | kernel/list/list.c:15-20 | The new node is last in the list of the head. |
| ListMemory.DelRing | kernel/list/list.c:22-25 | The ring without the node is a ring; every other ring is left alone. |
| ListMemory.ReplaceRing | kernel/list/list.c:32-37 | In a ring of at least two, the new node takes the place of the old one. |
| ListMemory.ReplaceAlone | kernel/list/list.c:32-37 | A node linked to itself is not replaced: the new node ends up linked to the old one. |
| KernelList.ListAdd | kernel/list/list.c:8-13 | The four assignments to nodes do to the heap what `ListMemory.Add` does. |
| KernelList.ListDel | kernel/list/list.c:22-25 | The two assignments, through the node's neighbours, do what `ListMemory.Del` does. |
| KernelList.ListReplaceInit | kernel/list/list.c:39-42 | The node is replaced and then linked to itself, as `ListMemory.ReplaceInit`. |
| KernelList.ListMove | kernel/list/list.c:44-47 | Taking out and putting first, as `ListMemory.Move`. |
| KernelList.ListMoveTail | kernel/list/list.c:49-52 | Taking out and putting last, as `ListMemory.MoveTail`. |
| KernelList.ListEmpty | include/os/list.h:127-130 | The head points to itself exactly if there is nothing else in its ring. |
| KernelMemory.EnqueueKeeps | kernel/sched/sched.c:68-74 | Moving a task's own node to the end of a queue leaves all queues and groups rings, disjoint, with the new queue. |
| KernelMemory.RequeueKeeps | kernel/sched/sched.c:76-82 | Moving a node from a queue to the ready queue leaves all queues and groups rings, with both queues updated. |
| KernelMemory.CreateKeeps | kernel/sched/thread.c:37-49 | A new thread's group node behind the running thread's leaves all rings in order. |
| KernelState.SchedulerKeepsInvIff | kernel/sched/sched.c:24-54 | The scheduler keeps the invariant if and only if the running task stays or some task is ready once the sleepers are woken. |
| KernelSteps.SleepKeepsInvIff | kernel/sched/sched.c:56-66 | Sleeping keeps the invariant if and only if a task is ready once the sleepers are woken. |
| KernelSteps.ExitKeepsInvIff | kernel/sched/sched.c:84-88 | The same of exiting. |
| KernelSteps.AcquireKeepsInvIff | kernel/locking/lock.c:60-72 | Acquiring keeps it if and only if the lock has no key, is free, or a task is ready once the sleepers are woken. |
| KernelSteps.YieldKeepsInv | kernel/sched/thread.c:51-59 | The next thread of the group is parked, hence in no queue, or the running one: linking its list node to itself orphans no queued node. |
| KernelWaking.WokenInTime | kernel/sched/time.c:34-46 | A sleeper is woken if and only if its time has come when it is looked at. |
| KernelWaking.WakingKeepsOrder | kernel/sched/time.c:34-46 | Both the woken sleepers and the others keep their order. |
| KernelSleeping.SleepsUntilDue | kernel/sched/sched.c:56-66 | Over runs: a task that calls to sleep until a time is neither running nor ready through every run in which no call finds that time come for it; the first call that does makes it ready or runs it. Stated from the time given to the call. |
| KernelSleeping.FindsDueIff | kernel/sched/time.c:34-46 | A call finds the time come for a sleeper if and only if the reading at its place in the queue is not below it. |
| KernelRuns.StepKeepsInv | kernel/sched/sched.c:24-88 | Every call and timer interrupt keeps: each task in one queue, as its status says; locks with one holder each, and waiters only at taken ones; at most one active thread in each group. |
| KernelRuns.RunKeepsInv | kernel/sched/sched.c:24-88 | Hence every state of every run is in order. |
| KernelRuns.FirstInFirstOut | kernel/sched/sched.c:24-54 | In every run, the task at place i of the ready queue moves up once with each call of the scheduler and runs with exactly the (i + 1)-th. |
| KernelTurns.TickPreempts | kernel/sched/sched.c:24-54 | After a timer interrupt the task that ran is last in the ready queue, behind those woken, and the first of the ready tasks runs; with none it runs on. |
| KernelTurns.ThreadsTakeTurns | kernel/sched/thread.c:51-59 | The threads of a group that yield to each other run in turn, all of them, in the order of the group. |
| KernelTurns.NewThreadNext | kernel/sched/thread.c:37-59 | A new thread is the one that runs when its creator yields. |
| KernelTurns.ExitedForGood | kernel/sched/sched.c:84-88 | A task that has exited is in no queue and does not run in any later state. |
| KernelRuns.WaitersInOrder | kernel/locking/lock.c:60-86 | In every run, the i-th waiter of a lock is given it with exactly the (i + 1)-th release, and the lock is not free in between. |
| KernelWaiting.FreeLockTaken | kernel/locking/lock.c:60-72 | A free lock is the caller's at once, and the caller runs on. |
| KernelWaiting.WaitsForLock | kernel/locking/lock.c:60-86 | Over runs: a task that calls for a taken lock is last in its queue, and neither runs nor is ready until the holder and all in front of it have released the lock; with the next release it is given the lock and made ready. |
| KernelRuns.KeysStay | kernel/locking/lock.c:43-58 | Through every run a lock keeps its key, and no other lock gets it. |
| KernelWaiting.KeyGiven | kernel/locking/lock.c:43-58 | After a key has been asked for there is a lock with it if and only if there was one or a lock was free; no other key comes or goes. |
| KernelRuns.RunKeepsNoneLostIff | kernel/sched/sched.c:84-88 | A run loses no thread if and only if every task that exits in it is alone in its thread group. |
| KernelRuns.ExitStrandsThread | kernel/sched/sched.c:84-88 | From boot, a task that creates a thread and exits loses it. |
| KernelRuns.ExitWithNoneReady | kernel/sched/sched.c:35-38 | From boot with one task: after the first timer interrupt it exits, and the scheduler returns to it. |
| KernelLocks.HolderKeptIff | kernel/locking/lock.c:74-86 | A step takes a lock from the task that has it if and only if it is a release that does not hand it back to that task. |
| KernelLocks.NobodyRobbedIff | kernel/locking/lock.c:74-86 | In a run every task keeps a lock until it releases it itself if and only if no release takes it from another task. |
| KernelLocks.HeldUntilReleased | kernel/locking/lock.c:60-86 | In such a run a task that has the lock still has it or has released it, so that no two tasks have it at once. |
| KernelLocks.AnyoneReleases | kernel/locking/lock.c:74-86 | There is a run from boot in which a second task takes the lock away from the first. |
| Kernel.Kernel.CheckSleepers | kernel/sched/time.c:34-46 | The traversal that unlinks nodes while it walks ends, and wakes exactly the sleepers that are due. |
| Kernel.Kernel.DoScheduler | kernel/sched/sched.c:24-54 | On the heap: exactly the step of the state machine, with all nodes, tasks and locks in agreement afterwards. |
| Kernel.Kernel.DoSleep | kernel/sched/sched.c:56-66 | On the heap: exactly the step of sleeping, of which `KernelSleeping.SleepsUntilDue` says how long it lasts. |
| Kernel.Kernel.DoBlock | kernel/sched/sched.c:68-74 | The running task leaves no queue and is last in the given one, blocked. |
| Kernel.Kernel.DoUnblock | kernel/sched/sched.c:76-82 | The task moves from its queue to the end of the ready queue. |
| Kernel.Kernel.DoExit | kernel/sched/sched.c:84-88 | On the heap: exactly the step of exiting. |
| Kernel.Kernel.InitLocks | kernel/locking/lock.c:8-17 | From locks of which nothing is known, not even the links of their queues' heads: all are free, without keys, with empty queues; nothing else changes. |
| Kernel.Kernel.DoMutexLockInit | kernel/locking/lock.c:43-58 | The first lock with the key, or else the first without one, which gets it; -1 exactly when there is neither. |
| Kernel.Kernel.DoMutexLockAcquire | kernel/locking/lock.c:60-72 | On the heap: exactly the step of acquiring. |
| Kernel.Kernel.DoMutexLockRelease | kernel/locking/lock.c:74-86 | On the heap: exactly the step of releasing. |
| Kernel.Kernel.DoThreadCreate | kernel/sched/thread.c:37-49 | On the heap: a new task, parked behind the running one in its group; the others stay. |
| Kernel.Kernel.DoThreadYield | kernel/sched/thread.c:51-59 | On the heap: the next thread of the group runs, and resetting its list node changes no link. |
| KernelBoot.InitPcb | init/main.c:94-111 | Setting up any number of tasks and locks, from nodes and locks without contents, gives a kernel in order, in the boot state from which the runs start. |

## Findings

- `kernel/sched/sched.c:84-88`: a task that exits hands nothing on to its thread group.  The other threads of the
  group stay parked for ever, since only a yield within the group would run them.
  `KernelRuns.RunKeepsNoneLostIff` gives the exact condition, and `KernelRuns.ExitStrandsThread` a run from boot:
  timer interrupt, thread creation, exit.
- `kernel/sched/sched.c:35-38`: with an empty ready queue the scheduler returns to a task that has just blocked or
  exited.  `SchedulerKeepsInvIff`, `SleepKeepsInvIff`, `ExitKeepsInvIff` and `AcquireKeepsInvIff` say exactly when
  this breaks the invariant, and `KernelRuns.ExitWithNoneReady` shows it from boot: one task, one timer interrupt,
  exit.  Runs are made of calls for which it does not.
- `kernel/locking/lock.c:74-86`: a release is not checked to come from the task that has the lock.
  `KernelLocks.NobodyRobbedIff` says exactly in which runs this does harm, and `KernelLocks.AnyoneReleases`
  shows such a run from boot.
- `kernel/list/list.c:32-37`: replacing a node that is alone leaves the new node linked to the old one
  (`ListMemory.ReplaceAlone`).  Nothing in the kernel does this.
- `tools/deflate/lib/deflate_compress.c:1616-1621`: moving the offset lengths back does not restore the lengths of
  unused literal/length symbols that they had overwritten.  `WriteHeader.RestoredIff` says exactly when it does,
  `WriteHeader.NotRestored` gives lengths for which it does not.  Harmless: only symbols that occur are looked up
  afterwards, and theirs are right.
- `tools/deflate/lib/matchfinder_common.h:125-131`: the branch for smaller windows adds the window size where it
  should subtract it (`MatchCommon.GenericIff`).  It is never taken, since the window has 32768 bytes.
- `tools/deflate/lib/deflate_compress.c:181-190`: the comment bounds a block by two literals and a match of the
  greatest length behind its soft limit.  The lazy parsers can put more than two literals before a match:
  `HcParse.MoreThanTwoIff` says exactly when, `HcParse.ThreeLiterals` and `BlockChoices.ThreeLiteralsChosen` give an
  input, `HcParse.LazySoon` proves 345 to be enough.  The block is still no longer than `MAX_BLOCK_LENGTH`, by its
  other term (`Parsers.HcBlock`), so that nothing overflows.
- `tools/deflate/lib/hc_matchfinder.h:172-175`: the hashes handed in are to be those of the bytes at the current
  position; for the first position all callers hand in zeros (`deflate_compress.c:2428`, `2505`, `2581`, `3546`).
  It is therefore found only by positions whose hash is 0 (`HcChains.FirstFound`, `HcChains.LongestInWindow`), and
  `HcChains.FirstMissed` gives an input at which it is missed.  Harmless: a match is lost, none is wrong.

## Left out

- Heuristics without a bearing on correctness are parameters, over all values of which the theorems hold: where
  blocks are split, the least match length worth using, the costs of each pass of the near-optimal parser, when to
  stop, and which pass wins.
- HuffmanCode.MakeHuffmanCode: when lengths had to be limited the code is complete and rarer symbols have the longer
  codewords, but nothing is said of how far it is from the best limited one.  Sorting needs at least three symbols
  (`SortSymbols.SortSymbols`), which all callers have, and frequencies with a sum below 2^22, which the entries have
  room for.
- TableRoom.TableBound: that tables of 2342 and 402 entries are enough comes from an external enumeration; the
  model's tables are as large as this bound, and the builder takes any table with room.
- MinCostPath.FindMinCostPath: the costs are such that 32-bit sums do not wrap around: those of lengths and
  offsets are below 2^30, and a block of literals costs less than the sentinel value 2^31.
- The arrays that share memory in the decompressor's union are separate arrays, but writing one of them makes
  the contents of those it shares memory with arbitrary.
- KernelBoot.InitPcb: task loading and stacks are not modelled; locks are set up before the tasks rather than
  after them, which touches other nodes; the nodes of the boot task, which nothing ever uses, are linked to
  themselves rather than null.
- Packed words are records where their packing has no bearing: sequences (run, length, offset, slot) and path
  items.  Huffman tree entries, decode table entries, precode items and the bit buffers are packed as in the source.
- Finite tables (bit reversal, offset slots, extra bits) are functions with proved values rather than arrays.
- Allocation and freeing, compression level settings, API wrappers, prefetching, alignment and big-endian paths.
- Boot assembly, task loading, stacks, registers and `switch_to`, which only changes the running task.
- The clock is a nondecreasing sequence of readings given with each call; a call to a lock has a valid index.
- The screen, system call dispatch, string functions, the page allocator, image creation and the test programs.
